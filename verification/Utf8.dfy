/** Well-formed UTF-8, as the standard library checks it (Table 3-7 of the Unicode Standard). */
module Utf8 {
  import opened Prelude

  predicate Continues(s: Bytes, i: nat, lo: int, hi: int) { i < |s| && lo <= s[i] <= hi }

  // Length of the well-formed sequence at the front of s, or 0.
  function SequenceLength(s: Bytes): (n: nat)
    requires s != []
    ensures n <= |s|
  {
    var b := s[0];
    var c1, c2 := Continues(s, 1, 0x80, 0xBF), Continues(s, 2, 0x80, 0xBF);
    if b < 0x80 then 1
    else if 0xC2 <= b <= 0xDF then (if c1 then 2 else 0)
    else if b == 0xE0 then (if Continues(s, 1, 0xA0, 0xBF) && c2 then 3 else 0)
    else if b == 0xED then (if Continues(s, 1, 0x80, 0x9F) && c2 then 3 else 0)
    else if 0xE1 <= b <= 0xEF then (if c1 && c2 then 3 else 0)
    else if 0xF0 <= b <= 0xF4 then
      (if Continues(s, 1, if b == 0xF0 then 0x90 else 0x80, if b == 0xF4 then 0x8F else 0xBF)
          && c2 && Continues(s, 3, 0x80, 0xBF) then 4 else 0)
    else 0
  }

  predicate ValidUtf8(s: Bytes) {
    s == [] || (SequenceLength(s) > 0 && ValidUtf8(s[SequenceLength(s)..]))
  }

  lemma {:induction false} AsciiIsValid(s: Bytes)
    requires forall i :: 0 <= i < |s| ==> s[i] < 0x80
    ensures ValidUtf8(s)
  {
    if s != [] {
      AsciiIsValid(s[1..]);
    }
  }

  // Length of the white-space character at the front of s, or 0 (the White_Space property of Unicode).
  function WhiteSpaceLength(s: Bytes): (n: nat)
    requires s != []
    ensures n <= |s|
  {
    var b := s[0];
    if 9 <= b <= 13 || b == 32 then 1
    else if b == 0xC2 && (Continues(s, 1, 0x85, 0x85) || Continues(s, 1, 0xA0, 0xA0)) then 2
    else if |s| < 3 then 0
    else if b == 0xE1 && s[1] == 0x9A && s[2] == 0x80 then 3
    else if b == 0xE2 && s[1] == 0x80 && (0x80 <= s[2] <= 0x8A || s[2] == 0xA8 || s[2] == 0xA9 || s[2] == 0xAF) then 3
    else if b == 0xE2 && s[1] == 0x81 && s[2] == 0x9F then 3
    else if b == 0xE3 && s[1] == 0x80 && s[2] == 0x80 then 3
    else 0
  }

  // Nothing is left of the text when it is trimmed.
  predicate Blank(s: Bytes) {
    s == [] || (WhiteSpaceLength(s) > 0 && Blank(s[WhiteSpaceLength(s)..]))
  }

  // ----- what the bytes stand for -----

  // A Unicode scalar value: any code point but the surrogates.
  type Scalar = c: int | 0 <= c < 0x110000 && !(0xD800 <= c < 0xE000)

  // Table 3-6 of the Unicode Standard.
  function Encode(c: Scalar): (s: Bytes)
    ensures 1 <= |s| <= 4
  {
    if c < 0x80 then [c]
    else if c < 0x800 then [0xC0 + c / 64, 0x80 + c % 64]
    else if c < 0x10000 then [0xE0 + c / 64 / 64, 0x80 + c / 64 % 64, 0x80 + c % 64]
    else [0xF0 + c / 64 / 64 / 64, 0x80 + c / 64 / 64 % 64, 0x80 + c / 64 % 64, 0x80 + c % 64]
  }

  function EncodeAll(cs: seq<Scalar>): Bytes {
    if cs == [] then [] else Encode(cs[0]) + EncodeAll(cs[1..])
  }

  // The last digit of a number in base 64.
  lemma LastDigit(n: nat, e: nat)
    requires e < 64
    ensures (64 * n + e) / 64 == n && (64 * n + e) % 64 == e
  {
  }

  // The bytes of a character beyond ASCII, by the digits of its number, and the ranges of those.
  lemma TwoBytes(c: Scalar) returns (d: nat, e: nat)
    requires 0x80 <= c < 0x800
    ensures c == 64 * d + e && 2 <= d < 32 && e < 64 && Encode(c) == [0xC0 + d, 0x80 + e]
  {
    d, e := c / 64, c % 64;
  }

  lemma ThreeBytes(c: Scalar) returns (b: nat, d: nat, e: nat)
    requires 0x800 <= c < 0x10000
    ensures c == 4096 * b + 64 * d + e && b < 16 && d < 64 && e < 64
    ensures (b == 0 ==> 32 <= d) && (b == 13 ==> d < 32)
    ensures Encode(c) == [0xE0 + b, 0x80 + d, 0x80 + e]
  {
    var n := c / 64;
    b, d, e := n / 64, n % 64, c % 64;
  }

  lemma FourBytes(c: Scalar) returns (a: nat, b: nat, d: nat, e: nat)
    requires 0x10000 <= c
    ensures c == 262144 * a + 4096 * b + 64 * d + e && a < 5 && b < 64 && d < 64 && e < 64
    ensures (a == 0 ==> 16 <= b) && (a == 4 ==> b < 16)
    ensures Encode(c) == [0xF0 + a, 0x80 + b, 0x80 + d, 0x80 + e]
  {
    var n := c / 64;
    var m := n / 64;
    assert 0x400 <= n < 0x4400 && 0x10 <= m < 0x110;
    a, b, d, e := m / 64, m % 64, n % 64, c % 64;
  }

  lemma ScalarIsSequence(c: Scalar, rest: Bytes)
    ensures SequenceLength(Encode(c) + rest) == |Encode(c)|
  {
    if 0x80 <= c < 0x800 {
      var d, e := TwoBytes(c);
    } else if 0x800 <= c < 0x10000 {
      var b, d, e := ThreeBytes(c);
    } else if 0x10000 <= c {
      var a, b, d, e := FourBytes(c);
    }
  }

  // The characters of two, three and four bytes.
  lemma ScalarOfTwo(x: int, y: int) returns (c: Scalar)
    requires 0xC2 <= x <= 0xDF && 0x80 <= y <= 0xBF
    ensures Encode(c) == [x, y]
  {
    LastDigit(x - 0xC0, y - 0x80);
    c := 64 * (x - 0xC0) + (y - 0x80);
  }

  lemma ScalarOfThree(x: int, y: int, z: int) returns (c: Scalar)
    requires 0xE0 <= x <= 0xEF && 0x80 <= y <= 0xBF && 0x80 <= z <= 0xBF
    requires (x == 0xE0 ==> 0xA0 <= y) && (x == 0xED ==> y <= 0x9F)
    ensures Encode(c) == [x, y, z]
  {
    var n := 64 * (x - 0xE0) + (y - 0x80);
    LastDigit(x - 0xE0, y - 0x80);
    LastDigit(n, z - 0x80);
    c := 64 * n + (z - 0x80);
  }

  lemma ScalarOfFour(x: int, y: int, z: int, w: int) returns (c: Scalar)
    requires 0xF0 <= x <= 0xF4 && 0x80 <= y <= 0xBF && 0x80 <= z <= 0xBF && 0x80 <= w <= 0xBF
    requires (x == 0xF0 ==> 0x90 <= y) && (x == 0xF4 ==> y <= 0x8F)
    ensures Encode(c) == [x, y, z, w]
  {
    var m := 64 * (x - 0xF0) + (y - 0x80);
    var n := 64 * m + (z - 0x80);
    LastDigit(x - 0xF0, y - 0x80);
    LastDigit(m, z - 0x80);
    LastDigit(n, w - 0x80);
    c := 64 * n + (w - 0x80);
  }

  // The scalar value of the well-formed sequence at the front.
  lemma SequenceIsScalar(s: Bytes) returns (c: Scalar)
    requires s != [] && SequenceLength(s) > 0
    ensures Encode(c) == s[..SequenceLength(s)]
  {
    if s[0] < 0x80 {
      c := s[0];
    } else if s[0] < 0xE0 {
      c := ScalarOfTwo(s[0], s[1]);
    } else if s[0] < 0xF0 {
      c := ScalarOfThree(s[0], s[1], s[2]);
    } else {
      c := ScalarOfFour(s[0], s[1], s[2], s[3]);
    }
  }

  lemma {:induction false} EncodingIsValid(cs: seq<Scalar>)
    ensures ValidUtf8(EncodeAll(cs))
  {
    if cs != [] {
      EncodingIsValid(cs[1..]);
      ScalarIsSequence(cs[0], EncodeAll(cs[1..]));
      assert EncodeAll(cs)[|Encode(cs[0])|..] == EncodeAll(cs[1..]);
    }
  }

  lemma {:induction false} ValidIsEncoding(s: Bytes) returns (cs: seq<Scalar>)
    requires ValidUtf8(s)
    ensures EncodeAll(cs) == s
  {
    if s == [] {
      return [];
    }
    var c := SequenceIsScalar(s);
    var n := SequenceLength(s);
    var rest := ValidIsEncoding(s[n..]);
    cs := [c] + rest;
    assert cs[0] == c && cs[1..] == rest;
    assert EncodeAll(cs) == s[..n] + s[n..] == s;
  }

  // The accepted byte strings are exactly the encodings of sequences of scalar values.
  lemma ValidUtf8Iff(s: Bytes)
    ensures ValidUtf8(s) <==> exists cs :: EncodeAll(cs) == s
  {
    if ValidUtf8(s) {
      var cs := ValidIsEncoding(s);
    } else if cs :| EncodeAll(cs) == s {
      EncodingIsValid(cs);
    }
  }

  // The White_Space property, by code points.
  predicate IsSpace(c: Scalar) {
    || 0x09 <= c <= 0x0D || c == 0x20 || c == 0x85 || c == 0xA0 || c == 0x1680 || 0x2000 <= c <= 0x200A
    || c == 0x2028 || c == 0x2029 || c == 0x202F || c == 0x205F || c == 0x3000
  }

  lemma SpaceAtFront(c: Scalar, rest: Bytes)
    ensures WhiteSpaceLength(Encode(c) + rest) == if IsSpace(c) then |Encode(c)| else 0
  {
    if 0x80 <= c < 0x800 {
      var d, e := TwoBytes(c);
    } else if 0x800 <= c < 0x10000 {
      var b, d, e := ThreeBytes(c);
    } else if 0x10000 <= c {
      var a, b, d, e := FourBytes(c);
    }
  }

  // Trimming a text leaves nothing exactly if all its characters are white space.
  lemma {:induction false} BlankIff(cs: seq<Scalar>)
    ensures Blank(EncodeAll(cs)) <==> forall i :: 0 <= i < |cs| ==> IsSpace(cs[i])
  {
    if cs != [] {
      BlankIff(cs[1..]);
      SpaceAtFront(cs[0], EncodeAll(cs[1..]));
      assert EncodeAll(cs)[|Encode(cs[0])|..] == EncodeAll(cs[1..]);
      assert (forall i :: 0 <= i < |cs| ==> IsSpace(cs[i])) <==>
        IsSpace(cs[0]) && forall i :: 0 <= i < |cs[1..]| ==> IsSpace(cs[1..][i]);
    }
  }
}
