/** The keys of the context cache (src/policy.rs): digests of what they stand for, in lower-case hexadecimal. */
module ContextKeys {
  import opened Prelude
  import opened BlockKeys

  predicate HexByte(b: byte) { '0' as int <= b <= '9' as int || 'a' as int <= b <= 'f' as int }

  predicate ValidKey(k: Bytes) { |k| == 64 && forall i :: 0 <= i < |k| ==> HexByte(k[i]) }

  function HexDigit(n: nat): byte
    requires n < 16
  {
    if n < 10 then 48 + n else 87 + n
  }

  // The two digits of a byte, and the byte of two digits.
  function High(b: byte): byte { HexDigit(b / 16) }
  function Low(b: byte): byte { HexDigit(b % 16) }

  function HexValue(x: byte): (n: nat)
    requires HexByte(x)
    ensures n < 16
  {
    if x <= 57 then x - 48 else x - 87
  }

  function Joined(x: byte, y: byte): byte
    requires HexByte(x) && HexByte(y)
  {
    16 * HexValue(x) + HexValue(y)
  }

  lemma SplitAndJoin(b: byte)
    ensures HexByte(High(b)) && HexByte(Low(b)) && Joined(High(b), Low(b)) == b
  {
  }

  lemma JoinAndSplit(x: byte, y: byte)
    requires HexByte(x) && HexByte(y)
    ensures High(Joined(x, y)) == x && Low(Joined(x, y)) == y
  {
  }

  function HexEncode(d: Bytes): (s: Bytes)
    ensures |s| == 2 * |d|
  {
    seq(2 * |d|, i requires 0 <= i < 2 * |d| => if i % 2 == 0 then High(d[i / 2]) else Low(d[i / 2]))
  }

  predicate HexPairs(s: Bytes) { |s| % 2 == 0 && forall i :: 0 <= i < |s| ==> HexByte(s[i]) }

  function HexDecode(s: Bytes): (d: Bytes)
    requires HexPairs(s)
    ensures 2 * |d| == |s|
  {
    seq(|s| / 2, i requires 0 <= i < |s| / 2 => Joined(s[2 * i], s[2 * i + 1]))
  }

  lemma EncodedIsHex(d: Bytes)
    ensures HexPairs(HexEncode(d))
  {
    forall i | 0 <= i < |HexEncode(d)| ensures HexByte(HexEncode(d)[i]) {
      SplitAndJoin(d[i / 2]);
    }
  }

  lemma DigitsOf(d: Bytes, i: nat)
    requires i < |d|
    ensures HexEncode(d)[2 * i] == High(d[i]) && HexEncode(d)[2 * i + 1] == Low(d[i])
  {
    assert 2 * i / 2 == i && (2 * i + 1) / 2 == i;
  }

  lemma EncodeInjective(d: Bytes, e: Bytes)
    requires HexEncode(d) == HexEncode(e)
    ensures d == e
  {
    forall i | 0 <= i < |d| ensures d[i] == e[i] {
      DigitsOf(d, i);
      DigitsOf(e, i);
      SplitAndJoin(d[i]);
      SplitAndJoin(e[i]);
    }
  }

  lemma EncodeInvertsDecode(s: Bytes)
    requires HexPairs(s)
    ensures HexEncode(HexDecode(s)) == s
  {
    var d := HexDecode(s);
    forall i | 0 <= i < |s| ensures HexEncode(d)[i] == s[i] {
      var k := i / 2;
      JoinAndSplit(s[2 * k], s[2 * k + 1]);
      assert d[k] == Joined(s[2 * k], s[2 * k + 1]);
    }
  }

  // The keys that validation accepts are exactly the encodings of 32-byte digests, each of exactly one.
  lemma ValidKeyIff(k: Bytes)
    ensures ValidKey(k) <==> exists d: Bytes :: |d| == 32 && HexEncode(d) == k
    ensures forall d, e :: HexEncode(d) == k && HexEncode(e) == k ==> d == e
  {
    if ValidKey(k) {
      EncodeInvertsDecode(k);
      assert |HexDecode(k)| == 32;
    }
    if d: Bytes :| |d| == 32 && HexEncode(d) == k {
      EncodedIsHex(d);
    }
    forall d, e | HexEncode(d) == k && HexEncode(e) == k ensures d == e {
      EncodeInjective(d, e);
    }
  }

  function MakeKey(sha: Digest, namespace: Bytes, model: Bytes, payload: Bytes): Bytes {
    HexEncode(sha(ContextKeyEncoding(namespace, model, payload)))
  }

  // With a digest of 32 bytes that does not confuse the two encodings, every key made is valid, and two contexts have
  // the same key exactly if namespace, model and payload are the same.
  lemma KeysTellContextsApart(sha: Digest, n: Bytes, m: Bytes, p: Bytes, n': Bytes, m': Bytes, p': Bytes)
    requires |n| <= U64_MAX && |m| <= U64_MAX && |p| <= U64_MAX
    requires |n'| <= U64_MAX && |m'| <= U64_MAX && |p'| <= U64_MAX
    requires var x, y := ContextKeyEncoding(n, m, p), ContextKeyEncoding(n', m', p');
             |sha(x)| == 32 && (sha(x) == sha(y) ==> x == y)
    ensures ValidKey(MakeKey(sha, n, m, p))
    ensures MakeKey(sha, n, m, p) == MakeKey(sha, n', m', p') <==> n == n' && m == m' && p == p'
  {
    ValidKeyIff(MakeKey(sha, n, m, p));
    if MakeKey(sha, n, m, p) == MakeKey(sha, n', m', p') {
      assert sha(ContextKeyEncoding(n, m, p)) == sha(ContextKeyEncoding(n', m', p'));
      ContextKeyEncodingInjective(n, m, p, n', m', p');
    }
  }
}
