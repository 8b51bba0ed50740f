/** The RESP protocol of the Redis connector (src/connectors.rs): command printer and reply parser. */
module Resp {
  import opened Prelude
  import opened Utf8

  datatype Value =
    | Simple(line: Bytes)
    | Error(line: Bytes)
    | Integer(n: int)
    | Bulk(bytes: Option<Bytes>)
    | NullArray
    | Array(values: seq<Value>)

  // A parse either fails or yields a value and the input that remains.
  datatype Parse<T> = Parsed(value: T, rest: Bytes) | Bad

  const CRLF: Bytes := [13, 10]
  const MAX_DEPTH: nat := 8
  const MAX_ELEMENTS: nat := 4096

  // ----- decimal numbers -----

  function Decimal(n: nat): Bytes {
    if n < 10 then [48 + n] else Decimal(n / 10) + [48 + n % 10]
  }

  predicate IsDigit(b: byte) { 48 <= b <= 57 }

  lemma DigitsAre(b: byte)
    ensures IsDigit(b) <==> '0' <= b as char <= '9'
  {
  }

  predicate AllDigits(s: Bytes) { forall i :: 0 <= i < |s| ==> IsDigit(s[i]) }

  function DigitsValue(s: Bytes): nat
    requires AllDigits(s)
  {
    if s == [] then 0 else 10 * DigitsValue(s[..|s| - 1]) + (s[|s| - 1] - 48)
  }

  // str::parse::<i64>: an optional sign, at least one digit, and no overflow.
  function ParseI64(s: Bytes): Option<int> {
    var signed := s != [] && (s[0] == 43 || s[0] == 45);
    var digits := if signed then s[1..] else s;
    if digits == [] || !AllDigits(digits) then None else
    var n: int := if signed && s[0] == 45 then 0 - DigitsValue(digits) else DigitsValue(digits);
    if 0 - I64_MAX - 1 <= n <= I64_MAX then Some(n) else None
  }

  lemma {:induction false} DecimalIsDigits(n: nat)
    ensures Decimal(n) != [] && AllDigits(Decimal(n)) && DigitsValue(Decimal(n)) == n
  {
    if n >= 10 {
      DecimalIsDigits(n / 10);
      assert Decimal(n)[..|Decimal(n)| - 1] == Decimal(n / 10);
    }
  }

  lemma {:induction false} DecimalLength(n: nat, k: nat)
    requires n < Pow10(k) && k > 0
    ensures |Decimal(n)| <= k
  {
    if n >= 10 {
      DecimalLength(n / 10, k - 1);
    }
  }

  lemma ParseDecimal(n: nat)
    requires n <= I64_MAX
    ensures ParseI64(Decimal(n)) == Some(n) && |Decimal(n)| <= 19
  {
    DecimalIsDigits(n);
    assert IsDigit(Decimal(n)[0]);
    assert Pow10(19) == 10_000_000_000_000_000_000 by {
      assert Pow10(4) == 10_000;
      assert Pow10(8) == 10_000 * Pow10(4);
      assert Pow10(12) == 10_000 * Pow10(8);
      assert Pow10(16) == 10_000 * Pow10(12);
      assert Pow10(19) == 1_000 * Pow10(16);
    }
    DecimalLength(n, 19);
  }

  // ----- lines -----

  // read_until: the number of bytes up to and including the first newline, or all of them.
  function UntilNewline(s: Bytes): (n: nat)
    ensures n <= |s|
  {
    if s == [] then 0 else if s[0] == 10 then 1 else 1 + UntilNewline(s[1..])
  }

  function ReadLine(s: Bytes, max: nat): Parse<Bytes> {
    var count := UntilNewline(s);
    if count < 2 || count > max || s[count - 2..count] != CRLF then Bad
    else if !ValidUtf8(s[..count - 2]) then Bad
    else Parsed(s[..count - 2], s[count..])
  }

  lemma {:induction false} NewlineFound(line: Bytes, rest: Bytes)
    requires 10 !in line
    ensures UntilNewline(line + (CRLF + rest)) == |line| + 2
  {
    var s := line + (CRLF + rest);
    if line == [] {
      assert s[0] == 13 && s[1..][0] == 10;
    } else {
      NewlineFound(line[1..], rest);
      assert s[0] == line[0] && line[0] in line;
      assert s[1..] == line[1..] + (CRLF + rest);
    }
  }

  // A line of text is read back without its terminator exactly if it is within the limit.
  lemma LineIsRead(line: Bytes, rest: Bytes, max: nat)
    requires 10 !in line && ValidUtf8(line)
    ensures ReadLine(line + (CRLF + rest), max) == if |line| + 2 <= max then Parsed(line, rest) else Bad
  {
    NewlineFound(line, rest);
    LineParts(line, rest);
  }

  lemma LineParts(line: Bytes, rest: Bytes)
    ensures var s := line + (CRLF + rest);
            s[..|line|] == line && s[|line|..|line| + 2] == CRLF && s[|line| + 2..] == rest
  {
  }

  // ----- the parser -----

  function ReadNumber(s: Bytes): Parse<int> {
    match ReadLine(s, 64)
    case Bad => Bad
    case Parsed(line, rest) => if ParseI64(line).None? then Bad else Parsed(ParseI64(line).value, rest)
  }

  function ReadBulk(s: Bytes, max: nat): Parse<Value> {
    match ReadNumber(s)
    case Bad => Bad
    case Parsed(n, rest) =>
      if n == -1 then Parsed(Bulk(None), rest)
      else if n < 0 || n > max || |rest| < n + 2 || rest[n..n + 2] != CRLF then Bad
      else Parsed(Bulk(Some(rest[..n])), rest[n + 2..])
  }

  function ReadValue(s: Bytes, max: nat, depth: nat): Parse<Value>
    decreases SatSub(MAX_DEPTH + 2, depth), 0, 0
  {
    if depth > MAX_DEPTH || s == [] then Bad
    else if s[0] == 43 then
      (match ReadLine(s[1..], 4096) case Bad => Bad case Parsed(line, rest) => Parsed(Simple(line), rest))
    else if s[0] == 45 then
      (match ReadLine(s[1..], 8192) case Bad => Bad case Parsed(line, rest) => Parsed(Error(line), rest))
    else if s[0] == 58 then
      (match ReadNumber(s[1..]) case Bad => Bad case Parsed(n, rest) => Parsed(Integer(n), rest))
    else if s[0] == 36 then ReadBulk(s[1..], max)
    else if s[0] == 42 then
      (match ReadNumber(s[1..])
       case Bad => Bad
       case Parsed(n, rest) =>
         if n == -1 then Parsed(NullArray, rest)
         else if n < 0 || n > MAX_ELEMENTS then Bad
         else match ReadMany(rest, max, depth + 1, n)
           case Bad => Bad
           case Parsed(values, after) => Parsed(Array(values), after))
    else Bad
  }

  function ReadMany(s: Bytes, max: nat, depth: nat, count: nat): Parse<seq<Value>>
    decreases SatSub(MAX_DEPTH + 2, depth), 1, count
  {
    if count == 0 then Parsed([], s)
    else match ReadValue(s, max, depth)
      case Bad => Bad
      case Parsed(value, rest) =>
        match ReadMany(rest, max, depth, count - 1)
        case Bad => Bad
        case Parsed(values, after) => Parsed([value] + values, after)
  }

  function Prepend(values: seq<Value>, p: Parse<seq<Value>>): Parse<seq<Value>> {
    match p case Bad => Bad case Parsed(more, rest) => Parsed(values + more, rest)
  }

  // The code's form: arrays are read by a loop.
  method ReadResp(s: Bytes, max: nat, depth: nat) returns (r: Parse<Value>)
    ensures r == ReadValue(s, max, depth)
    decreases SatSub(MAX_DEPTH + 2, depth), 0
  {
    if depth > MAX_DEPTH || s == [] {
      return Bad;
    }
    var kind, after := s[0], s[1..];
    if kind == 43 {
      var line := ReadLine(after, 4096);
      return if line.Bad? then Bad else Parsed(Simple(line.value), line.rest);
    }
    if kind == 45 {
      var line := ReadLine(after, 8192);
      return if line.Bad? then Bad else Parsed(Error(line.value), line.rest);
    }
    if kind != 58 && kind != 36 && kind != 42 {
      return Bad;
    }
    var header := ReadNumber(after);
    if header.Bad? {
      return Bad;
    }
    if kind == 58 {
      return Parsed(Integer(header.value), header.rest);
    }
    if header.value == -1 {
      return Parsed(if kind == 36 then Bulk(None) else NullArray, header.rest);
    }
    if header.value < 0 {
      return Bad;
    }
    if kind == 36 {
      r := TakeBulk(header.rest, header.value, max);
      return;
    }
    if header.value > MAX_ELEMENTS {
      return Bad;
    }
    var values := ReadElements(header.rest, max, depth + 1, header.value);
    return if values.Bad? then Bad else Parsed(Array(values.value), values.rest);
  }

  // The payload of a bulk value: its bytes, then a line end.
  method TakeBulk(s: Bytes, length: nat, max: nat) returns (r: Parse<Value>)
    ensures r == if length > max || |s| < length + 2 || s[length..length + 2] != CRLF then Bad
                 else Parsed(Bulk(Some(s[..length])), s[length + 2..])
  {
    if length > max || |s| < length {
      return Bad;
    }
    var bytes, rest := s[..length], s[length..];
    if |rest| < 2 || rest[..2] != CRLF {
      return Bad;
    }
    assert rest[..2] == s[length..length + 2] && rest[2..] == s[length + 2..];
    return Parsed(Bulk(Some(bytes)), rest[2..]);
  }

  method ReadElements(s: Bytes, max: nat, depth: nat, count: nat) returns (r: Parse<seq<Value>>)
    ensures r == ReadMany(s, max, depth, count)
    decreases SatSub(MAX_DEPTH + 2, depth), 1
  {
    var values: seq<Value>, rest := [], s;
    PrependNone(ReadMany(s, max, depth, count));
    for i := 0 to count
      invariant ReadMany(s, max, depth, count) == Prepend(values, ReadMany(rest, max, depth, count - i))
    {
      var one := ReadResp(rest, max, depth);
      if one.Bad? {
        return Bad;
      }
      PrependOne(values, one.value, ReadMany(one.rest, max, depth, count - i - 1));
      values := values + [one.value];
      rest := one.rest;
    }
    assert values + [] == values;
    return Parsed(values, rest);
  }

  lemma PrependNone(p: Parse<seq<Value>>)
    ensures Prepend([], p) == p
  {
    if p.Parsed? {
      assert [] + p.value == p.value;
    }
  }

  lemma PrependOne(values: seq<Value>, v: Value, p: Parse<seq<Value>>)
    ensures Prepend(values, Prepend([v], p)) == Prepend(values + [v], p)
  {
    if p.Parsed? {
      assert values + ([v] + p.value) == values + [v] + p.value;
    }
  }

  // ----- the printer -----

  function PrintArgument(a: Bytes): Bytes { [36] + (Decimal(|a|) + (CRLF + (a + CRLF))) }

  function PrintArguments(args: seq<Bytes>): Bytes {
    if args == [] then [] else PrintArguments(args[..|args| - 1]) + PrintArgument(args[|args| - 1])
  }

  function PrintCommand(args: seq<Bytes>): Bytes { [42] + (Decimal(|args|) + (CRLF + PrintArguments(args))) }

  method WriteRespCommand(args: seq<Bytes>) returns (r: Result<Bytes>)
    ensures r.Err? <==> args == []
    ensures r.Ok? ==> r.value == PrintCommand(args)
  {
    if args == [] {
      return Err(InvalidInput);
    }
    var stream := [42] + Decimal(|args|) + CRLF;
    ghost var head := stream;
    for i := 0 to |args|
      invariant stream == head + PrintArguments(args[..i])
    {
      ghost var before := stream;
      stream := stream + [36] + Decimal(|args[i]|) + CRLF;
      stream := stream + args[i];
      stream := stream + CRLF;
      Regroup(before, [36], Decimal(|args[i]|), CRLF, args[i], CRLF);
      PrintedSoFar(head, args, i);
    }
    assert args[..|args|] == args;
    Assoc([42] + Decimal(|args|), CRLF, PrintArguments(args));
    Assoc([42], Decimal(|args|), CRLF + PrintArguments(args));
    return Ok(stream);
  }

  lemma PrintedSoFar(head: Bytes, args: seq<Bytes>, i: nat)
    requires i < |args|
    ensures head + PrintArguments(args[..i]) + PrintArgument(args[i]) == head + PrintArguments(args[..i + 1])
  {
    assert args[..i + 1][..i] == args[..i];
    Assoc(head, PrintArguments(args[..i]), PrintArgument(args[i]));
  }

  lemma Regroup(x: Bytes, a: Bytes, b: Bytes, c: Bytes, d: Bytes, e: Bytes)
    ensures x + a + b + c + d + e == x + (a + (b + (c + (d + e))))
  {
    Assoc(x, a, b + (c + (d + e)));
    Assoc(x + a, b, c + (d + e));
    Assoc(x + a + b, c, d + e);
    Assoc(x + a + b + c, d, e);
  }

  // ----- the round trip -----

  lemma AfterKind(kind: byte, number: Bytes, body: Bytes, rest: Bytes)
    ensures var s := [kind] + (number + (CRLF + body)) + rest;
            s[0] == kind && s[1..] == number + (CRLF + (body + rest))
  {
    var s := [kind] + (number + (CRLF + body)) + rest;
    assert s == [kind] + ((number + (CRLF + body)) + rest);
    Assoc(number, CRLF + body, rest);
    Assoc(CRLF, body, rest);
  }

  lemma DigitsAreText(s: Bytes)
    requires AllDigits(s)
    ensures 10 !in s && ValidUtf8(s)
  {
    forall i | 0 <= i < |s| ensures s[i] < 0x80 && s[i] != 10 {
      assert IsDigit(s[i]);
    }
    AsciiIsValid(s);
  }

  lemma NumberIsRead(n: nat, rest: Bytes)
    requires n <= I64_MAX
    ensures ReadNumber(Decimal(n) + (CRLF + rest)) == Parsed(n, rest)
  {
    ParseDecimal(n);
    DecimalIsDigits(n);
    DigitsAreText(Decimal(n));
    LineIsRead(Decimal(n), rest, 64);
  }

  lemma BulkIsRead(a: Bytes, rest: Bytes, max: nat, depth: nat)
    requires |a| <= I64_MAX && depth <= MAX_DEPTH
    ensures ReadValue(PrintArgument(a) + rest, max, depth) == if |a| <= max then Parsed(Bulk(Some(a)), rest) else Bad
  {
    var tail := a + CRLF + rest;
    AfterKind(36, Decimal(|a|), a + CRLF, rest);
    NumberIsRead(|a|, tail);
    assert tail[..|a|] == a && tail[|a|..|a| + 2] == CRLF && tail[|a| + 2..] == rest;
  }

  function Bulks(args: seq<Bytes>): (r: seq<Value>)
    ensures |r| == |args| && forall i :: 0 <= i < |r| ==> r[i] == Bulk(Some(args[i]))
  {
    seq(|args|, i requires 0 <= i < |args| => Bulk(Some(args[i])))
  }

  lemma {:induction false} PrintCons(args: seq<Bytes>)
    requires args != []
    ensures PrintArguments(args) == PrintArgument(args[0]) + PrintArguments(args[1..])
  {
    if |args| == 1 {
      assert args[..0] == [] && args[1..] == [];
    } else {
      var front, last := args[..|args| - 1], args[|args| - 1];
      PrintCons(front);
      assert front[1..] == args[1..][..|args| - 2];
      var x, y, z := PrintArgument(args[0]), PrintArguments(front[1..]), PrintArgument(last);
      assert PrintArguments(args[1..]) == y + z;
      Assoc(x, y, z);
    }
  }

  predicate Fits(args: seq<Bytes>, max: nat) { forall i :: 0 <= i < |args| ==> |args[i]| <= max }

  lemma {:induction false} ArgumentsAreRead(args: seq<Bytes>, rest: Bytes, max: nat, depth: nat)
    requires depth <= MAX_DEPTH && forall i :: 0 <= i < |args| ==> |args[i]| <= I64_MAX
    ensures ReadMany(PrintArguments(args) + rest, max, depth, |args|) ==
            if Fits(args, max) then Parsed(Bulks(args), rest) else Bad
  {
    var s := PrintArguments(args) + rest;
    if args == [] {
      assert s == rest && Bulks(args) == [];
    } else {
      var after := PrintArguments(args[1..]) + rest;
      PrintCons(args);
      assert s == PrintArgument(args[0]) + after;
      BulkIsRead(args[0], after, max, depth);
      ArgumentsAreRead(args[1..], rest, max, depth);
      FitsCons(args, max);
      assert Bulks(args) == [Bulk(Some(args[0]))] + Bulks(args[1..]);
    }
  }

  lemma FitsCons(args: seq<Bytes>, max: nat)
    requires args != []
    ensures Fits(args, max) <==> |args[0]| <= max && Fits(args[1..], max)
  {
    if Fits(args[1..], max) {
      forall i | 1 <= i < |args| ensures |args[i]| <= max {
        assert args[i] == args[1..][i - 1];
      }
    }
  }

  // A printed command reads back as its own arguments and leaves exactly what follows it, if and only if it
  // stays within the element and size limits.
  lemma {:induction false} CommandRoundTrip(args: seq<Bytes>, rest: Bytes, max: nat)
    requires |args| <= MAX_LEN && forall i :: 0 <= i < |args| ==> |args[i]| <= MAX_LEN
    ensures ReadValue(PrintCommand(args) + rest, max, 0) ==
            if |args| <= MAX_ELEMENTS && Fits(args, max) then Parsed(Array(Bulks(args)), rest) else Bad
  {
    ArgumentsAreRead(args, rest, max, 1);
    CommandHeader(args, rest);
    ArrayIsRead(PrintCommand(args) + rest, max, 0, |args|, PrintArguments(args) + rest);
  }

  lemma CommandHeader(args: seq<Bytes>, rest: Bytes)
    requires |args| <= MAX_LEN
    ensures var s := PrintCommand(args) + rest;
            s != [] && s[0] == 42 && ReadNumber(s[1..]) == Parsed(|args|, PrintArguments(args) + rest)
  {
    AfterKind(42, Decimal(|args|), PrintArguments(args), rest);
    NumberIsRead(|args|, PrintArguments(args) + rest);
  }

  lemma ArrayIsRead(s: Bytes, max: nat, depth: nat, n: nat, body: Bytes)
    requires s != [] && s[0] == 42 && ReadNumber(s[1..]) == Parsed(n, body) && depth <= MAX_DEPTH
    ensures ReadValue(s, max, depth) ==
            if n > MAX_ELEMENTS || ReadMany(body, max, depth + 1, n).Bad? then Bad
            else Parsed(Array(ReadMany(body, max, depth + 1, n).value), ReadMany(body, max, depth + 1, n).rest)
  {
  }

  // ----- every reply -----

  function PrintInt(n: int): Bytes { if n < 0 then [45] + Decimal(-n) else Decimal(n) }

  // What a server prints for a value.
  function PrintValue(v: Value): Bytes {
    match v
    case Simple(line) => [43] + (line + (CRLF + []))
    case Error(line) => [45] + (line + (CRLF + []))
    case Integer(n) => [58] + (PrintInt(n) + (CRLF + []))
    case Bulk(None) => [36] + (PrintInt(-1) + (CRLF + []))
    case Bulk(Some(bytes)) => PrintArgument(bytes)
    case NullArray => [42] + (PrintInt(-1) + (CRLF + []))
    case Array(values) => [42] + (Decimal(|values|) + (CRLF + PrintValues(values)))
  }

  function PrintValues(values: seq<Value>): Bytes {
    if values == [] then [] else PrintValue(values[0]) + PrintValues(values[1..])
  }

  predicate TextWithin(line: Bytes, max: nat) { 10 !in line && ValidUtf8(line) && |line| + 2 <= max }

  // The limits of the reader: nesting, line lengths, integer width, bulk size and element count.
  predicate Readable(v: Value, max: nat, depth: nat) {
    && depth <= MAX_DEPTH
    && match v
       case Simple(line) => TextWithin(line, 4096)
       case Error(line) => TextWithin(line, 8192)
       case Integer(n) => 0 - I64_MAX - 1 <= n <= I64_MAX
       case Bulk(None) => true
       case Bulk(Some(bytes)) => |bytes| <= max && |bytes| <= MAX_LEN
       case NullArray => true
       case Array(values) => |values| <= MAX_ELEMENTS && AllReadable(values, max, depth + 1)
  }

  predicate AllReadable(values: seq<Value>, max: nat, depth: nat) {
    values == [] || (Readable(values[0], max, depth) && AllReadable(values[1..], max, depth))
  }

  lemma IntIsRead(n: int, rest: Bytes)
    requires 0 - I64_MAX - 1 <= n <= I64_MAX
    ensures ReadNumber(PrintInt(n) + (CRLF + rest)) == Parsed(n, rest)
  {
    if n >= 0 {
      NumberIsRead(n, rest);
    } else {
      var digits := Decimal(-n);
      DecimalIsDigits(-n);
      NegativeLength(-n);
      DigitsAreText(digits);
      var line := PrintInt(n);
      assert line[1..] == digits;
      forall i | 0 <= i < |line| ensures line[i] < 0x80 && line[i] != 10 {
        assert i > 0 ==> line[i] == digits[i - 1] && digits[i - 1] in digits && IsDigit(digits[i - 1]);
      }
      AsciiIsValid(line);
      LineIsRead(line, rest, 64);
    }
  }

  lemma NegativeLength(n: nat)
    requires n <= I64_MAX + 1
    ensures |Decimal(n)| <= 20
  {
    if n >= 10 {
      ParseDecimal(n / 10);
    }
  }

  lemma LineValueIsRead(kind: byte, line: Bytes, rest: Bytes, max: nat)
    requires TextWithin(line, max)
    ensures var s := [kind] + (line + (CRLF + [])) + rest;
            s != [] && s[0] == kind && ReadLine(s[1..], max) == Parsed(line, rest)
  {
    AfterKind(kind, line, [], rest);
    assert [] + rest == rest;
    LineIsRead(line, rest, max);
  }

  lemma HeaderIsRead(kind: byte, n: int, body: Bytes, rest: Bytes)
    requires 0 - I64_MAX - 1 <= n <= I64_MAX
    ensures var s := [kind] + (PrintInt(n) + (CRLF + body)) + rest;
            s != [] && s[0] == kind && ReadNumber(s[1..]) == Parsed(n, body + rest)
  {
    AfterKind(kind, PrintInt(n), body, rest);
    IntIsRead(n, body + rest);
  }

  // Every reply within the reader's limits, however nested, is read back as itself, and what follows it is left
  // alone.
  lemma {:induction false} ValueRoundTrip(v: Value, rest: Bytes, max: nat, depth: nat)
    requires Readable(v, max, depth)
    ensures ReadValue(PrintValue(v) + rest, max, depth) == Parsed(v, rest)
    decreases v, 0
  {
    if v.Simple? || v.Error? {
      TextRoundTrip(v, rest, max, depth);
    } else if v.Bulk? && v.bytes.Some? {
      BulkIsRead(v.bytes.value, rest, max, depth);
    } else if v.Array? {
      ValuesRoundTrip(v.values, rest, max, depth + 1);
      ArrayRoundTrip(v, rest, max, depth);
    } else {
      NumberRoundTrip(v, rest, max, depth);
    }
  }

  lemma {:induction false} TextRoundTrip(v: Value, rest: Bytes, max: nat, depth: nat)
    requires Readable(v, max, depth) && (v.Simple? || v.Error?)
    ensures ReadValue(PrintValue(v) + rest, max, depth) == Parsed(v, rest)
  {
    if v.Simple? {
      LineValueIsRead(43, v.line, rest, 4096);
    } else {
      LineValueIsRead(45, v.line, rest, 8192);
    }
  }

  lemma {:induction false} ArrayRoundTrip(v: Value, rest: Bytes, max: nat, depth: nat)
    requires v.Array? && |v.values| <= MAX_ELEMENTS && depth <= MAX_DEPTH
    requires ReadMany(PrintValues(v.values) + rest, max, depth + 1, |v.values|) == Parsed(v.values, rest)
    ensures ReadValue(PrintValue(v) + rest, max, depth) == Parsed(v, rest)
  {
    HeaderIsRead(42, |v.values|, PrintValues(v.values), rest);
    ArrayIsRead(PrintValue(v) + rest, max, depth, |v.values|, PrintValues(v.values) + rest);
  }

  // The values that are a number and nothing else.
  lemma {:induction false} NumberRoundTrip(v: Value, rest: Bytes, max: nat, depth: nat)
    requires Readable(v, max, depth) && (v.Integer? || v == Bulk(None) || v.NullArray?)
    ensures ReadValue(PrintValue(v) + rest, max, depth) == Parsed(v, rest)
  {
    HeaderIsRead(if v.Integer? then 58 else if v.Bulk? then 36 else 42, if v.Integer? then v.n else -1, [], rest);
    assert [] + rest == rest;
  }

  lemma {:induction false} ValuesRoundTrip(values: seq<Value>, rest: Bytes, max: nat, depth: nat)
    requires AllReadable(values, max, depth)
    ensures ReadMany(PrintValues(values) + rest, max, depth, |values|) == Parsed(values, rest)
    decreases values, 1
  {
    if values == [] {
      assert PrintValues(values) + rest == rest;
    } else {
      var first, after := PrintValue(values[0]), PrintValues(values[1..]) + rest;
      Assoc(first, PrintValues(values[1..]), rest);
      ValueRoundTrip(values[0], after, max, depth);
      ValuesRoundTrip(values[1..], rest, max, depth);
      assert [values[0]] + values[1..] == values;
    }
  }

  // ----- exactly what the reader accepts -----

  function SignedLine(sign: Option<byte>, digits: Bytes): Bytes {
    if sign.Some? then [sign.value] + digits else digits
  }

  ghost predicate SignOrNone(sign: Option<byte>) { sign in {None, Some(43), Some(45)} }

  lemma SignedLineParses(sign: Option<byte>, digits: Bytes)
    requires SignOrNone(sign) && digits != [] && AllDigits(digits)
    ensures var n: int := if sign == Some(45) then 0 - DigitsValue(digits) else DigitsValue(digits);
      ParseI64(SignedLine(sign, digits)) ==
        if -0x8000_0000_0000_0000 <= n <= 0x7FFF_FFFF_FFFF_FFFF then Some(n) else None
  {
    var line := SignedLine(sign, digits);
    assert IsDigit(digits[0]);
    assert sign.Some? ==> line[0] == sign.value && line[1..] == digits;
  }

  lemma SignedLineIsText(sign: Option<byte>, digits: Bytes)
    requires SignOrNone(sign) && AllDigits(digits)
    ensures 10 !in SignedLine(sign, digits) && ValidUtf8(SignedLine(sign, digits))
  {
    var line := SignedLine(sign, digits);
    forall i | 0 <= i < |line| ensures line[i] < 0x80 && line[i] != 10 {
      var d := if sign.Some? then i - 1 else i;
      if d >= 0 {
        assert line[i] == digits[d] && IsDigit(digits[d]);
      }
    }
    AsciiIsValid(line);
  }

  // A line that is a number, with or without a sign, is read exactly if it is within 64 bytes and 64 bits.
  lemma NumberLineIsRead(sign: Option<byte>, digits: Bytes, rest: Bytes)
    requires SignOrNone(sign) && digits != [] && AllDigits(digits)
    ensures var n: int := if sign == Some(45) then 0 - DigitsValue(digits) else DigitsValue(digits);
      ReadNumber(SignedLine(sign, digits) + (CRLF + rest)) ==
        if |SignedLine(sign, digits)| <= 62 && -0x8000_0000_0000_0000 <= n <= 0x7FFF_FFFF_FFFF_FFFF
        then Parsed(n, rest) else Bad
  {
    SignedLineParses(sign, digits);
    SignedLineIsText(sign, digits);
    LineIsRead(SignedLine(sign, digits), rest, 64);
  }

  lemma {:induction false} NewlineIsFirst(s: Bytes)
    ensures forall i :: 0 <= i < UntilNewline(s) - 1 ==> s[i] != 10
  {
    if s != [] && s[0] != 10 {
      NewlineIsFirst(s[1..]);
    }
  }

  // A line that is read is text within the limit.
  lemma LineReadIsText(s: Bytes, max: nat)
    requires ReadLine(s, max).Parsed?
    ensures TextWithin(ReadLine(s, max).value, max)
  {
    NewlineIsFirst(s);
  }

  // Whatever the stream holds, a value that is read is within the reader's limits.
  lemma {:induction false} ReadIsReadable(s: Bytes, max: nat, depth: nat)
    requires ReadValue(s, max, depth).Parsed? && |s| <= MAX_LEN
    ensures Readable(ReadValue(s, max, depth).value, max, depth)
    decreases SatSub(MAX_DEPTH + 2, depth), 0, 1
  {
    if s[0] == 42 {
      ArrayReadIsReadable(s, max, depth);
    } else {
      LeafReadIsReadable(s, max, depth);
    }
  }

  lemma {:induction false} LeafReadIsReadable(s: Bytes, max: nat, depth: nat)
    requires ReadValue(s, max, depth).Parsed? && |s| <= MAX_LEN && s[0] != 42
    ensures Readable(ReadValue(s, max, depth).value, max, depth)
  {
    if s[0] == 43 {
      LineReadIsText(s[1..], 4096);
    } else if s[0] == 45 {
      LineReadIsText(s[1..], 8192);
    } else if s[0] == 36 {
      NumberConsumes(s[1..]);
    }
  }

  lemma {:induction false} ArrayReadIsReadable(s: Bytes, max: nat, depth: nat)
    requires ReadValue(s, max, depth).Parsed? && |s| <= MAX_LEN && s[0] == 42
    ensures Readable(ReadValue(s, max, depth).value, max, depth)
    decreases SatSub(MAX_DEPTH + 2, depth), 0, 0
  {
    var header := ReadNumber(s[1..]);
    if header.value != -1 {
      NumberConsumes(s[1..]);
      ArrayIsRead(s, max, depth, header.value, header.rest);
      ManyAreReadable(header.rest, max, depth + 1, header.value);
    }
  }

  lemma {:induction false} ManyAreReadable(s: Bytes, max: nat, depth: nat, count: nat)
    requires ReadMany(s, max, depth, count).Parsed? && |s| <= MAX_LEN
    ensures AllReadable(ReadMany(s, max, depth, count).value, max, depth)
    ensures |ReadMany(s, max, depth, count).value| == count
    decreases SatSub(MAX_DEPTH + 2, depth), 1, count
  {
    if count > 0 {
      ReadIsReadable(s, max, depth);
      ReadConsumes(s, max, depth);
      var one := ReadValue(s, max, depth);
      ManyAreReadable(one.rest, max, depth, count - 1);
      var values := ReadMany(s, max, depth, count).value;
      assert values[1..] == ReadMany(one.rest, max, depth, count - 1).value;
    }
  }

  // So a reply is read back as itself exactly if it is within those limits.
  lemma {:induction false} ReadsBackIff(v: Value, rest: Bytes, max: nat, depth: nat)
    requires |PrintValue(v) + rest| <= MAX_LEN
    ensures ReadValue(PrintValue(v) + rest, max, depth) == Parsed(v, rest) <==> Readable(v, max, depth)
  {
    if Readable(v, max, depth) {
      ValueRoundTrip(v, rest, max, depth);
    } else if ReadValue(PrintValue(v) + rest, max, depth) == Parsed(v, rest) {
      ReadIsReadable(PrintValue(v) + rest, max, depth);
    }
  }

  // ----- what the reader consumes -----

  predicate IsTail(rest: Bytes, s: Bytes) { |rest| <= |s| && rest == s[|s| - |rest|..] }

  lemma TailOfTail(a: Bytes, b: Bytes, c: Bytes)
    requires IsTail(a, b) && IsTail(b, c)
    ensures IsTail(a, c)
  {
  }

  lemma NumberConsumes(s: Bytes)
    requires ReadNumber(s).Parsed?
    ensures IsTail(ReadNumber(s).rest, s)
  {
  }

  lemma BulkConsumes(s: Bytes, max: nat)
    requires ReadBulk(s, max).Parsed?
    ensures IsTail(ReadBulk(s, max).rest, s)
  {
    NumberConsumes(s);
    TailOfTail(ReadBulk(s, max).rest, ReadNumber(s).rest, s);
  }

  // Whatever the stream holds, a value that is read leaves a proper tail of it.
  lemma {:induction false} ReadConsumes(s: Bytes, max: nat, depth: nat)
    requires ReadValue(s, max, depth).Parsed?
    ensures IsTail(ReadValue(s, max, depth).rest, s) && |ReadValue(s, max, depth).rest| < |s|
    decreases SatSub(MAX_DEPTH + 2, depth), 0, 0
  {
    var after := s[1..];
    if s[0] == 36 {
      BulkConsumes(after, max);
    } else if s[0] == 58 || s[0] == 42 {
      NumberConsumes(after);
      var header := ReadNumber(after);
      if s[0] == 42 && header.value != -1 {
        ManyConsume(header.rest, max, depth + 1, header.value);
        TailOfTail(ReadValue(s, max, depth).rest, header.rest, after);
      }
    }
    TailOfTail(ReadValue(s, max, depth).rest, after, s);
  }

  lemma {:induction false} ManyConsume(s: Bytes, max: nat, depth: nat, count: nat)
    requires ReadMany(s, max, depth, count).Parsed?
    ensures IsTail(ReadMany(s, max, depth, count).rest, s)
    decreases SatSub(MAX_DEPTH + 2, depth), 1, count
  {
    if count > 0 {
      ReadConsumes(s, max, depth);
      var rest := ReadValue(s, max, depth).rest;
      ManyConsume(rest, max, depth, count - 1);
      TailOfTail(ReadMany(s, max, depth, count).rest, rest, s);
    }
  }
}
