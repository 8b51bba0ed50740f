/** The codec frame and the codec tier (src/codec.rs). */
module Frame {
  import opened Prelude
  import opened LittleEndian
  import opened BlockKeys
  import opened Engine
  import opened Utf8
  import Rle

  datatype Codec = Codec(name: Bytes, encode: Bytes -> Result<Bytes>, decode: (Bytes, nat, nat) -> Result<Bytes>)

  type Registry = map<Bytes, Codec>

  // "RKC01\n"
  const FRAME_MAGIC: Bytes := [82, 75, 67, 48, 49, 10]

  predicate NameByte(b: byte) {
    48 <= b <= 57 || 65 <= b <= 90 || 97 <= b <= 122 || b == 45 || b == 95 || b == 46
  }

  // Letters, digits, hyphen, underscore and dot.
  lemma NameCharacters(b: byte)
    ensures NameByte(b) <==>
      var c := b as char;
      '0' <= c <= '9' || 'A' <= c <= 'Z' || 'a' <= c <= 'z' || c in {'-', '_', '.'}
  {
  }

  predicate ValidName(name: Bytes) {
    0 < |name| <= 128 && forall i :: 0 <= i < |name| ==> NameByte(name[i])
  }

  function Body(name: Bytes, len: nat, digest: Bytes, payload: Bytes): Bytes {
    FRAME_MAGIC + (LE(|name|, 2) + (name + (LE(len, 8) + (digest + payload))))
  }

  function EncodeFrame(sha: Digest, codec: Codec, input: Bytes): Result<Bytes> {
    if input == [] || !ValidName(codec.name) then Err(InvalidInput) else
    var encoded := codec.encode(input);
    if encoded.Err? then encoded
    else Ok(Body(codec.name, |input|, sha(input), encoded.value))
  }

  function DecodeFrame(sha: Digest, registry: Registry, frame: Bytes, maxDecoded: nat): Result<Bytes>
    requires |frame| <= MAX_LEN
  {
    if |frame| < 48 || frame[..6] != FRAME_MAGIC then Err(InvalidData) else
    var nameLen := FromLE(frame[6..8]);
    if nameLen == 0 || SatSub(|frame|, 8) < nameLen + 40 then Err(InvalidData) else
    var name := frame[8..8 + nameLen];
    if !ValidUtf8(name) then Err(InvalidData) else
    var cursor := 8 + nameLen;
    var expectedLen := FromLE(frame[cursor..cursor + 8]);
    if expectedLen == 0 || expectedLen > maxDecoded || SatSub(|frame|, cursor + 8) < 32 then Err(InvalidData) else
    var digest := frame[cursor + 8..cursor + 40];
    if name !in registry then Err(Unsupported) else
    var decoded := registry[name].decode(frame[cursor + 40..], expectedLen, maxDecoded);
    if decoded.Err? then decoded
    else if sha(decoded.value) != digest then Err(InvalidData)
    else decoded
  }

  lemma NameIsUtf8(name: Bytes)
    requires ValidName(name)
    ensures ValidUtf8(name)
  {
    AsciiIsValid(name);
  }

  lemma BodyLayout(frame: Bytes, name: Bytes, len: nat, digest: Bytes, payload: Bytes)
    requires frame == Body(name, len, digest, payload) && |digest| == 32
    ensures |frame| == 48 + |name| + |payload| && frame[..6] == FRAME_MAGIC && frame[6..8] == LE(|name|, 2)
    ensures var c := 8 + |name|;
            && frame[8..c] == name && frame[c..c + 8] == LE(len, 8)
            && frame[c + 8..c + 40] == digest && frame[c + 40..] == payload
  {
    var c := 8 + |name|;
    var a := LE(len, 8) + (digest + payload);
    assert frame[8..] == name + a;
    assert frame[8..c] == frame[8..][..|name|] == name;
    assert frame[c..] == frame[8..][|name|..] == a;
    assert frame[c..c + 8] == frame[c..][..8] == LE(len, 8);
    assert frame[c + 8..c + 40] == frame[c..][8..40] == digest;
    assert frame[c + 40..] == frame[c..][40..] == payload;
  }

  // A frame is made of every non-empty input that the codec encodes, if the codec has a proper name: 1 to 128 of its
  // characters.
  lemma EncodesIff(sha: Digest, codec: Codec, input: Bytes)
    ensures EncodeFrame(sha, codec, input).Ok? <==>
      && input != [] && codec.encode(input).Ok? && 1 <= |codec.name| <= 128
      && forall i :: 0 <= i < |codec.name| ==> NameByte(codec.name[i])
    ensures input == [] ==> EncodeFrame(sha, codec, input) == Err(InvalidInput)
  {
  }

  // The codec recovers this input within the limit.
  predicate RoundTrips(codec: Codec, input: Bytes, maxDecoded: nat) {
    codec.encode(input).Ok? && codec.decode(codec.encode(input).value, |input|, maxDecoded) == Ok(input)
  }

  lemma FrameRoundTrip(sha: Digest, registry: Registry, codec: Codec, input: Bytes, maxDecoded: nat)
    requires ValidName(codec.name) && codec.name in registry && registry[codec.name] == codec
    requires |sha(input)| == 32 && 0 < |input| <= U64_MAX && |input| <= maxDecoded
    requires RoundTrips(codec, input, maxDecoded) && |codec.encode(input).value| <= MAX_LEN - 176
    ensures EncodeFrame(sha, codec, input).Ok? && |EncodeFrame(sha, codec, input).value| <= MAX_LEN
    ensures DecodeFrame(sha, registry, EncodeFrame(sha, codec, input).value, maxDecoded) == Ok(input)
  {
    var frame := EncodeFrame(sha, codec, input).value;
    BodyLayout(frame, codec.name, |input|, sha(input), codec.encode(input).value);
    NameIsUtf8(codec.name);
    Widths();
    LERoundTrip(|codec.name|, 2);
    LERoundTrip(|input|, 8);
  }

  // A frame for that payload of that codec, with a header that the decoder accepts.
  predicate Framed(frame: Bytes, name: Bytes, len: nat, digest: Bytes, payload: Bytes, maxDecoded: nat) {
    && frame == Body(name, len, digest, payload) && |digest| == 32
    && 0 < |name| < 0x10000 && ValidUtf8(name) && 0 < len <= maxDecoded && len <= U64_MAX
  }

  // The frame is well formed, and the codec it names makes x of its payload, whose digest is the frame's.
  ghost predicate Carries(sha: Digest, registry: Registry, frame: Bytes, maxDecoded: nat, x: Bytes) {
    exists name, len: nat, payload ::
      && Framed(frame, name, len, sha(x), payload, maxDecoded)
      && name in registry && registry[name].decode(payload, len, maxDecoded) == Ok(x)
  }

  lemma FramedParts(frame: Bytes, name: Bytes, len: nat, digest: Bytes, payload: Bytes, maxDecoded: nat)
    requires Framed(frame, name, len, digest, payload, maxDecoded)
    ensures |frame| == 48 + |name| + |payload| && frame[..6] == FRAME_MAGIC && FromLE(frame[6..8]) == |name|
    ensures var c := 8 + |name|;
            && frame[8..c] == name && FromLE(frame[c..c + 8]) == len
            && frame[c + 8..c + 40] == digest && frame[c + 40..] == payload
  {
    BodyLayout(frame, name, len, digest, payload);
    Widths();
    LERoundTrip(|name|, 2);
    LERoundTrip(len, 8);
  }

  lemma FramedIsRead(sha: Digest, registry: Registry, frame: Bytes, maxDecoded: nat, name: Bytes, len: nat,
                     digest: Bytes, payload: Bytes)
    requires |frame| <= MAX_LEN && Framed(frame, name, len, digest, payload, maxDecoded)
    ensures DecodeFrame(sha, registry, frame, maxDecoded) ==
      if name !in registry then Err(Unsupported) else
      var decoded := registry[name].decode(payload, len, maxDecoded);
      if decoded.Ok? && sha(decoded.value) != digest then Err(InvalidData) else decoded
  {
    FramedParts(frame, name, len, digest, payload, maxDecoded);
  }

  // What decode_frame returns, it returns for exactly these frames: those that the named codec decodes to it within the
  // limit and whose checksum it matches.
  lemma DecodesIff(sha: Digest, registry: Registry, frame: Bytes, maxDecoded: nat, x: Bytes)
    requires |frame| <= MAX_LEN && |sha(x)| == 32
    ensures DecodeFrame(sha, registry, frame, maxDecoded) == Ok(x) <==> Carries(sha, registry, frame, maxDecoded, x)
  {
    if DecodeFrame(sha, registry, frame, maxDecoded) == Ok(x) {
      var c := 8 + FromLE(frame[6..8]);
      Reassembled(frame, c);
      Widths();
      assert Framed(frame, frame[8..c], FromLE(frame[c..c + 8]), sha(x), frame[c + 40..], maxDecoded);
    } else if Carries(sha, registry, frame, maxDecoded, x) {
      var name, len: nat, payload :|
        && Framed(frame, name, len, sha(x), payload, maxDecoded)
        && name in registry && registry[name].decode(payload, len, maxDecoded) == Ok(x);
      FramedIsRead(sha, registry, frame, maxDecoded, name, len, sha(x), payload);
    }
  }

  lemma Reassembled(frame: Bytes, c: nat)
    requires 8 <= c && c + 40 <= |frame| && frame[..6] == FRAME_MAGIC && c == 8 + FromLE(frame[6..8])
    ensures frame == Body(frame[8..c], FromLE(frame[c..c + 8]), frame[c + 8..c + 40], frame[c + 40..])
  {
    FromLERoundTrip(frame[6..8]);
    FromLERoundTrip(frame[c..c + 8]);
    CutAt(frame, c + 8, c + 40);
    CutAt(frame, c, c + 8);
    CutAt(frame, 8, c);
    CutAt(frame, 6, 8);
    CutAt(frame, 0, 6);
    assert frame[0..] == frame && frame[0..6] == frame[..6];
  }

  // ----- the built-in codecs -----

  function Ascii(text: string): Bytes
    requires forall i :: 0 <= i < |text| ==> text[i] < 128 as char
  {
    seq(|text|, i requires 0 <= i < |text| => text[i] as int)
  }

  // The identity codec gives back exactly what was declared, and nothing beyond the limit.
  lemma IdentityDecodesIff(s: Bytes, len: nat, maxDecoded: nat, x: Bytes)
    ensures IdentityCodec().decode(s, len, maxDecoded) == Ok(x) <==> x == s && |s| == len <= maxDecoded
  {
  }

  // "rle-v1"
  function RleCodec(): Codec {
    Codec([114, 108, 101, 45, 118, 49], (s: Bytes) => Ok(Rle.Encode(s)),
          (s: Bytes, n: nat, m: nat) => Rle.Decode(s, n, m))
  }

  // "identity"
  function IdentityCodec(): Codec {
    Codec([105, 100, 101, 110, 116, 105, 116, 121], (s: Bytes) => Ok(s),
          (s: Bytes, n: nat, m: nat) => if n > m || |s| != n then Err(InvalidData) else Ok(s))
  }

  lemma BuiltinsRoundTrip(input: Bytes, maxDecoded: nat)
    requires |input| <= maxDecoded
    ensures RoundTrips(RleCodec(), input, maxDecoded) && RoundTrips(IdentityCodec(), input, maxDecoded)
    ensures ValidName(RleCodec().name) && ValidName(IdentityCodec().name)
    ensures RleCodec().name == Ascii("rle-v1") && IdentityCodec().name == Ascii("identity")
  {
    Rle.DecodeInvertsEncode(input, maxDecoded);
  }

  // ----- the codec tier -----

  function StoredForm(sha: Digest, codec: Codec, e: Entry): Result<Entry> {
    var framed := EncodeFrame(sha, codec, e.bytes);
    if framed.Err? then Err(framed.error)
    else if framed.value == [] then Err(InvalidInput)
    else Ok(e.(bytes := framed.value))
  }

  function LoadedForm(sha: Digest, registry: Registry, maxDecoded: nat, stored: Entry): Result<Entry>
    requires |stored.bytes| <= MAX_LEN
  {
    var decoded := DecodeFrame(sha, registry, stored.bytes, maxDecoded);
    if decoded.Err? then Err(decoded.error)
    else if decoded.value == [] then Err(InvalidInput)
    else Ok(stored.(bytes := decoded.value))
  }

  // The tier gives out exactly what the frame decodes to, with expiry and pin as stored, and never an empty block.
  lemma LoadsIff(sha: Digest, registry: Registry, maxDecoded: nat, stored: Entry, e: Entry)
    requires |stored.bytes| <= MAX_LEN
    ensures LoadedForm(sha, registry, maxDecoded, stored) == Ok(e) <==>
      && DecodeFrame(sha, registry, stored.bytes, maxDecoded) == Ok(e.bytes) && e.bytes != []
      && e.key == stored.key && e.expiresAt == stored.expiresAt && e.pinned == stored.pinned
  {
  }

  // What is put through the tier with a round-tripping codec is what get returns, expiry and pin included.
  lemma TierRoundTrip(sha: Digest, registry: Registry, codec: Codec, maxDecoded: nat, e: Entry)
    requires ValidName(codec.name) && codec.name in registry && registry[codec.name] == codec
    requires |sha(e.bytes)| == 32 && 0 < |e.bytes| <= U64_MAX && |e.bytes| <= maxDecoded
    requires RoundTrips(codec, e.bytes, maxDecoded) && |codec.encode(e.bytes).value| <= MAX_LEN - 176
    ensures StoredForm(sha, codec, e).Ok? && |StoredForm(sha, codec, e).value.bytes| <= MAX_LEN
    ensures LoadedForm(sha, registry, maxDecoded, StoredForm(sha, codec, e).value) == Ok(e)
  {
    FrameRoundTrip(sha, registry, codec, e.bytes, maxDecoded);
  }
}
