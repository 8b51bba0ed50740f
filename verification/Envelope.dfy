/** The versioned envelope around a tier entry (src/kv.rs, and with a size limit in src/connectors.rs). */
module Envelope {
  import opened Prelude
  import opened LittleEndian
  import opened BlockKeys
  import opened Engine

  // "RKV01\n"
  const MAGIC: Bytes := [82, 75, 86, 48, 49, 10]
  const HEADER: nat := 23

  function EncodeEntry(e: Entry): Result<Bytes> {
    if e.bytes == [] then Err(InvalidInput)
    else Ok(MAGIC + (LE(e.expiresAt, 8) + ([if e.pinned then 1 else 0] + (LE(|e.bytes|, 8) + e.bytes))))
  }

  function ReadU64(s: Bytes, cursor: nat): Result<nat> {
    var end := SatAdd(cursor, 8);
    if cursor <= end <= |s| then Ok(FromLE(s[cursor..end])) else Err(Eof)
  }

  function DecodeEntry(key: BlockKey, s: Bytes): Result<Entry>
    requires |s| <= MAX_LEN
  {
    if |s| < HEADER || s[..6] != MAGIC then Err(InvalidData) else
    var expires := ReadU64(s, 6);
    if expires.Err? then Err(expires.error) else
    if s[14] != 0 && s[14] != 1 then Err(InvalidData) else
    var len := ReadU64(s, 15);
    if len.Err? then Err(len.error) else
    if SatSub(|s|, HEADER) != len.value || len.value == 0 then Err(InvalidData) else
    Widths();
    Ok(Entry(key, s[HEADER..], expires.value, s[14] == 1))
  }

  function DecodeBounded(key: BlockKey, s: Bytes, maxBytes: nat): Result<Entry>
    requires |s| <= MAX_LEN
  {
    if |s| > maxBytes || |s| < HEADER then Err(InvalidData) else DecodeEntry(key, s)
  }

  lemma Layout(s: Bytes, expires: Bytes, pin: byte, len: Bytes, payload: Bytes)
    requires |expires| == 8 && |len| == 8
    requires s == MAGIC + (expires + ([pin] + (len + payload)))
    ensures |s| == HEADER + |payload| && s[..6] == MAGIC && s[6..14] == expires
    ensures s[14] == pin && s[15..HEADER] == len && s[HEADER..] == payload
  {
  }

  // Decoding inverts encoding ...
  lemma DecodeInvertsEncode(e: Entry)
    requires 0 < |e.bytes| <= MAX_LEN - HEADER
    ensures EncodeEntry(e).Ok? && |EncodeEntry(e).value| == HEADER + |e.bytes|
    ensures DecodeEntry(e.key, EncodeEntry(e).value) == Ok(e)
  {
    Widths();
    LERoundTrip(e.expiresAt, 8);
    LERoundTrip(|e.bytes|, 8);
    Layout(EncodeEntry(e).value, LE(e.expiresAt, 8), if e.pinned then 1 else 0, LE(|e.bytes|, 8), e.bytes);
  }

  // ... and accepts nothing that encoding does not produce, so envelopes and entries correspond one to one.
  lemma EncodeInvertsDecode(key: BlockKey, s: Bytes)
    requires |s| <= MAX_LEN && DecodeEntry(key, s).Ok?
    ensures DecodeEntry(key, s).value.key == key && EncodeEntry(DecodeEntry(key, s).value) == Ok(s)
  {
    FromLERoundTrip(s[6..14]);
    FromLERoundTrip(s[15..HEADER]);
    Reassembled(s);
  }

  lemma Reassembled(s: Bytes)
    requires |s| >= HEADER
    ensures s == s[..6] + (s[6..14] + ([s[14]] + (s[15..HEADER] + s[HEADER..])))
  {
    CutAt(s, 15, HEADER);
    CutAt(s, 14, 15);
    CutAt(s, 6, 14);
    CutAt(s, 0, 6);
    assert s[0..] == s && s[0..6] == s[..6] && s[14..15] == [s[14]];
  }

  // The connector's decoder accepts exactly the envelopes within its limit.
  lemma BoundedAcceptsIff(key: BlockKey, s: Bytes, maxBytes: nat)
    requires |s| <= MAX_LEN
    ensures DecodeBounded(key, s, maxBytes).Ok? <==>
            |s| <= maxBytes && exists e: Entry :: e.key == key && EncodeEntry(e) == Ok(s)
    ensures DecodeBounded(key, s, maxBytes).Ok? ==> DecodeBounded(key, s, maxBytes) == DecodeEntry(key, s)
    ensures DecodeBounded(key, s, maxBytes).Err? ==> DecodeBounded(key, s, maxBytes).error == InvalidData
  {
    if DecodeEntry(key, s).Ok? {
      EncodeInvertsDecode(key, s);
    }
    forall e: Entry | e.key == key && EncodeEntry(e) == Ok(s) ensures DecodeEntry(key, s) == Ok(e) {
      Layout(s, LE(e.expiresAt, 8), if e.pinned then 1 else 0, LE(|e.bytes|, 8), e.bytes);
      DecodeInvertsEncode(e);
    }
  }
}
