/**
 KV block identity (src/kv.rs): how a token sequence is cut into blocks, and what exactly is hashed
 into a block's name.  SHA-256 is a parameter; nothing is assumed about it except, where a lemma says
 so, that it tells two particular byte strings apart.
 */
module BlockKeys {
  import opened Prelude
  import opened LittleEndian

  type Digest = Bytes -> Bytes
  type Token = u32

  datatype BlockKey = BlockKey(
    model: Bytes, sequenceHash: Bytes, blockIndex: u32, tokenStart: u32, tokenCount: u32,
    layerStart: u32, layerCount: u32, layoutVersion: u32)
  {
    function End(): nat { tokenStart + tokenCount }
  }

  datatype CaptureRequest = CaptureRequest(
    model: Bytes, tokens: seq<Token>, blockTokens: usize, layerStart: u32, layerCount: u32, layoutVersion: u32)
  {
    // The inputs that block_keys accepts.
    predicate Accepted() {
      blockTokens > 0 && layerCount > 0 && |tokens| <= U32_MAX
    }
  }

  // "RIVET_KV_V1\0"
  const KV_KEY_DOMAIN: Bytes := [82, 73, 86, 69, 84, 95, 75, 86, 95, 86, 49, 0]

  function TokenBytes(tokens: seq<Token>): (s: Bytes)
    ensures |s| == 4 * |tokens|
  {
    if tokens == [] then [] else TokenBytes(tokens[..|tokens| - 1]) + LE(tokens[|tokens| - 1], 4)
  }

  function PrefixEncoding(prefix: seq<Token>): Bytes {
    KV_KEY_DOMAIN + LE(|prefix|, 8) + TokenBytes(prefix)
  }

  function LengthPrefixed(s: Bytes): Bytes { LE(|s|, 8) + s }

  function RangeEncoding(k: BlockKey): (s: Bytes)
    ensures |s| == 24
  {
    LE(k.blockIndex, 4) + LE(k.tokenStart, 4) + LE(k.tokenCount, 4)
    + LE(k.layerStart, 4) + LE(k.layerCount, 4) + LE(k.layoutVersion, 4)
  }

  function CacheKeyEncoding(k: BlockKey): Bytes {
    KV_KEY_DOMAIN + (LengthPrefixed(k.model) + (k.sequenceHash + RangeEncoding(k)))
  }

  // ----- where the blocks lie -----

  function BlockCount(n: nat, b: nat): nat
    requires b > 0
  {
    if n % b == 0 then n / b else n / b + 1
  }

  function BlockStart(i: nat, b: nat): nat { i * b }

  function BlockEnd(n: nat, i: nat, b: nat): nat { Min(i * b + b, n) }

  lemma BlockCountBound(n: nat, i: nat, b: nat)
    requires b > 0
    ensures i < BlockCount(n, b) <==> BlockStart(i, b) < n
    ensures BlockStart(i + 1, b) == BlockStart(i, b) + b
  {
    var q, r := n / b, n % b;
    assert n == q * b + r;
    MulSucc(i, b);
    if i < q {
      MulMono(i + 1, q, b);
    } else if i > q {
      MulSucc(q, b);
      MulMono(q + 1, i, b);
    }
  }

  function KeyAt(sha: Digest, request: CaptureRequest, i: nat): BlockKey
    requires request.Accepted() && i < BlockCount(|request.tokens|, request.blockTokens)
  {
    BlockCountBound(|request.tokens|, i, request.blockTokens);
    var n := |request.tokens|;
    var start, end := BlockStart(i, request.blockTokens), BlockEnd(n, i, request.blockTokens);
    BlockIndexFits(n, i, request.blockTokens);
    BlockKey(request.model, sha(PrefixEncoding(request.tokens[..end])),
             i, start, end - start, request.layerStart, request.layerCount, request.layoutVersion)
  }

  lemma BlockIndexFits(n: nat, i: nat, b: nat)
    requires b > 0 && i * b < n
    ensures i < n
  {
    assert i <= i * b;
  }

  ghost function KeysUpTo(sha: Digest, request: CaptureRequest, m: nat): (keys: seq<BlockKey>)
    requires request.Accepted() && m <= BlockCount(|request.tokens|, request.blockTokens)
    ensures |keys| == m
  {
    if m == 0 then [] else KeysUpTo(sha, request, m - 1) + [KeyAt(sha, request, m - 1)]
  }

  ghost function KeysOf(sha: Digest, request: CaptureRequest): seq<BlockKey>
    requires request.Accepted()
  {
    KeysUpTo(sha, request, BlockCount(|request.tokens|, request.blockTokens))
  }

  lemma {:induction false} KeysUpToAt(sha: Digest, request: CaptureRequest, m: nat, i: nat)
    requires request.Accepted() && i < m <= BlockCount(|request.tokens|, request.blockTokens)
    ensures KeysUpTo(sha, request, m)[i] == KeyAt(sha, request, i)
  {
    if i < m - 1 {
      KeysUpToAt(sha, request, m - 1, i);
    }
  }

  // ----- the operations -----

  method FromPrefix(sha: Digest, model: Bytes, prefix: seq<Token>, blockIndex: u32, tokenStart: u32,
                    tokenCount: u32, layerStart: u32, layerCount: u32, layoutVersion: u32)
    returns (key: BlockKey)
    ensures key == BlockKey(model, sha(PrefixEncoding(prefix)), blockIndex, tokenStart, tokenCount,
                            layerStart, layerCount, layoutVersion)
  {
    var fed := KV_KEY_DOMAIN + LE(|prefix|, 8);
    for i := 0 to |prefix|
      invariant fed == KV_KEY_DOMAIN + LE(|prefix|, 8) + TokenBytes(prefix[..i])
    {
      assert prefix[..i + 1][..i] == prefix[..i];
      fed := fed + LE(prefix[i], 4);
    }
    assert prefix[..|prefix|] == prefix;
    key := BlockKey(model, sha(fed), blockIndex, tokenStart, tokenCount, layerStart, layerCount, layoutVersion);
  }

  method ComputeBlockKeys(sha: Digest, request: CaptureRequest) returns (r: Result<seq<BlockKey>>)
    ensures r.Ok? <==> request.Accepted()
    ensures r.Ok? ==> r.value == KeysOf(sha, request)
  {
    if request.blockTokens == 0 || request.layerCount == 0 || |request.tokens| > U32_MAX {
      return Err(InvalidInput);
    }
    var n, b := |request.tokens|, request.blockTokens;
    var keys := [];
    var start := 0;
    BlockCountBound(n, 0, b);
    while start < n
      invariant start == BlockStart(|keys|, b)
      invariant start < n <==> |keys| < BlockCount(n, b)
      invariant |keys| <= BlockCount(n, b) && keys == KeysUpTo(sha, request, |keys|)
      decreases n - start
    {
      var key := NextKey(sha, request, |keys|, start);
      BlockCountBound(n, |keys| + 1, b);
      BlockCountBound(n, |keys|, b);
      keys := keys + [key];
      start := start + b;
    }
    r := Ok(keys);
  }

  // The body of the loop over chunks.
  method NextKey(sha: Digest, request: CaptureRequest, i: nat, start: nat) returns (key: BlockKey)
    requires request.Accepted() && i < BlockCount(|request.tokens|, request.blockTokens)
    requires start == BlockStart(i, request.blockTokens)
    ensures key == KeyAt(sha, request, i)
  {
    BlockCountBound(|request.tokens|, i, request.blockTokens);
    BlockIndexFits(|request.tokens|, i, request.blockTokens);
    var end := Min(start + request.blockTokens, |request.tokens|);
    key := FromPrefix(sha, request.model, request.tokens[..end], i, start, end - start,
                      request.layerStart, request.layerCount, request.layoutVersion);
  }

  // ----- the blocks tile the sequence -----

  ghost predicate Contiguous(keys: seq<BlockKey>) {
    forall i, j :: 0 <= i < j < |keys| && j == i + 1 ==> keys[i].End() == keys[j].tokenStart
  }

  lemma BlockShape(sha: Digest, request: CaptureRequest, i: nat)
    requires request.Accepted() && i < BlockCount(|request.tokens|, request.blockTokens)
    ensures KeyAt(sha, request, i).tokenStart == i * request.blockTokens
    ensures 0 < KeyAt(sha, request, i).tokenCount <= request.blockTokens
    ensures KeyAt(sha, request, i).End() <= |request.tokens|
    ensures i + 1 == BlockCount(|request.tokens|, request.blockTokens) ==>
              KeyAt(sha, request, i).End() == |request.tokens|
  {
    BlockCountBound(|request.tokens|, i, request.blockTokens);
    BlockCountBound(|request.tokens|, i + 1, request.blockTokens);
  }

  lemma BlockPair(sha: Digest, request: CaptureRequest, i: nat)
    requires request.Accepted() && i + 1 < BlockCount(|request.tokens|, request.blockTokens)
    ensures KeyAt(sha, request, i).tokenCount == request.blockTokens
    ensures KeyAt(sha, request, i).End() == KeyAt(sha, request, i + 1).tokenStart
  {
    BlockCountBound(|request.tokens|, i, request.blockTokens);
    BlockCountBound(|request.tokens|, i + 1, request.blockTokens);
  }

  // Block i of n tokens cut into blocks of b starts where its predecessor ends, and only the last is short.
  ghost predicate TileAt(keys: seq<BlockKey>, n: nat, b: nat, i: nat)
    requires i < |keys|
  {
    && 0 < keys[i].tokenCount <= b
    && (i == 0 ==> keys[i].tokenStart == 0)
    && (if i == |keys| - 1 then keys[i].End() == n
        else keys[i].tokenCount == b && keys[i].End() == keys[i + 1].tokenStart)
  }

  lemma BlockTiles(sha: Digest, request: CaptureRequest, i: nat)
    requires request.Accepted() && i < |KeysOf(sha, request)|
    ensures TileAt(KeysOf(sha, request), |request.tokens|, request.blockTokens, i)
  {
    var m := BlockCount(|request.tokens|, request.blockTokens);
    KeysUpToAt(sha, request, m, i);
    BlockShape(sha, request, i);
    if i < m - 1 {
      KeysUpToAt(sha, request, m, i + 1);
      BlockPair(sha, request, i);
    }
  }

  lemma BlocksTile(sha: Digest, request: CaptureRequest, keys: seq<BlockKey>)
    requires request.Accepted() && keys == KeysOf(sha, request)
    ensures keys == [] <==> request.tokens == []
    ensures forall i :: 0 <= i < |keys| ==> TileAt(keys, |request.tokens|, request.blockTokens, i)
    ensures forall i :: 0 <= i < |keys| ==> NamedAfter(keys[i], request, i)
  {
    BlockCountBound(|request.tokens|, 0, request.blockTokens);
    forall i | 0 <= i < |keys|
      ensures TileAt(keys, |request.tokens|, request.blockTokens, i) && NamedAfter(keys[i], request, i)
    {
      BlockTiles(sha, request, i);
      KeysUpToAt(sha, request, |keys|, i);
    }
  }

  // The key carries its number and what the request says of model, layers and layout.
  ghost predicate NamedAfter(key: BlockKey, request: CaptureRequest, i: nat) {
    && key.blockIndex == i && key.model == request.model && key.layerStart == request.layerStart
    && key.layerCount == request.layerCount && key.layoutVersion == request.layoutVersion
  }

  lemma TilesAreContiguous(keys: seq<BlockKey>, n: nat, b: nat)
    requires forall i :: 0 <= i < |keys| ==> TileAt(keys, n, b, i)
    ensures Contiguous(keys)
  {
    forall i, j | 0 <= i < j < |keys| && j == i + 1 ensures keys[i].End() == keys[j].tokenStart {
      assert TileAt(keys, n, b, i);
    }
  }

  // ----- injectivity of what is hashed -----

  lemma {:induction false} TokenBytesInjective(s: seq<Token>, t: seq<Token>)
    requires |s| == |t| && TokenBytes(s) == TokenBytes(t)
    ensures s == t
  {
    if s != [] {
      var m := |s| - 1;
      SplitEqual(TokenBytes(s[..m]), LE(s[m], 4), TokenBytes(t[..m]), LE(t[m], 4));
      TokenBytesInjective(s[..m], t[..m]);
      Widths();
      LEInjective(s[m], t[m], 4);
      assert s == s[..m] + [s[m]] && t == t[..m] + [t[m]];
    }
  }

  lemma PrefixEncodingInjective(s: seq<Token>, t: seq<Token>)
    requires |s| <= U64_MAX && |t| <= U64_MAX
    requires PrefixEncoding(s) == PrefixEncoding(t)
    ensures s == t
  {
    SplitEqual(KV_KEY_DOMAIN + LE(|s|, 8), TokenBytes(s), KV_KEY_DOMAIN + LE(|t|, 8), TokenBytes(t));
    SplitEqual(KV_KEY_DOMAIN, LE(|s|, 8), KV_KEY_DOMAIN, LE(|t|, 8));
    Widths();
    LEInjective(|s|, |t|, 8);
    TokenBytesInjective(s, t);
  }

  // Two requests that agree on everything but their tokens give their i-th block the same name exactly
  // when the blocks end at the same place and the tokens agree up to there.
  lemma SharedKeyIffSharedPrefix(sha: Digest, a: CaptureRequest, b: CaptureRequest, i: nat)
    requires a.Accepted() && b.Accepted()
    requires b == a.(tokens := b.tokens)
    requires i < BlockCount(|a.tokens|, a.blockTokens) && i < BlockCount(|b.tokens|, b.blockTokens)
    requires var x := PrefixEncoding(a.tokens[..BlockEnd(|a.tokens|, i, a.blockTokens)]);
             var y := PrefixEncoding(b.tokens[..BlockEnd(|b.tokens|, i, b.blockTokens)]);
             sha(x) == sha(y) ==> x == y
    ensures var ea, eb := BlockEnd(|a.tokens|, i, a.blockTokens), BlockEnd(|b.tokens|, i, b.blockTokens);
            KeyAt(sha, a, i) == KeyAt(sha, b, i) <==> ea == eb && a.tokens[..ea] == b.tokens[..eb]
  {
    var ea, eb := BlockEnd(|a.tokens|, i, a.blockTokens), BlockEnd(|b.tokens|, i, b.blockTokens);
    if KeyAt(sha, a, i) == KeyAt(sha, b, i) {
      PrefixEncodingInjective(a.tokens[..ea], b.tokens[..eb]);
    }
  }

  lemma RangeEncodingInjective(a: BlockKey, b: BlockKey)
    requires RangeEncoding(a) == RangeEncoding(b)
    ensures a == b.(model := a.model, sequenceHash := a.sequenceHash)
  {
    Widths();
    var x, y := RangeEncoding(a), RangeEncoding(b);
    assert x[0..4] == LE(a.blockIndex, 4) && y[0..4] == LE(b.blockIndex, 4);
    assert x[4..8] == LE(a.tokenStart, 4) && y[4..8] == LE(b.tokenStart, 4);
    assert x[8..12] == LE(a.tokenCount, 4) && y[8..12] == LE(b.tokenCount, 4);
    assert x[12..16] == LE(a.layerStart, 4) && y[12..16] == LE(b.layerStart, 4);
    assert x[16..20] == LE(a.layerCount, 4) && y[16..20] == LE(b.layerCount, 4);
    assert x[20..24] == LE(a.layoutVersion, 4) && y[20..24] == LE(b.layoutVersion, 4);
    LEInjective(a.blockIndex, b.blockIndex, 4);
    LEInjective(a.tokenStart, b.tokenStart, 4);
    LEInjective(a.tokenCount, b.tokenCount, 4);
    LEInjective(a.layerStart, b.layerStart, 4);
    LEInjective(a.layerCount, b.layerCount, 4);
    LEInjective(a.layoutVersion, b.layoutVersion, 4);
  }

  lemma LengthPrefixedSplits(a: Bytes, x: Bytes, b: Bytes, y: Bytes)
    requires |a| <= U64_MAX && |b| <= U64_MAX
    requires LengthPrefixed(a) + x == LengthPrefixed(b) + y
    ensures a == b && x == y
  {
    assert LengthPrefixed(a) + x == LE(|a|, 8) + (a + x);
    assert LengthPrefixed(b) + y == LE(|b|, 8) + (b + y);
    SplitEqual(LE(|a|, 8), a + x, LE(|b|, 8), b + y);
    Widths();
    LEInjective(|a|, |b|, 8);
    SplitEqual(a, x, b, y);
  }

  // No two block keys feed the same bytes to the cache-key digest.
  lemma CacheKeyEncodingInjective(a: BlockKey, b: BlockKey)
    requires |a.sequenceHash| == 32 && |b.sequenceHash| == 32
    requires |a.model| <= U64_MAX && |b.model| <= U64_MAX
    requires CacheKeyEncoding(a) == CacheKeyEncoding(b)
    ensures a == b
  {
    var tailA, tailB := a.sequenceHash + RangeEncoding(a), b.sequenceHash + RangeEncoding(b);
    SplitEqual(KV_KEY_DOMAIN, LengthPrefixed(a.model) + tailA, KV_KEY_DOMAIN, LengthPrefixed(b.model) + tailB);
    LengthPrefixedSplits(a.model, tailA, b.model, tailB);
    SplitEqual(a.sequenceHash, RangeEncoding(a), b.sequenceHash, RangeEncoding(b));
    RangeEncodingInjective(a, b);
  }

  // ----- the context-cache key of src/policy.rs -----

  // "RIVET_CACHE_V1\0"
  const CACHE_KEY_DOMAIN: Bytes := [82, 73, 86, 69, 84, 95, 67, 65, 67, 72, 69, 95, 86, 49, 0]

  function ContextKeyEncoding(namespace: Bytes, model: Bytes, payload: Bytes): Bytes {
    CACHE_KEY_DOMAIN + (LengthPrefixed(namespace) + (LengthPrefixed(model) + LengthPrefixed(payload)))
  }

  lemma ContextKeyEncodingInjective(n: Bytes, m: Bytes, p: Bytes, n': Bytes, m': Bytes, p': Bytes)
    requires |n| <= U64_MAX && |m| <= U64_MAX && |p| <= U64_MAX
    requires |n'| <= U64_MAX && |m'| <= U64_MAX && |p'| <= U64_MAX
    requires ContextKeyEncoding(n, m, p) == ContextKeyEncoding(n', m', p')
    ensures n == n' && m == m' && p == p'
  {
    var x, y := LengthPrefixed(m) + LengthPrefixed(p), LengthPrefixed(m') + LengthPrefixed(p');
    SplitEqual(CACHE_KEY_DOMAIN, LengthPrefixed(n) + x, CACHE_KEY_DOMAIN, LengthPrefixed(n') + y);
    LengthPrefixedSplits(n, x, n', y);
    LengthPrefixedSplits(m, LengthPrefixed(p), m', LengthPrefixed(p'));
    assert LengthPrefixed(p) + [] == LengthPrefixed(p') + [];
    LengthPrefixedSplits(p, [], p', []);
  }
}
