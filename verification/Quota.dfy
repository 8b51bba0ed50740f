/**
 Tenant quotas (src/control.rs): storage reservations that are committed or rolled back, and request leases.
 Every operation holds one lock throughout, so an interleaving of clients is a sequence of operations.
 */
module Quota {
  import opened Prelude
  import opened Sums

  type TenantId = Bytes

  datatype Limits = Limits(maxBytes: u64, maxEntries: u64, maxInflight: u64)

  datatype Usage = Usage(usedBytes: u64, usedEntries: u64, reservedBytes: u64, reservedEntries: u64, inflight: u64)

  datatype ClaimState = Pending | Committed | Released

  // A StorageReservation in a client's hands.
  datatype Claim = Claim(bytes: u64, entries: u64, state: ClaimState)

  // One tenant, with the reservations and leases handed out for it; a lease is `true` while it is live.
  // The manager stores the first two fields only: handles are numbered here so that runs can name them.
  datatype Account = Account(quota: Limits, usage: Usage, claims: seq<Claim>, leases: seq<bool>)

  type Tenants = map<TenantId, Account>

  predicate IdByte(b: byte) {
    || '0' as int <= b <= '9' as int || 'A' as int <= b <= 'Z' as int || 'a' as int <= b <= 'z' as int
    || b == '-' as int || b == '_' as int || b == '.' as int || b == ':' as int
  }

  // Digits, letters of either case, and hyphen, dot, colon and underscore, by their ASCII codes.
  lemma IdCharacters(b: byte)
    ensures IdByte(b) <==> 48 <= b <= 57 || 65 <= b <= 90 || 97 <= b <= 122 || b in {45, 46, 58, 95}
  {
  }

  predicate ValidId(id: TenantId) { 0 < |id| <= 128 && forall i :: 0 <= i < |id| ==> IdByte(id[i]) }

  predicate ValidLimits(q: Limits) { q.maxBytes != 0 && q.maxEntries != 0 && q.maxInflight != 0 }

  // ----- one tenant's steps -----

  // The test of reserve_storage and of set_quota (with an amount of zero), in saturating arithmetic.
  predicate Admits(used: u64, reserved: u64, amount: u64, limit: u64) {
    SatAdd(SatAdd(used, reserved), amount) <= limit
  }

  predicate Fits(u: Usage, q: Limits, bytes: u64, entries: u64) {
    Admits(u.usedBytes, u.reservedBytes, bytes, q.maxBytes)
      && Admits(u.usedEntries, u.reservedEntries, entries, q.maxEntries)
  }

  function Reserved(a: Account, bytes: u64, entries: u64): Account {
    a.(usage := a.usage.(reservedBytes := SatAdd(a.usage.reservedBytes, bytes),
                         reservedEntries := SatAdd(a.usage.reservedEntries, entries)),
       claims := a.claims + [Claim(bytes, entries, Pending)])
  }

  function Unreserved(a: Account, id: nat, state: ClaimState): Account
    requires id < |a.claims|
  {
    a.(usage := a.usage.(reservedBytes := SatSub(a.usage.reservedBytes, a.claims[id].bytes),
                         reservedEntries := SatSub(a.usage.reservedEntries, a.claims[id].entries)),
       claims := a.claims[id := a.claims[id].(state := state)])
  }

  function Used(a: Account, bytes: u64, entries: u64): Account {
    a.(usage := a.usage.(usedBytes := SatAdd(a.usage.usedBytes, bytes),
      usedEntries := SatAdd(a.usage.usedEntries, entries)))
  }

  function Disused(a: Account, bytes: u64, entries: u64): Account {
    a.(usage := a.usage.(usedBytes := SatSub(a.usage.usedBytes, bytes),
      usedEntries := SatSub(a.usage.usedEntries, entries)))
  }

  function Begun(a: Account): Account
    requires a.usage.inflight < U64_MAX
  {
    a.(usage := a.usage.(inflight := a.usage.inflight + 1), leases := a.leases + [true])
  }

  function Ended(a: Account, id: nat): Account
    requires id < |a.leases|
  {
    a.(usage := a.usage.(inflight := SatSub(a.usage.inflight, 1)), leases := a.leases[id := false])
  }

  // ----- all tenants -----

  datatype Op =
    | SetQuota(tenant: TenantId, quota: Limits)
    | Begin(tenant: TenantId)
    | EndRequest(tenant: TenantId, id: nat)                          // release or drop of a lease
    | Reserve(tenant: TenantId, bytes: u64, entries: u64)
    | Commit(tenant: TenantId, id: nat)
    | Abandon(tenant: TenantId, id: nat)                             // drop of a reservation
    | ReleaseStorage(tenant: TenantId, bytes: u64, entries: u64)

  // Commit consumes the reservation and nothing else changes its state, so only a pending one is committed.
  predicate Possible(ts: Tenants, op: Op) {
    match op
    case EndRequest(t, id) => t in ts && id < |ts[t].leases|
    case Commit(t, id) => t in ts && id < |ts[t].claims| && ts[t].claims[id].state == Pending
    case Abandon(t, id) => t in ts && id < |ts[t].claims|
    case _ => true
  }

  function AccountAfter(before: Option<Account>, op: Op): Option<Account>
    requires op.EndRequest? ==> before.Some? && op.id < |before.value.leases|
    requires op.Commit? || op.Abandon? ==> before.Some? && op.id < |before.value.claims|
  {
    match (op, before)
    case (SetQuota(t, q), None) =>
      if ValidId(t) && ValidLimits(q) then Some(Account(q, Usage(0, 0, 0, 0, 0), [], [])) else None
    case (SetQuota(t, q), Some(a)) =>
      if ValidId(t) && ValidLimits(q) && Fits(a.usage, q, 0, 0) && a.usage.inflight <= q.maxInflight
      then Some(a.(quota := q)) else before
    case (Begin(_), Some(a)) => if a.usage.inflight < a.quota.maxInflight then Some(Begun(a)) else before
    case (EndRequest(_, id), Some(a)) => if a.leases[id] then Some(Ended(a, id)) else before
    case (Reserve(_, bytes, entries), Some(a)) =>
      if bytes != 0 && entries != 0 && Fits(a.usage, a.quota, bytes, entries) then Some(Reserved(a, bytes, entries))
      else before
    case (Commit(_, id), Some(a)) => Some(Used(Unreserved(a, id, Committed), a.claims[id].bytes, a.claims[id].entries))
    case (Abandon(_, id), Some(a)) =>
      if a.claims[id].state == Pending then Some(Unreserved(a, id, Released)) else before
    case (ReleaseStorage(_, bytes, entries), Some(a)) => Some(Disused(a, bytes, entries))
    case (_, None) => None
  }

  function AccountOf(ts: Tenants, t: TenantId): Option<Account> {
    if t in ts then Some(ts[t]) else None
  }

  function Next(ts: Tenants, op: Op): Tenants
    requires Possible(ts, op)
  {
    var after := AccountAfter(AccountOf(ts, op.tenant), op);
    if after.Some? then ts[op.tenant := after.value] else ts
  }

  // ----- the manager -----

  class QuotaManager {
    var tenants: Tenants

    constructor ()
      ensures tenants == map[]
    {
      tenants := map[];
    }

    method Configure(tenant: TenantId, quota: Limits) returns (r: Outcome)
      modifies this
      ensures tenants == Next(old(tenants), SetQuota(tenant, quota))
      ensures r.Done? <==>
                && 1 <= |tenant| <= 128 && (forall i :: 0 <= i < |tenant| ==> IdByte(tenant[i]))
                && 0 < quota.maxBytes && 0 < quota.maxEntries && 0 < quota.maxInflight
                && (tenant in old(tenants) ==>
                      var u := old(tenants)[tenant].usage; Fits(u, quota, 0, 0) && u.inflight <= quota.maxInflight)
      ensures r != Done ==> r == Failed(InvalidInput) && tenants == old(tenants)
      ensures r.Done? ==>
                && tenant in tenants && tenants == old(tenants)[tenant := tenants[tenant]]
                && tenants[tenant].quota == quota
                && (if tenant in old(tenants) then tenants[tenant] == old(tenants)[tenant].(quota := quota)
                    else tenants[tenant].usage == Usage(0, 0, 0, 0, 0) && tenants[tenant].claims == []
                         && tenants[tenant].leases == [])
    {
      if !ValidId(tenant) {
        return Failed(InvalidInput);
      }
      if !ValidLimits(quota) {
        return Failed(InvalidInput);
      }
      if tenant in tenants {
        var usage := tenants[tenant].usage;
        if || SatAdd(usage.usedBytes, usage.reservedBytes) > quota.maxBytes
           || SatAdd(usage.usedEntries, usage.reservedEntries) > quota.maxEntries
           || usage.inflight > quota.maxInflight
        {
          return Failed(InvalidInput);
        }
        tenants := tenants[tenant := tenants[tenant].(quota := quota)];
      } else {
        tenants := tenants[tenant := Account(quota, Usage(0, 0, 0, 0, 0), [], [])];
      }
      return Done;
    }

    method BeginRequest(tenant: TenantId) returns (r: Result<nat>)
      modifies this
      ensures tenants == Next(old(tenants), Begin(tenant))
      ensures r.Ok? <==>
              tenant in old(tenants) && old(tenants)[tenant].usage.inflight < old(tenants)[tenant].quota.maxInflight
      ensures r.Ok? ==>
              && tenants[tenant].leases == old(tenants)[tenant].leases + [true]
              && r.value == |old(tenants)[tenant].leases| && tenants == old(tenants)[tenant := tenants[tenant]]
              && tenants[tenant].usage.inflight == old(tenants)[tenant].usage.inflight + 1
              && tenants[tenant].usage.(inflight := 0) == old(tenants)[tenant].usage.(inflight := 0)
              && tenants[tenant].quota == old(tenants)[tenant].quota
              && tenants[tenant].claims == old(tenants)[tenant].claims
      ensures r.Err? ==> r.error == if tenant in old(tenants) then WouldBlock else NotFound
      ensures r.Err? ==> tenants == old(tenants)
    {
      if tenant !in tenants {
        return Err(NotFound);
      }
      var account := tenants[tenant];
      if account.usage.inflight >= account.quota.maxInflight {
        return Err(WouldBlock);
      }
      var lease := |account.leases|;
      account := account.(usage := account.usage.(inflight := account.usage.inflight + 1));
      account := account.(leases := account.leases + [true]);
      tenants := tenants[tenant := account];
      return Ok(lease);
    }

    method ReleaseRequest(tenant: TenantId, id: nat)
      requires Possible(tenants, EndRequest(tenant, id))
      modifies this
      ensures tenants == Next(old(tenants), EndRequest(tenant, id))
      ensures tenant in tenants && tenants == old(tenants)[tenant := tenants[tenant]]
      ensures !old(tenants)[tenant].leases[id] ==> tenants == old(tenants)
      ensures old(tenants)[tenant].leases[id] && Balanced(old(tenants)[tenant]) ==>
                LeaseEnds(old(tenants)[tenant], tenants[tenant], id)
    {
      if Balanced(tenants[tenant]) {
        NothingSaturates(tenants[tenant], id);
      }
      var account := tenants[tenant];
      if !account.leases[id] {
        return;
      }
      account := account.(usage := account.usage.(inflight := SatSub(account.usage.inflight, 1)));
      account := account.(leases := account.leases[id := false]);
      tenants := tenants[tenant := account];
    }

    method ReserveStorage(tenant: TenantId, bytes: u64, entries: u64) returns (r: Result<nat>)
      modifies this
      ensures tenants == Next(old(tenants), Reserve(tenant, bytes, entries))
      ensures r.Ok? <==> bytes != 0 && entries != 0 && tenant in old(tenants)
                         && Fits(old(tenants)[tenant].usage, old(tenants)[tenant].quota, bytes, entries)
      ensures r.Ok? ==> r.value == |old(tenants)[tenant].claims|
      ensures r.Ok? ==> tenants == old(tenants)[tenant := tenants[tenant]]
      ensures r.Ok? && Narrow(old(tenants)[tenant].quota) ==>
                Claims(old(tenants)[tenant], tenants[tenant], bytes, entries)
      ensures r.Ok? ==> tenants[tenant].claims == old(tenants)[tenant].claims + [Claim(bytes, entries, Pending)]
      ensures r.Err? ==> r.error == if bytes == 0 || entries == 0 then InvalidInput
                                    else if tenant !in old(tenants) then NotFound else Other
      ensures r.Err? ==> tenants == old(tenants)
    {
      if bytes == 0 || entries == 0 {
        return Err(InvalidInput);
      }
      if tenant !in tenants {
        return Err(NotFound);
      }
      var account := tenants[tenant];
      var usage := account.usage;
      var totalBytes := SatAdd(SatAdd(usage.usedBytes, usage.reservedBytes), bytes);
      var totalEntries := SatAdd(SatAdd(usage.usedEntries, usage.reservedEntries), entries);
      if totalBytes > account.quota.maxBytes || totalEntries > account.quota.maxEntries {
        return Err(Other);
      }
      usage := usage.(reservedBytes := SatAdd(usage.reservedBytes, bytes));
      usage := usage.(reservedEntries := SatAdd(usage.reservedEntries, entries));
      tenants := tenants[tenant := account.(usage := usage,
        claims := account.claims + [Claim(bytes, entries, Pending)])];
      return Ok(|account.claims|);
    }

    method CommitReservation(tenant: TenantId, id: nat)
      requires Possible(tenants, Commit(tenant, id))
      modifies this
      ensures tenants == Next(old(tenants), Commit(tenant, id))
      ensures tenant in tenants && tenants == old(tenants)[tenant := tenants[tenant]]
      ensures Balanced(old(tenants)[tenant]) ==> Settles(old(tenants)[tenant], tenants[tenant], id, Committed)
    {
      if Balanced(tenants[tenant]) {
        NothingSaturates(tenants[tenant], id);
      }
      var account := tenants[tenant];
      var claim := account.claims[id];
      var usage := account.usage;
      usage := usage.(reservedBytes := SatSub(usage.reservedBytes, claim.bytes));
      usage := usage.(reservedEntries := SatSub(usage.reservedEntries, claim.entries));
      usage := usage.(usedBytes := SatAdd(usage.usedBytes, claim.bytes));
      usage := usage.(usedEntries := SatAdd(usage.usedEntries, claim.entries));
      tenants := tenants[tenant := account.(usage := usage,
        claims := account.claims[id := claim.(state := Committed)])];
    }

    method DropReservation(tenant: TenantId, id: nat)
      requires Possible(tenants, Abandon(tenant, id))
      modifies this
      ensures tenants == Next(old(tenants), Abandon(tenant, id))
      ensures tenant in tenants && tenants == old(tenants)[tenant := tenants[tenant]]
      ensures old(tenants)[tenant].claims[id].state != Pending ==> tenants == old(tenants)
      ensures old(tenants)[tenant].claims[id].state == Pending && Balanced(old(tenants)[tenant]) ==>
                Settles(old(tenants)[tenant], tenants[tenant], id, Released)
    {
      if Balanced(tenants[tenant]) {
        NothingSaturates(tenants[tenant], id);
      }
      var account := tenants[tenant];
      var claim := account.claims[id];
      if claim.state != Pending {
        return;
      }
      var usage := account.usage;
      usage := usage.(reservedBytes := SatSub(usage.reservedBytes, claim.bytes));
      usage := usage.(reservedEntries := SatSub(usage.reservedEntries, claim.entries));
      tenants := tenants[tenant := account.(usage := usage, claims := account.claims[id := claim.(state := Released)])];
    }

    method ReleaseUsed(tenant: TenantId, bytes: u64, entries: u64) returns (r: Outcome)
      modifies this
      ensures tenants == Next(old(tenants), ReleaseStorage(tenant, bytes, entries))
      ensures r == if tenant in old(tenants) then Done else Failed(NotFound)
      ensures r.Failed? ==> tenants == old(tenants)
      ensures r.Done? ==>
                && tenant in tenants && tenants == old(tenants)[tenant := tenants[tenant]]
                && Frees(old(tenants)[tenant], tenants[tenant], bytes, entries)
    {
      if tenant !in tenants {
        return Failed(NotFound);
      }
      var account := tenants[tenant];
      var usage := account.usage;
      usage := usage.(usedBytes := SatSub(usage.usedBytes, bytes));
      usage := usage.(usedEntries := SatSub(usage.usedEntries, entries));
      tenants := tenants[tenant := account.(usage := usage)];
      return Done;
    }
  }

  // ----- what the counters mean -----

  function PendingBytes(c: Claim): nat { if c.state == Pending then c.bytes else 0 }
  function PendingEntries(c: Claim): nat { if c.state == Pending then c.entries else 0 }
  function CommittedBytes(c: Claim): nat { if c.state == Committed then c.bytes else 0 }
  function CommittedEntries(c: Claim): nat { if c.state == Committed then c.entries else 0 }
  function Live(lease: bool): nat { if lease then 1 else 0 }

  // The reserved amounts are the pending reservations, nothing is used that was not committed, `inflight`
  // counts the live leases, and everything is within the quota as unbounded integers.
  ghost predicate Balanced(a: Account) {
    && a.usage.reservedBytes == SumOf(PendingBytes, a.claims)
    && a.usage.reservedEntries == SumOf(PendingEntries, a.claims)
    && a.usage.usedBytes <= SumOf(CommittedBytes, a.claims)
    && a.usage.usedEntries <= SumOf(CommittedEntries, a.claims)
    && a.usage.inflight == SumOf(Live, a.leases)
    && a.usage.usedBytes + a.usage.reservedBytes <= a.quota.maxBytes
    && a.usage.usedEntries + a.usage.reservedEntries <= a.quota.maxEntries
    && a.usage.inflight <= a.quota.maxInflight
  }

  // The reservation leaves the reserved amounts by exactly its own, which a commit adds to the used ones; nothing
  // else about the tenant changes.
  ghost predicate Settles(a: Account, b: Account, id: nat, state: ClaimState)
    requires id < |a.claims|
  {
    var c, u, v := a.claims[id], a.usage, b.usage;
    && v.reservedBytes == u.reservedBytes - c.bytes && v.reservedEntries == u.reservedEntries - c.entries
    && v.usedBytes == u.usedBytes + (if state == Committed then c.bytes else 0)
    && v.usedEntries == u.usedEntries + (if state == Committed then c.entries else 0)
    && v.inflight == u.inflight && b.quota == a.quota && b.leases == a.leases
    && b.claims == a.claims[id := c.(state := state)]
  }

  // Usage falls by the smaller of the amount and what is used; nothing else about the tenant changes.
  // A reservation was added: reserved rises by its amounts, within the limits, and nothing else changes.
  ghost predicate Claims(a: Account, b: Account, bytes: u64, entries: u64) {
    && b.usage.reservedBytes == a.usage.reservedBytes + bytes
    && b.usage.reservedEntries == a.usage.reservedEntries + entries
    && b.usage.usedBytes + b.usage.reservedBytes <= b.quota.maxBytes
    && b.usage.usedEntries + b.usage.reservedEntries <= b.quota.maxEntries
    && b.usage.usedBytes == a.usage.usedBytes && b.usage.usedEntries == a.usage.usedEntries
    && b.usage.inflight == a.usage.inflight && b.quota == a.quota && b.leases == a.leases
  }

  ghost predicate Frees(a: Account, b: Account, bytes: u64, entries: u64) {
    && b.usage.usedBytes == a.usage.usedBytes - Min(bytes, a.usage.usedBytes)
    && b.usage.usedEntries == a.usage.usedEntries - Min(entries, a.usage.usedEntries)
    && b.usage.reservedBytes == a.usage.reservedBytes && b.usage.reservedEntries == a.usage.reservedEntries
    && b.usage.inflight == a.usage.inflight && b.quota == a.quota && b.claims == a.claims && b.leases == a.leases
  }

  ghost predicate LeaseEnds(a: Account, b: Account, id: nat)
    requires id < |a.leases|
  {
    && b.usage == a.usage.(inflight := b.usage.inflight) && b.usage.inflight == a.usage.inflight - 1
    && b.quota == a.quota && b.claims == a.claims && b.leases == a.leases[id := false]
  }

  predicate Narrow(q: Limits) { q.maxBytes < U64_MAX && q.maxEntries < U64_MAX }

  // The saturating test means what it says exactly for limits below the top value.
  lemma AdmitsIffNarrow(limit: u64)
    ensures (forall used: u64, reserved: u64, amount: u64 ::
               Admits(used, reserved, amount, limit) <==> used + reserved + amount <= limit)
            <==> limit < U64_MAX
  {
    if limit == U64_MAX {
      assert Admits(U64_MAX, 1, 0, limit);
    }
  }

  lemma SumUpdate<T>(f: T -> nat, s: seq<T>, i: nat, x: T)
    requires i < |s|
    ensures SumOf(f, s[i := x]) + f(s[i]) == SumOf(f, s) + f(x)
    ensures f(s[i]) <= SumOf(f, s)
  {
    SumSplit(f, s, i);
    SumSplit(f, s[i := x], i);
    assert s[i := x][..i] + s[i := x][i + 1..] == s[..i] + s[i + 1..];
  }

  lemma SumGrow<T>(f: T -> nat, s: seq<T>, x: T)
    ensures SumOf(f, s + [x]) == SumOf(f, s) + f(x)
  {
    SumAppend(f, s, [x]);
    SumOne(f, x);
  }

  lemma ClaimsGrow(a: Account, bytes: u64, entries: u64)
    ensures var cs := a.claims + [Claim(bytes, entries, Pending)];
      && SumOf(PendingBytes, cs) == SumOf(PendingBytes, a.claims) + bytes
      && SumOf(PendingEntries, cs) == SumOf(PendingEntries, a.claims) + entries
      && SumOf(CommittedBytes, cs) == SumOf(CommittedBytes, a.claims)
      && SumOf(CommittedEntries, cs) == SumOf(CommittedEntries, a.claims)
  {
    var c := Claim(bytes, entries, Pending);
    SumGrow(PendingBytes, a.claims, c);
    SumGrow(PendingEntries, a.claims, c);
    SumGrow(CommittedBytes, a.claims, c);
    SumGrow(CommittedEntries, a.claims, c);
  }

  lemma ClaimSettles(cs: seq<Claim>, id: nat, state: ClaimState)
    requires id < |cs| && cs[id].state == Pending && state != Pending
    ensures var cs' := cs[id := cs[id].(state := state)];
      && SumOf(PendingBytes, cs') + cs[id].bytes == SumOf(PendingBytes, cs)
      && SumOf(PendingEntries, cs') + cs[id].entries == SumOf(PendingEntries, cs)
      && SumOf(CommittedBytes, cs') == SumOf(CommittedBytes, cs) + (if state == Committed then cs[id].bytes else 0)
      && SumOf(CommittedEntries, cs') ==
         SumOf(CommittedEntries, cs) + (if state == Committed then cs[id].entries else 0)
  {
    var c := cs[id].(state := state);
    SumUpdate(PendingBytes, cs, id, c);
    SumUpdate(PendingEntries, cs, id, c);
    SumUpdate(CommittedBytes, cs, id, c);
    SumUpdate(CommittedEntries, cs, id, c);
  }

  // Neither settling a reservation nor ending a lease ever hits a bound of the saturating arithmetic.
  lemma NothingSaturates(a: Account, id: nat)
    requires Balanced(a)
    ensures id < |a.claims| && a.claims[id].state == Pending ==>
      && a.claims[id].bytes <= a.usage.reservedBytes && a.claims[id].entries <= a.usage.reservedEntries
      && a.usage.usedBytes + a.claims[id].bytes <= a.quota.maxBytes
      && a.usage.usedEntries + a.claims[id].entries <= a.quota.maxEntries
    ensures id < |a.leases| && a.leases[id] ==> 1 <= a.usage.inflight
  {
    if id < |a.claims| && a.claims[id].state == Pending {
      ClaimSettles(a.claims, id, Committed);
    }
    if id < |a.leases| && a.leases[id] {
      SumUpdate(Live, a.leases, id, false);
    }
  }

  lemma AdmittedIsExact(used: u64, reserved: u64, amount: u64, limit: u64)
    requires Admits(used, reserved, amount, limit) && limit < U64_MAX
    ensures SatAdd(reserved, amount) == reserved + amount && used + reserved + amount <= limit
  {
  }

  lemma ReservedBalanced(a: Account, bytes: u64, entries: u64)
    requires Balanced(a) && Narrow(a.quota) && Fits(a.usage, a.quota, bytes, entries)
    ensures Balanced(Reserved(a, bytes, entries))
  {
    AdmittedIsExact(a.usage.usedBytes, a.usage.reservedBytes, bytes, a.quota.maxBytes);
    AdmittedIsExact(a.usage.usedEntries, a.usage.reservedEntries, entries, a.quota.maxEntries);
    ClaimsGrow(a, bytes, entries);
  }

  lemma CommitBalanced(a: Account, id: nat)
    requires Balanced(a) && id < |a.claims| && a.claims[id].state == Pending
    ensures Balanced(Used(Unreserved(a, id, Committed), a.claims[id].bytes, a.claims[id].entries))
  {
    ClaimSettles(a.claims, id, Committed);
  }

  lemma AbandonBalanced(a: Account, id: nat)
    requires Balanced(a) && id < |a.claims| && a.claims[id].state == Pending
    ensures Balanced(Unreserved(a, id, Released))
  {
    ClaimSettles(a.claims, id, Released);
  }

  lemma LeasesBalanced(a: Account, id: nat)
    requires Balanced(a)
    ensures a.usage.inflight < a.quota.maxInflight ==> Balanced(Begun(a))
    ensures id < |a.leases| && a.leases[id] ==> Balanced(Ended(a, id))
  {
    SumGrow(Live, a.leases, true);
    if id < |a.leases| {
      SumUpdate(Live, a.leases, id, false);
    }
  }

  // Every step keeps a tenant balanced while its limits are below the top value.
  lemma StepBalanced(a: Account, op: Op)
    requires Possible(map[op.tenant := a], op) && (op.SetQuota? ==> Narrow(op.quota))
    requires Balanced(a) && Narrow(a.quota)
    ensures var after := AccountAfter(Some(a), op); after.Some? && Balanced(after.value) && Narrow(after.value.quota)
  {
    match op
    case Begin(_) => LeasesBalanced(a, 0);
    case EndRequest(_, id) => LeasesBalanced(a, id);
    case Reserve(_, bytes, entries) =>
      if Fits(a.usage, a.quota, bytes, entries) { ReservedBalanced(a, bytes, entries); }
    case Commit(_, id) => CommitBalanced(a, id);
    case Abandon(_, id) => if a.claims[id].state == Pending { AbandonBalanced(a, id); }
    case _ =>
  }

  // What a client is told, in terms of the reservations and leases that exist.
  lemma AnswersAreExact(a: Account, bytes: u64, entries: u64)
    requires Balanced(a) && Narrow(a.quota)
    ensures Fits(a.usage, a.quota, bytes, entries) <==>
      && a.usage.usedBytes + SumOf(PendingBytes, a.claims) + bytes <= a.quota.maxBytes
      && a.usage.usedEntries + SumOf(PendingEntries, a.claims) + entries <= a.quota.maxEntries
    ensures a.usage.inflight < a.quota.maxInflight <==> SumOf(Live, a.leases) < a.quota.maxInflight
  {
  }

  // ----- runs -----

  function Exec(ops: seq<Op>): Option<Tenants> {
    if ops == [] then Some(map[])
    else match Exec(ops[..|ops| - 1])
      case None => None
      case Some(ts) => if Possible(ts, ops[|ops| - 1]) then Some(Next(ts, ops[|ops| - 1])) else None
  }

  // In every run whose quotas stay below the top value, every tenant is balanced.
  lemma {:induction false} RunBalanced(ops: seq<Op>, t: TenantId)
    requires Exec(ops).Some? && t in Exec(ops).value
    requires forall i :: 0 <= i < |ops| && ops[i].SetQuota? ==> Narrow(ops[i].quota)
    ensures Balanced(Exec(ops).value[t]) && Narrow(Exec(ops).value[t].quota)
  {
    if ops != [] {
      var before, op := ops[..|ops| - 1], ops[|ops| - 1];
      if t in Exec(before).value {
        RunBalanced(before, t);
        if op.tenant == t {
          StepBalanced(Exec(before).value[t], op);
        }
      }
    }
  }

  // The operations of one tenant.
  function Own(ops: seq<Op>, t: TenantId): seq<Op> {
    if ops == [] then []
    else Own(ops[..|ops| - 1], t) + (if ops[|ops| - 1].tenant == t then [ops[|ops| - 1]] else [])
  }

  // Tenants do not affect each other: a tenant's account is what its own operations alone would give.
  lemma {:induction false} TenantsIndependent(ops: seq<Op>, t: TenantId)
    requires Exec(ops).Some?
    ensures Exec(Own(ops, t)).Some?
    ensures AccountOf(Exec(Own(ops, t)).value, t) == AccountOf(Exec(ops).value, t)
  {
    if ops != [] {
      var before, op := ops[..|ops| - 1], ops[|ops| - 1];
      TenantsIndependent(before, t);
      var own := Own(before, t);
      if op.tenant == t {
        assert (own + [op])[..|own|] == own;
      } else {
        assert own + [] == own;
      }
    }
  }

  // ----- the top value -----

  predicate UsesOnly(ops: seq<Op>, q: Limits) { forall i :: 0 <= i < |ops| && ops[i].SetQuota? ==> ops[i].quota == q }

  ghost predicate AlwaysBalanced(q: Limits) {
    forall ops, t :: Exec(ops).Some? && UsesOnly(ops, q) && t in Exec(ops).value ==> Balanced(Exec(ops).value[t])
  }

  // A limit of exactly u64::MAX lets an overflowing reservation through, and no other limit does.
  lemma BalancedIffNarrow(q: Limits)
    requires ValidLimits(q)
    ensures AlwaysBalanced(q) <==> Narrow(q)
  {
    if Narrow(q) {
      forall ops, t | Exec(ops).Some? && UsesOnly(ops, q) && t in Exec(ops).value ensures Balanced(Exec(ops).value[t]) {
        RunBalanced(ops, t);
      }
    } else {
      var t: TenantId := [0x61];
      OverflowingRun(q, t);
    }
  }

  // One more operation of a run with a single tenant.
  lemma ExecSnoc(ops: seq<Op>, op: Op, t: TenantId, a: Option<Account>, b: Account)
    requires Exec(ops) == Some(if a.Some? then map[t := a.value] else map[]) && op.tenant == t
    requires Possible(Exec(ops).value, op) && AccountAfter(a, op) == Some(b)
    ensures Exec(ops + [op]) == Some(map[t := b])
  {
    assert (ops + [op])[..|ops|] == ops;
    assert AccountOf(Exec(ops).value, t) == a;
    assert Next(Exec(ops).value, op) == map[t := b];
  }

  // Fill the wide dimension, give the other one back, and reserve once more.
  function Overflow(q: Limits, t: TenantId): seq<Op> {
    var (b, e) := Fill(q);
    [] + [SetQuota(t, q)] + [Reserve(t, b, e)] + [Commit(t, 0)] + [ReleaseStorage(t, GivenBack(b), GivenBack(e))]
    + [Reserve(t, 1, 1)]
  }

  function Fill(q: Limits): (u64, u64) {
    if q.maxBytes == U64_MAX then (U64_MAX, 1) else (1, U64_MAX)
  }

  function GivenBack(x: u64): u64 { if x == 1 then 1 else 0 }

  // The account of that run after each operation.
  function OverflowAccount(q: Limits, n: nat): Account
    requires 1 <= n <= 5
  {
    var (b, e) := Fill(q);
    match n
    case 1 => Account(q, Usage(0, 0, 0, 0, 0), [], [])
    case 2 => Account(q, Usage(0, 0, b, e, 0), [Claim(b, e, Pending)], [])
    case 3 => Account(q, Usage(b, e, 0, 0, 0), [Claim(b, e, Committed)], [])
    case 4 => Account(q, Usage(if b == 1 then 0 else b, if e == 1 then 0 else e, 0, 0, 0), [Claim(b, e, Committed)], [])
    case _ => Account(q, Usage(if b == 1 then 0 else b, if e == 1 then 0 else e, 1, 1, 0),
      [Claim(b, e, Committed), Claim(1, 1, Pending)], [])
  }

  lemma OverflowSteps(q: Limits, t: TenantId)
    requires ValidLimits(q) && !Narrow(q) && ValidId(t)
    ensures var (b, e) := Fill(q);
      && AccountAfter(None, SetQuota(t, q)) == Some(OverflowAccount(q, 1))
      && AccountAfter(Some(OverflowAccount(q, 1)), Reserve(t, b, e)) == Some(OverflowAccount(q, 2))
      && AccountAfter(Some(OverflowAccount(q, 2)), Commit(t, 0)) == Some(OverflowAccount(q, 3))
      && AccountAfter(Some(OverflowAccount(q, 3)), ReleaseStorage(t, GivenBack(b), GivenBack(e))) ==
        Some(OverflowAccount(q, 4))
      && AccountAfter(Some(OverflowAccount(q, 4)), Reserve(t, 1, 1)) == Some(OverflowAccount(q, 5))
  {
    var (b, e) := Fill(q);
    var pending, committed := Claim(b, e, Pending), Claim(b, e, Committed);
    assert [] + [pending] == [pending];
    assert [pending][0 := committed] == [committed];
    assert [committed] + [Claim(1, 1, Pending)] == [committed, Claim(1, 1, Pending)];
  }

  lemma OverflowingRun(q: Limits, t: TenantId)
    requires ValidLimits(q) && !Narrow(q) && ValidId(t)
    ensures Exec(Overflow(q, t)).Some? && UsesOnly(Overflow(q, t), q) && t in Exec(Overflow(q, t)).value
    ensures !Balanced(Exec(Overflow(q, t)).value[t])
  {
    var (b, e) := Fill(q);
    OverflowSteps(q, t);
    var ops := [];
    ExecSnoc(ops, SetQuota(t, q), t, None, OverflowAccount(q, 1));
    ops := ops + [SetQuota(t, q)];
    ExecSnoc(ops, Reserve(t, b, e), t, Some(OverflowAccount(q, 1)), OverflowAccount(q, 2));
    ops := ops + [Reserve(t, b, e)];
    ExecSnoc(ops, Commit(t, 0), t, Some(OverflowAccount(q, 2)), OverflowAccount(q, 3));
    ops := ops + [Commit(t, 0)];
    ExecSnoc(ops, ReleaseStorage(t, GivenBack(b), GivenBack(e)), t, Some(OverflowAccount(q, 3)), OverflowAccount(q, 4));
    ops := ops + [ReleaseStorage(t, GivenBack(b), GivenBack(e))];
    ExecSnoc(ops, Reserve(t, 1, 1), t, Some(OverflowAccount(q, 4)), OverflowAccount(q, 5));
  }
}
