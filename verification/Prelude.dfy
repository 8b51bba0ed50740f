/** Fixed-width integers, saturating arithmetic and the result types shared by every component. */
module Prelude {

  const U16_MAX: nat := 0xFFFF
  const U32_MAX: nat := 0xFFFF_FFFF
  const U64_MAX: nat := 0xFFFF_FFFF_FFFF_FFFF
  const I64_MAX: nat := 0x7FFF_FFFF_FFFF_FFFF

  // Rust never allocates more than isize::MAX bytes, so no vector is longer than this.
  const MAX_LEN: nat := I64_MAX

  type byte = b: int | 0 <= b < 256
  type u32 = n: int | 0 <= n <= U32_MAX
  type u64 = n: int | 0 <= n <= U64_MAX
  type usize = u64

  type Bytes = seq<byte>

  datatype Option<+T> = None | Some(value: T)

  // The io::ErrorKind of a failure; messages carry no behaviour.
  datatype ErrorKind = InvalidInput | InvalidData | NotFound | WouldBlock | BrokenPipe | Unsupported | Eof | Other

  datatype Result<+T> = Ok(value: T) | Err(error: ErrorKind)

  datatype Outcome = Done | Failed(error: ErrorKind)

  function SatAdd(a: nat, b: nat): nat {
    if a + b > U64_MAX then U64_MAX else a + b
  }

  function SatSub(a: nat, b: nat): nat {
    if a < b then 0 else a - b
  }

  function SatAdd32(a: nat, b: nat): nat {
    if a + b > U32_MAX then U32_MAX else a + b
  }

  function Min(a: nat, b: nat): nat {
    if a <= b then a else b
  }

  function Max(a: nat, b: nat): nat {
    if a >= b then a else b
  }

  // An expiry of zero means "never"; otherwise the entry is dead from that second on.
  predicate IsExpired(expiresAt: nat, now: nat) {
    expiresAt != 0 && expiresAt <= now
  }

  datatype Duration = Duration(seconds: u64, nanos: u32)

  // The expiry of an entry written now: a zero duration means "never", any other counts for a second at least.
  function ExpiryAfter(ttl: Duration, now: u64): u64 {
    if ttl == Duration(0, 0) then 0 else SatAdd(now, Max(ttl.seconds, 1))
  }

  // What a lifetime means: an entry written at `since` is alive at t while less than a second, or fewer seconds than
  // the lifetime's, have passed; and for ever if the lifetime is zero.  The last second of the clock ends every other.
  predicate Lives(ttl: Duration, since: nat, t: nat) {
    ttl == Duration(0, 0) || ((t - since < 1 || t - since < ttl.seconds) && t < U64_MAX)
  }

  lemma LivesUntilExpiry(ttl: Duration, now: u64, t: nat)
    requires now <= t
    ensures Lives(ttl, now, t) <==> !IsExpired(ExpiryAfter(ttl, now), t)
  {
  }

  function Pow10(width: nat): (p: nat)
    ensures p >= 1
  {
    if width == 0 then 1 else 10 * Pow10(width - 1)
  }

  lemma MulMono(a: nat, b: nat, n: nat)
    requires a <= b
    ensures a * n <= b * n
  {
  }

  lemma MulSucc(a: nat, n: nat)
    ensures (a + 1) * n == a * n + n
  {
  }

  lemma Assoc(a: Bytes, b: Bytes, c: Bytes)
    ensures a + b + c == a + (b + c)
  {
  }
}
