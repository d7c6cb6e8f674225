/**
 Remembering nonces for as long as they could still be replayed. The IPC authenticator and the
 elevated service both keep a map from nonce to timestamp, reject a nonce that is in the map and a
 timestamp outside a window, and forget entries once they are older than the window.
 */
module ReplayCache {
  import opened Text
  import opened Wrappers

  /** Rust's u64 with saturating arithmetic. */
  const U64_MAX: nat := 0xFFFF_FFFF_FFFF_FFFF
  type U64 = n: nat | n <= U64_MAX

  function SaturatingAdd(a: U64, b: U64): U64 {
    if a + b <= U64_MAX then a + b else U64_MAX
  }

  function SaturatingSub(a: U64, b: U64): U64 {
    if a >= b then a - b else 0
  }

  type Cache = map<Str, U64>

  datatype Use = Use(nonce: Str, timestamp: U64)

  predicate InWindow(timestamp: U64, now: U64, window: U64, skew: U64) {
    timestamp <= SaturatingAdd(now, skew) && SaturatingSub(now, timestamp) <= window
  }

  function Retain(seen: Cache, now: U64, window: U64): Cache {
    map n | n in seen && SaturatingSub(now, seen[n]) <= window :: seen[n]
  }

  /** What happens to the cache when a request is accepted, as long as nothing is evicted early. */
  function Accept(seen: Cache, u: Use, now: U64, window: U64): Cache {
    Retain(seen[u.nonce := u.timestamp], now, window)
  }

  /** Every use accepted so far is either still in the cache or too old to be accepted again. */
  predicate Remembers(seen: Cache, uses: seq<Use>, clock: U64, window: U64) {
    forall i | 0 <= i < |uses| ::
      || (uses[i].nonce in seen && seen[uses[i].nonce] == uses[i].timestamp)
      || SaturatingSub(clock, uses[i].timestamp) > window
  }

  predicate NoRepeats(uses: seq<Use>) {
    forall i, j | 0 <= i < j < |uses| :: uses[i] != uses[j]
  }

  predicate EntriesInWindow(seen: Cache, clock: U64, window: U64, skew: U64) {
    forall n | n in seen :: InWindow(seen[n], clock, window, skew)
  }

  /** Forgetting is safe: what is accepted now was not accepted before, and stays refused. */
  lemma AcceptIsSafe(seen: Cache, uses: seq<Use>, clock: U64, u: Use, now: U64, window: U64, skew: U64)
    requires Remembers(seen, uses, clock, window) && NoRepeats(uses)
    requires clock <= now && InWindow(u.timestamp, now, window, skew) && u.nonce !in seen
    ensures Remembers(Accept(seen, u, now, window), uses + [u], now, window)
    ensures NoRepeats(uses + [u])
  {
    var after := Accept(seen, u, now, window);
    forall i | 0 <= i < |uses + [u]|
      ensures var x := (uses + [u])[i];
              (x.nonce in after && after[x.nonce] == x.timestamp) || SaturatingSub(now, x.timestamp) > window
    {
      if i < |uses| {
        assert (uses + [u])[i] == uses[i];
      }
    }
  }

  lemma AcceptKeepsEntriesInWindow(seen: Cache, clock: U64, u: Use, now: U64, window: U64, skew: U64)
    requires EntriesInWindow(seen, clock, window, skew) && clock <= now
    requires InWindow(u.timestamp, now, window, skew)
    ensures EntriesInWindow(Accept(seen, u, now, window), now, window, skew)
  {
  }
}
