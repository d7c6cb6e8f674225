/**
 What a replay cache of bounded size still promises: a use is accepted again only after it was flooded out
 by as many others, no older than it, as the cache holds.
 */
module ReplayFloods {
  import opened Sets
  import opened ReplayCache

  /** The other accepted uses that are at least as new as this one. */
  function NotOlder(uses: seq<Use>, u: Use): set<Use> {
    set x | x in uses && x != u && u.timestamp <= x.timestamp
  }

  /** So many of them have been accepted that a cache of this capacity may have given this one up. */
  predicate Flooded(uses: seq<Use>, u: Use, capacity: nat) {
    |NotOlder(uses, u)| >= capacity
  }

  lemma FloodStays(uses: seq<Use>, u: Use, x: Use, capacity: nat)
    requires Flooded(uses, u, capacity)
    ensures Flooded(uses + [x], u, capacity)
  {
    SubsetIsNoLarger(NotOlder(uses, u), NotOlder(uses + [x], u));
  }

  /** A cache full of other uses that are no older is a flood. */
  lemma FullCacheFloods(kept: set<Use>, uses: seq<Use>, u: Use, capacity: nat)
    requires |kept| == capacity && u !in kept
    requires forall x <- kept :: x in uses && u.timestamp <= x.timestamp
    ensures Flooded(uses, u, capacity)
  {
    SubsetIsNoLarger(kept, NotOlder(uses, u));
  }

  /** A nonce and timestamp accepted twice must have been flooded out in between. */
  predicate ReplaysOnlyAfterFlood(uses: seq<Use>, capacity: nat) {
    forall i, j | 0 <= i < j < |uses| && uses[i] == uses[j] :: Flooded(uses[..j], uses[j], capacity)
  }

  lemma AnotherUse(uses: seq<Use>, x: Use, capacity: nat)
    requires ReplaysOnlyAfterFlood(uses, capacity) && (x in uses ==> Flooded(uses, x, capacity))
    ensures ReplaysOnlyAfterFlood(uses + [x], capacity)
  {
    var all := uses + [x];
    forall i, j | 0 <= i < j < |all| && all[i] == all[j] ensures Flooded(all[..j], all[j], capacity) {
      if j == |uses| {
        assert all[..j] == uses && x in uses;
      } else {
        assert all[..j] == uses[..j] && uses[i] == uses[j];
      }
    }
  }
}
