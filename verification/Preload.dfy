/** The renderer's replica of the runtime snapshot, and that it converges whatever order snapshots arrive in. */
module Preload {
  import opened Wrappers
  import opened Snapshots
  import opened StateGovernor
  import opened RuntimeModel
  import opened RuntimeLocks

  /** `n <= v` for the values a normalised sequence id takes; JavaScript reads null as 0, and compares
      a number with undefined as false. */
  predicate NumberAtMost(n: int, v: Val) {
    match v
    case Num(m) => n <= m
    case Null => n <= 0
    case Bool(b) => n <= if b then 1 else 0
    case _ => false
  }

  predicate SameGovernor(replica: Snapshot, incoming: Snapshot) {
    Get(incoming, GovernorId).Text? && Get(incoming, GovernorId) == Get(replica, GovernorId)
  }

  predicate Stale(replica: Snapshot, incoming: Snapshot) {
    var sequenceId := Get(incoming, GovernorSequenceId);
    SameGovernor(replica, incoming)
    && (!sequenceId.Num? || NumberAtMost(sequenceId.number, Get(replica, GovernorSequenceId)))
  }

  function Applied(replica: Snapshot, incoming: Snapshot): Snapshot {
    if Stale(replica, incoming) then replica else Merge(replica, incoming)
  }

  class Replica {
    var runtimeSnapshot: Snapshot

    constructor (initial: Snapshot)
      ensures runtimeSnapshot == initial
    {
      runtimeSnapshot := initial;
    }

    /** A missing snapshot counts as an empty one. */
    method ApplyRuntimeSnapshot(snapshot: Option<Snapshot>) returns (current: Snapshot)
      modifies this
      ensures runtimeSnapshot == Applied(old(runtimeSnapshot), if snapshot.Some? then snapshot.value else map[])
      ensures current == runtimeSnapshot
    {
      var incoming := if snapshot.Some? then snapshot.value else map[];
      var governorId := Get(incoming, GovernorId);
      var sequenceId := Get(incoming, GovernorSequenceId);
      var isSameGovernor := governorId.Text? && governorId == Get(runtimeSnapshot, GovernorId);
      if isSameGovernor
        && (!sequenceId.Num? || NumberAtMost(sequenceId.number, Get(runtimeSnapshot, GovernorSequenceId))) {
        return runtimeSnapshot;
      }
      runtimeSnapshot := Merge(runtimeSnapshot, incoming);
      return runtimeSnapshot;
    }
  }

  // ---------------------------------------------------------------- what one governor publishes

  /** The snapshots a runtime publishes, one per update. */
  function Published(r: Runtime, changes: seq<Change>): seq<Snapshot> {
    seq(|changes|, i requires 0 <= i < |changes| => UpdateAll(r, changes[..i + 1]).snapshot)
  }

  /** Snapshots of one governor under ascending sequence ids. */
  predicate Numbered(h: seq<Snapshot>, id: string, first: nat) {
    forall i | 0 <= i < |h| ::
      Get(h[i], GovernorId) == Text(id) && Get(h[i], GovernorSequenceId) == Num(first + i)
  }

  lemma PublishedIsNumbered(r: Runtime, changes: seq<Change>)
    ensures |Published(r, changes)| == |changes| && Numbered(Published(r, changes), r.id, r.nextSequence)
  {
    forall i | 0 <= i < |changes|
      ensures Get(Published(r, changes)[i], GovernorId) == Text(r.id)
      ensures Get(Published(r, changes)[i], GovernorSequenceId) == Num(r.nextSequence + i)
    {
      UpdatesAreNumbered(r, changes[..i + 1]);
    }
  }

  /** All are complete records over the same fields. */
  predicate Complete(h: seq<Snapshot>, fields: set<Field>) {
    forall s <- h :: s.Keys == fields
  }

  // ---------------------------------------------------------------- convergence

  predicate Within(arrivals: seq<nat>, count: nat) {
    forall i | 0 <= i < |arrivals| :: arrivals[i] < count
  }

  /** The replica after the snapshots of the given positions have arrived, in that order. */
  function Deliver(replica: Snapshot, h: seq<Snapshot>, arrivals: seq<nat>): Snapshot
    requires Within(arrivals, |h|)
    decreases |arrivals|
  {
    if arrivals == [] then replica
    else
      var last := arrivals[|arrivals| - 1];
      Applied(Deliver(replica, h, arrivals[..|arrivals| - 1]), h[last])
  }

  function Latest(arrivals: seq<nat>): (m: nat)
    requires arrivals != []
    ensures m in arrivals && forall a <- arrivals :: a <= m
  {
    var last := arrivals[|arrivals| - 1];
    if |arrivals| == 1 then last
    else
      var before := Latest(arrivals[..|arrivals| - 1]);
      assert arrivals == arrivals[..|arrivals| - 1] + [last];
      if before < last then last else before
  }

  /** Dropped, duplicated or reordered: the replica ends as the delivered snapshot with the greatest sequence id. */
  lemma {:induction false} Converges(replica: Snapshot, h: seq<Snapshot>, arrivals: seq<nat>, id: string, first: nat)
    requires Numbered(h, id, first) && Complete(h, replica.Keys)
    requires Get(replica, GovernorId) != Text(id)
    requires arrivals != [] && Within(arrivals, |h|)
    ensures Deliver(replica, h, arrivals) == h[Latest(arrivals)]
    decreases |arrivals|
  {
    var init, last := arrivals[..|arrivals| - 1], arrivals[|arrivals| - 1];
    assert arrivals == init + [last];
    if init == [] {
      assert Deliver(replica, h, init) == replica;
      MergeOfComplete(replica, h[last]);
    } else {
      Converges(replica, h, init, id, first);
      assert Latest(init) in init;
      MergeOfComplete(h[Latest(init)], h[last]);
    }
  }

  lemma MergeOfComplete(a: Snapshot, b: Snapshot)
    requires a.Keys == b.Keys
    ensures Merge(a, b) == b
  {
  }

  /** The same for what a runtime publishes: the renderer ends up with the runtime's snapshot of the last
      update it has heard of. */
  lemma RendererConverges(replica: Snapshot, r: Runtime, changes: seq<Change>, arrivals: seq<nat>)
    requires Complete(Published(r, changes), replica.Keys) && Get(replica, GovernorId) != Text(r.id)
    requires arrivals != [] && Within(arrivals, |changes|)
    ensures |Published(r, changes)| == |changes|
    ensures Deliver(replica, Published(r, changes), arrivals) == Published(r, changes)[Latest(arrivals)]
  {
    PublishedIsNumbered(r, changes);
    Converges(replica, Published(r, changes), arrivals, r.id, r.nextSequence);
  }

  /** From one governor the replica's sequence id never goes down. */
  lemma NeverGoesBack(replica: Snapshot, incoming: Snapshot)
    requires SameGovernor(replica, incoming) && Get(replica, GovernorSequenceId).Num?
    ensures var after := Get(Applied(replica, incoming), GovernorSequenceId);
            after.Num? && Get(replica, GovernorSequenceId).number <= after.number
  {
  }

  /** Between numbered snapshots of one governor exactly the newer ones are merged in; a snapshot of another
      governor always is. */
  lemma AppliedExactly(replica: Snapshot, incoming: Snapshot)
    requires Get(replica, GovernorSequenceId).Num? && Get(incoming, GovernorSequenceId).Num?
    ensures Applied(replica, incoming)
         == if SameGovernor(replica, incoming)
               && Get(incoming, GovernorSequenceId).number <= Get(replica, GovernorSequenceId).number
            then replica else Merge(replica, incoming)
  {
  }
}
