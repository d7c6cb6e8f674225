/** How often a nonce and timestamp can be accepted, v1 frames included, although the core forgets nonces. */
module IpcReplays {
  import opened Text
  import opened ReplayCache
  import opened ReplayFloods
  import opened Wrappers
  import opened IpcFrames
  import opened IpcAuth
  import opened IpcChannel

  // ---------------------------------------------------------------- runs that never trim

  /** The delivery finds room for its nonce among the recent ones. */
  ghost predicate FindsRoom(c: Channel, e: Event)
    requires e.Deliver?
  {
    |Accept(c.auth.seenNonces, Use(e.frame.nonce, e.frame.timestampMs), e.now, MAX_CLOCK_SKEW_MS)| <= MAX_REPLAY_ENTRIES
  }

  /** No acceptance in the run found more than 4096 recent nonces to keep. */
  ghost predicate NeverTrims(sign: Signer, check: MacCheck, start: nat, events: seq<Event>) {
    events == []
    || (var before, e := events[..|events| - 1], events[|events| - 1];
        && NeverTrims(sign, check, start, before)
        && (e.Deliver? ==> FindsRoom(Run(sign, check, start, before), e)))
  }

  predicate Remembered(c: Channel) {
    && Remembers(c.auth.seenNonces, UsesOf(c.accepted), c.clock, MAX_CLOCK_SKEW_MS)
    && NoRepeats(UsesOf(c.accepted))
  }

  lemma ReceiveRemembers(v: Verdict, c: Channel, f: Frame, now: U64)
    requires Remembered(c) && c.clock <= now
    requires |Accept(c.auth.seenNonces, Use(f.nonce, f.timestampMs), now, MAX_CLOCK_SKEW_MS)| <= MAX_REPLAY_ENTRIES
    ensures Remembered(Receive(v, c, f, now))
  {
    if VerifyStep(v, c.auth, f, REQUEST, now).error.None? {
      var u := Use(f.nonce, f.timestampMs);
      AcceptIsSafe(c.auth.seenNonces, UsesOf(c.accepted), c.clock, u, now, MAX_CLOCK_SKEW_MS, MAX_CLOCK_SKEW_MS);
      assert UsesOf(c.accepted + [f]) == UsesOf(c.accepted) + [u];
    }
  }

  /** In runs that never trim the cache to its capacity, no nonce and timestamp are accepted twice,
      for v1 frames as for v2 frames, although nonces are forgotten after 30 seconds. */
  lemma {:induction false} ForgettingIsSafe(sign: Signer, check: MacCheck, start: nat, events: seq<Event>)
    requires ClockMoves(events) && NeverTrims(sign, check, start, events)
    ensures Remembered(Run(sign, check, start, events))
    decreases |events|
  {
    if events != [] {
      var before := events[..|events| - 1];
      var e := events[|events| - 1];
      ForgettingIsSafe(sign, check, start, before);
      if e.Deliver? {
        ClockBeforeLast(sign, check, start, events);
      }
      NextRemembers(sign, check, Run(sign, check, start, before), e);
    }
  }

  lemma NextRemembers(sign: Signer, check: MacCheck, c: Channel, e: Event)
    requires Remembered(c) && (e.Deliver? ==> c.clock <= e.now && FindsRoom(c, e))
    ensures Remembered(Next(sign, check, c, e))
  {
    if e.Deliver? {
      ReceiveRemembers(Judge(check, e.frame), c, e.frame, e.now);
    }
  }

  // ---------------------------------------------------------------- all runs

  predicate TooOld(u: Use, clock: U64) {
    SaturatingSub(clock, u.timestamp) > MAX_CLOCK_SKEW_MS
  }

  predicate Holds(seen: Cache, u: Use) {
    u.nonce in seen && seen[u.nonce] == u.timestamp
  }

  function Entries(seen: Cache): set<Use> {
    set n | n in seen :: Use(n, seen[n])
  }

  lemma {:induction false} CountEntries(seen: Cache)
    ensures |Entries(seen)| == |seen|
    decreases |seen|
  {
    if seen == map[] {
      assert Entries(seen) == {};
    } else {
      var n :| n in seen;
      var rest := seen - {n};
      assert seen.Keys == rest.Keys + {n};
      CountEntries(rest);
      assert Entries(seen) == Entries(rest) + {Use(n, seen[n])};
    }
  }

  /** Every use accepted so far is still cached, too old to be accepted again, or flooded out. */
  predicate RemembersOrFlooded(seen: Cache, uses: seq<Use>, clock: U64) {
    && (forall n | n in seen :: Use(n, seen[n]) in uses)
    && forall u <- uses :: Holds(seen, u) || TooOld(u, clock) || Flooded(uses, u, MAX_REPLAY_ENTRIES)
  }

  lemma EvictedIsFlooded(recent: Cache, uses: seq<Use>, u: Use)
    requires Holds(recent, u) && !Holds(TrimToCapacity(recent), u)
    requires forall n | n in recent :: Use(n, recent[n]) in uses
    ensures Flooded(uses, u, MAX_REPLAY_ENTRIES)
  {
    var kept := TrimToCapacity(recent);
    TrimEvictsOldest(recent);
    CountEntries(kept);
    FullCacheFloods(Entries(kept), uses, u, MAX_REPLAY_ENTRIES);
  }

  lemma AcceptRemembers(seen: Cache, uses: seq<Use>, clock: U64, x: Use, now: U64)
    requires RemembersOrFlooded(seen, uses, clock) && clock <= now && x.nonce !in seen
    ensures RemembersOrFlooded(TrimToCapacity(Accept(seen, x, now, MAX_CLOCK_SKEW_MS)), uses + [x], now)
  {
    var recent := Accept(seen, x, now, MAX_CLOCK_SKEW_MS);
    var kept := TrimToCapacity(recent);
    TrimEvictsOldest(recent);
    forall u | u in uses + [x]
      ensures Holds(kept, u) || TooOld(u, now) || Flooded(uses + [x], u, MAX_REPLAY_ENTRIES)
    {
      if Holds(recent, u) {
        if !Holds(kept, u) {
          EvictedIsFlooded(recent, uses + [x], u);
        }
      } else {
        LeftBehind(seen, uses, clock, x, now, u);
      }
    }
  }

  /** What an acceptance does not keep among the recent uses was too old or flooded out already. */
  lemma LeftBehind(seen: Cache, uses: seq<Use>, clock: U64, x: Use, now: U64, u: Use)
    requires RemembersOrFlooded(seen, uses, clock) && clock <= now && x.nonce !in seen && u in uses + [x]
    requires !Holds(Accept(seen, x, now, MAX_CLOCK_SKEW_MS), u)
    ensures TooOld(u, now) || Flooded(uses + [x], u, MAX_REPLAY_ENTRIES)
  {
    if u in uses && !Holds(seen, u) && !TooOld(u, clock) {
      FloodStays(uses, u, x, MAX_REPLAY_ENTRIES);
    }
  }

  predicate FloodGuarded(c: Channel) {
    && RemembersOrFlooded(c.auth.seenNonces, UsesOf(c.accepted), c.clock)
    && ReplaysOnlyAfterFlood(UsesOf(c.accepted), MAX_REPLAY_ENTRIES)
  }

  lemma ReceiveIsGuarded(v: Verdict, c: Channel, f: Frame, now: U64)
    requires FloodGuarded(c) && c.clock <= now
    ensures FloodGuarded(Receive(v, c, f, now))
  {
    var x := Use(f.nonce, f.timestampMs);
    if VerifyStep(v, c.auth, f, REQUEST, now).error.None? {
      assert UsesOf(c.accepted + [f]) == UsesOf(c.accepted) + [x];
      AcceptRemembers(c.auth.seenNonces, UsesOf(c.accepted), c.clock, x, now);
      AnotherUse(UsesOf(c.accepted), x, MAX_REPLAY_ENTRIES);
    } else {
      RefusalKeepsState(v, c.auth, f, REQUEST, now);
    }
  }

  lemma NextIsGuarded(sign: Signer, check: MacCheck, c: Channel, e: Event)
    requires FloodGuarded(c) && (e.Deliver? ==> c.clock <= e.now)
    ensures FloodGuarded(Next(sign, check, c, e))
  {
    if e.Deliver? {
      ReceiveIsGuarded(Judge(check, e.frame), c, e.frame, e.now);
    }
  }

  /** In every run, v1 frames included: a nonce and timestamp are accepted again only after at least 4096
      others that are no older have been accepted. */
  lemma {:induction false} ReplayNeedsFlood(sign: Signer, check: MacCheck, start: nat, events: seq<Event>)
    requires ClockMoves(events)
    ensures FloodGuarded(Run(sign, check, start, events))
    decreases |events|
  {
    if events != [] {
      var before, e := events[..|events| - 1], events[|events| - 1];
      ReplayNeedsFlood(sign, check, start, before);
      if e.Deliver? {
        ClockBeforeLast(sign, check, start, events);
      }
      NextIsGuarded(sign, check, Run(sign, check, start, before), e);
    }
  }

  // ---------------------------------------------------------------- and no longer

  /** What is remembered was not too old when the last frame was accepted. */
  predicate NothingStale(seen: Cache, acceptedAt: seq<U64>) {
    forall n | n in seen :: acceptedAt != [] && SaturatingSub(acceptedAt[|acceptedAt| - 1], seen[n]) <= MAX_CLOCK_SKEW_MS
  }

  lemma AcceptanceForgets(seen: Cache, u: Use, acceptedAt: seq<U64>, now: U64)
    ensures NothingStale(TrimToCapacity(Accept(seen, u, now, MAX_CLOCK_SKEW_MS)), acceptedAt + [now])
  {
    TrimEvictsOldest(Accept(seen, u, now, MAX_CLOCK_SKEW_MS));
    assert (acceptedAt + [now])[|acceptedAt|] == now;
  }

  lemma NoncesOfReceive(v: Verdict, c: Channel, f: Frame, now: U64)
    ensures var after := Receive(v, c, f, now);
            || (after.auth.seenNonces == c.auth.seenNonces && after.acceptedAt == c.acceptedAt)
            || (after.auth.seenNonces
                == TrimToCapacity(Accept(c.auth.seenNonces, Use(f.nonce, f.timestampMs), now, MAX_CLOCK_SKEW_MS))
                && after.acceptedAt == c.acceptedAt + [now])
  {
    if VerifyStep(v, c.auth, f, REQUEST, now).error.Some? {
      RefusalKeepsState(v, c.auth, f, REQUEST, now);
    }
  }

  lemma OthersReceiveNothing(sign: Signer, check: MacCheck, c: Channel, e: Event)
    requires !e.Deliver?
    ensures var after := Next(sign, check, c, e); after.auth == c.auth && after.acceptedAt == c.acceptedAt
  {
  }

  lemma NextHasNothingStale(sign: Signer, check: MacCheck, c: Channel, e: Event)
    requires NothingStale(c.auth.seenNonces, c.acceptedAt)
    ensures var after := Next(sign, check, c, e); NothingStale(after.auth.seenNonces, after.acceptedAt)
  {
    if e.Deliver? {
      NoncesOfReceive(Judge(check, e.frame), c, e.frame, e.now);
      AcceptanceForgets(c.auth.seenNonces, Use(e.frame.nonce, e.frame.timestampMs), c.acceptedAt, e.now);
    } else {
      OthersReceiveNothing(sign, check, c, e);
    }
  }

  /** In every run a nonce is forgotten once it is older than 30 seconds: with the law above, the nonces
      remembered are those of the accepted frames that are not, as long as there is room. */
  lemma {:induction false} OldNoncesAreForgotten(sign: Signer, check: MacCheck, start: nat, events: seq<Event>)
    ensures var c := Run(sign, check, start, events); NothingStale(c.auth.seenNonces, c.acceptedAt)
    decreases |events|
  {
    if events != [] {
      OldNoncesAreForgotten(sign, check, start, events[..|events| - 1]);
      NextHasNothingStale(sign, check, Run(sign, check, start, events[..|events| - 1]), events[|events| - 1]);
    }
  }
}
