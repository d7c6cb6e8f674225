/** In which order the governor decides its events, and what applying one shows. */
module GovernorOrder {
  import opened Snapshots
  import opened StateGovernor
  import opened GovernorLaws

  // ---------------------------------------------------------------- the order

  /** What is queued was submitted after everything applied so far, in the order of the queue. */
  predicate QueueFollows(s: State, floor: nat) {
    && floor <= s.tickets
    && (forall i | 0 <= i < |s.queue| :: floor <= s.queue[i].ticket < s.tickets)
    && (forall i, j | 0 <= i < j < |s.queue| :: s.queue[i].ticket < s.queue[j].ticket)
  }

  predicate AppliedInOrder(log: seq<LogEntry>, floor: nat) {
    && (forall i | 0 <= i < |log| && log[i].outcome.Accepted? :: log[i].ticket < floor)
    && (forall i, j | 0 <= i < j < |log| && log[i].outcome.Accepted? && log[j].outcome.Accepted? ::
          log[i].ticket < log[j].ticket)
  }

  predicate InOrder(s: State, floor: nat) {
    QueueFollows(s, floor) && AppliedInOrder(s.log, floor)
  }

  lemma NestedStaysInOrder(s: State, c: Call, floor: nat)
    requires InOrder(s, floor)
    ensures InOrder(Nested(s, c), floor)
  {
  }

  lemma {:induction false} NestedAllStaysInOrder(s: State, calls: seq<Call>, floor: nat)
    requires InOrder(s, floor)
    ensures InOrder(NestedAll(s, calls), floor)
    decreases |calls|
  {
    if calls != [] {
      NestedStaysInOrder(s, calls[0], floor);
      NestedAllStaysInOrder(Nested(s, calls[0]), calls[1..], floor);
    }
  }

  lemma ReduceStaysInOrder(s: State, q: Queued)
    requires InOrder(s, q.ticket + 1) && AppliedInOrder(s.log, q.ticket)
    ensures InOrder(ReduceEvent(s, q), q.ticket + 1)
  {
    var e := q.event;
    var called := NestedAll(Locked(s, e), e.whileReducing);
    NestedAllStaysInOrder(Locked(s, e), e.whileReducing, q.ticket + 1);
    CallsAcceptNothing(Locked(s, e), e.whileReducing, q.ticket);
    var mode := if e.unlockAfterApply then Unlocked else called.lockMode;
    var applied := called.(
      lockMode := mode,
      snapshot := Stamp(Reduced(e.reducer, s.snapshot), s.id, e.sequenceId, mode, |called.queue|),
      lastApplied := e.sequenceId,
      log := called.log + [LogEntry(q.ticket, e.sequenceId, Accepted)]);
    NestedAllStaysInOrder(applied, e.onApplied, q.ticket + 1);
  }

  lemma {:induction false} CallsAcceptNothing(s: State, calls: seq<Call>, floor: nat)
    requires AppliedInOrder(s.log, floor)
    ensures AppliedInOrder(NestedAll(s, calls).log, floor)
    decreases |calls|
  {
    if calls != [] {
      CallsAcceptNothing(Nested(s, calls[0]), calls[1..], floor);
    }
  }

  /** A turn of the drain loop takes the event that was submitted first. */
  lemma DrainStepStaysInOrder(s: State, floor: nat)
    requires InOrder(s, floor) && s.queue != []
    ensures InOrder(DrainStep(s), s.queue[0].ticket + 1)
  {
    var q := s.queue[0];
    var popped := s.(queue := s.queue[1..]);
    assert InOrder(popped, q.ticket + 1);
    if q.event.sequenceId > s.lastApplied {
      ReduceStaysInOrder(popped, q);
    }
  }

  lemma {:induction false} DrainStaysInOrder(s: State, floor: nat) returns (later: nat)
    requires InOrder(s, floor)
    ensures InOrder(Drain(s), later)
    decreases QueueSize(s.queue)
  {
    later := floor;
    if s.queue != [] {
      DrainStepSize(s);
      DrainStepStaysInOrder(s, floor);
      later := DrainStaysInOrder(DrainStep(s), s.queue[0].ticket + 1);
    }
  }

  lemma {:induction false} RunStaysInOrder(id: string, snapshot: Snapshot, calls: seq<Call>) returns (floor: nat)
    ensures InOrder(Run(id, snapshot, calls), floor)
    decreases |calls|
  {
    if calls == [] {
      floor := 0;
    } else {
      var n := |calls| - 1;
      var before := RunStaysInOrder(id, snapshot, calls[..n]);
      var s := Run(id, snapshot, calls[..n]);
      NestedStaysInOrder(s, calls[n], before);
      floor := DrainStaysInOrder(Nested(s, calls[n]), before);
    }
  }

  /** In every run, with whatever callbacks submit in between, events are applied in the order in which they
      were submitted. */
  lemma AppliedAsSubmitted(id: string, snapshot: Snapshot, calls: seq<Call>, i: nat, j: nat)
    requires var log := Run(id, snapshot, calls).log;
             i < j < |log| && log[i].outcome.Accepted? && log[j].outcome.Accepted?
    ensures var log := Run(id, snapshot, calls).log; log[i].ticket < log[j].ticket
  {
    var floor := RunStaysInOrder(id, snapshot, calls);
  }

  // ---------------------------------------------------------------- what applying an event shows

  predicate IsGovernorField(f: Field) {
    f.GovernorId? || f.GovernorSequenceId? || f.GovernorLockMode? || f.GovernorEventQueueLength?
  }

  /** What the first event of the queue does: a stale one nothing, any other exactly what its reducer, its
      lock request and its id say, whatever its callbacks call. */
  lemma TurnShowsTheEvent(s: State, f: Field)
    requires s.queue != [] && !IsGovernorField(f)
    ensures var e := s.queue[0].event;
            var after := DrainStep(s);
            if e.sequenceId <= s.lastApplied then
              after.snapshot == s.snapshot && after.lockMode == s.lockMode && after.lastApplied == s.lastApplied
            else
              && Get(after.snapshot, f) == Get(Reduced(e.reducer, s.snapshot), f)
              && after.lastApplied == e.sequenceId
              && after.lockMode
              == (if e.unlockAfterApply then Unlocked else if e.lock.Set? then e.lock.mode else s.lockMode)
  {
    if s.queue[0].event.sequenceId > s.lastApplied {
      ReducingShowsTheEvent(s.(queue := s.queue[1..]), s.queue[0]);
      UnstampedField(Reduced(s.queue[0].event.reducer, s.snapshot), f);
    }
  }

  lemma UnstampedField(s: Snapshot, f: Field)
    requires !IsGovernorField(f)
    ensures forall id, sequenceId, m, n :: Get(Stamp(s, id, sequenceId, m, n), f) == Get(s, f)
  {
  }

  lemma ReducingShowsTheEvent(s: State, q: Queued)
    ensures var e := q.event;
            var after := ReduceEvent(s, q);
            && after.lastApplied == e.sequenceId
            && after.lockMode == (if e.unlockAfterApply then Unlocked else if e.lock.Set? then e.lock.mode else s.lockMode)
            && exists n :: after.snapshot == Stamp(Reduced(e.reducer, s.snapshot), s.id, e.sequenceId, after.lockMode, n)
  {
    var e := q.event;
    var called := NestedAll(Locked(s, e), e.whileReducing);
    CallsKeepAppliedState(Locked(s, e), e.whileReducing);
    var mode := if e.unlockAfterApply then Unlocked else called.lockMode;
    var stamped := Stamp(Reduced(e.reducer, s.snapshot), s.id, e.sequenceId, mode, |called.queue|);
    var applied := called.(
      lockMode := mode, snapshot := stamped, lastApplied := e.sequenceId,
      log := called.log + [LogEntry(q.ticket, e.sequenceId, Accepted)]);
    CallsKeepAppliedState(applied, e.onApplied);
    assert ReduceEvent(s, q) == NestedAll(applied, e.onApplied);
  }

  /** A patch event: every field it names takes its value, every other keeps its own. */
  lemma PatchReducerLands(p: Patch, s: Snapshot, f: Field)
    ensures Get(Reduced(ApplyPatch(p), s), f) == if f in p then p[f] else Get(s, f)
  {
  }

  /** Audio is held exactly outside the restored and muted states: under the exit lock, with the audio lock
      on, while entering the kiosk and while an exit is requested. */
  lemma AudioHeldExactly(s: State, target: Snapshot)
    ensures var session := Get(target, SessionState);
            GetAudioState(s, target).Hold? <==>
              && session != Text(EXAM_EXITING) && session != Text(EXITED)
              && (s.lockMode.ExitLock?
                  || (session != Text(EXAM_RUNNING_CONFIRMED)
                      && (Truthy(Get(target, AudioLockActive))
                          || session == Text(ENTERING_KIOSK) || session == Text(EXAM_EXIT_REQUESTED))))
  {
    StatesDiffer();
  }
}
