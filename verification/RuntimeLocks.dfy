/** The two locks on the runtime snapshot over whole sequences of updates. */
module RuntimeLocks {
  import opened Snapshots
  import opened StateGovernor
  import opened RuntimeModel

  datatype Change = Change(patch: Patch, options: Options)

  function UpdateAll(r: Runtime, changes: seq<Change>): Runtime
    decreases |changes|
  {
    if changes == [] then r else UpdateAll(Update(r, changes[0].patch, changes[0].options), changes[1..])
  }

  predicate Confirmed(r: Runtime) {
    Get(r.snapshot, SessionState) == Text(EXAM_RUNNING_CONFIRMED)
  }

  // ---------------------------------------------------------------- the confirmed exam

  /** The lock only looks at a requested state that is a non-empty string: a patch that names the state
      with any other value gets past it, unless the exit lock strips the field anyway. */
  predicate Slips(r: Runtime, c: Change) {
    && SessionState in c.patch
    && !(c.patch[SessionState].Text? && c.patch[SessionState].text != "")
    && (!Exiting(r) || c.options.allowExitFlowMutation)
  }

  /** One update without the override leaves the confirmed exam exactly when it slips past the lock. */
  lemma LockHoldsExactly(r: Runtime, c: Change)
    requires Confirmed(r) && !c.options.allowLockedStateOverride
    ensures Confirmed(Update(r, c.patch, c.options)) <==> !Slips(r, c)
  {
    StatesDiffer();
    var p, o, s := c.patch, c.options, r.snapshot;
    var after := Update(r, p, o).snapshot;
    var effective := EffectivePatch(s, p, o);
    assert Get(after, SessionState) == if SessionState in effective then effective[SessionState] else s[SessionState];
    if LockBlocks(s, RequestedState(Canonical(p)), o) {
      assert LockGuarded(s, p, o)[SessionState] == s[SessionState];
    } else {
      assert LockGuarded(s, p, o) == Canonical(p);
    }
  }

  predicate NeverLeaves(r: Runtime, changes: seq<Change>)
    decreases |changes|
  {
    Confirmed(r) && (changes == [] || NeverLeaves(Update(r, changes[0].patch, changes[0].options), changes[1..]))
  }

  predicate NeverSlips(r: Runtime, changes: seq<Change>)
    decreases |changes|
  {
    changes == []
    || (!Slips(r, changes[0]) && NeverSlips(Update(r, changes[0].patch, changes[0].options), changes[1..]))
  }

  /** Whole runs: without the override the confirmed exam is never left exactly if no update slips. */
  lemma {:induction false} ConfirmedExamIsLocked(r: Runtime, changes: seq<Change>)
    requires Confirmed(r) && forall c <- changes :: !c.options.allowLockedStateOverride
    ensures NeverLeaves(r, changes) <==> NeverSlips(r, changes)
    decreases |changes|
  {
    if changes != [] {
      LockHoldsExactly(r, changes[0]);
      if !Slips(r, changes[0]) {
        ConfirmedExamIsLocked(Update(r, changes[0].patch, changes[0].options), changes[1..]);
      }
    }
  }

  /** In particular whenever every patch names the state, if at all, by a non-empty string. */
  lemma {:induction false} ProperPatchesKeepTheExam(r: Runtime, changes: seq<Change>)
    requires Confirmed(r) && forall c <- changes :: !c.options.allowLockedStateOverride
    requires forall c <- changes :: SessionState in c.patch ==> c.patch[SessionState].Text? && c.patch[SessionState].text != ""
    ensures Confirmed(UpdateAll(r, changes))
    decreases |changes|
  {
    if changes != [] {
      LockHoldsExactly(r, changes[0]);
      ProperPatchesKeepTheExam(Update(r, changes[0].patch, changes[0].options), changes[1..]);
    }
  }

  /** Whoever passes a reported state on checks that it is a string, not that it is not empty: a monitor
      answer that reports the empty string ends the confirmed exam. */
  lemma EmptyReportEndsTheExam(r: Runtime, fields: Patch)
    requires Confirmed(r) && !Exiting(r)
    ensures var after := AfterAnswer(r, r.monitorGeneration, Succeeded(Text(""), fields));
            Get(after.snapshot, SessionState) == Text("") && !Confirmed(after)
  {
    LockHoldsExactly(r, Change(MonitorPatch(r, Text(""), fields), PLAIN));
  }

  /** Fields that neither the audio rule nor the exam mode nor the governor's stamp writes. */
  predicate LeftToThePatch(f: Field) {
    && !f.AudioLockActive? && !f.ExamMode? && !f.GovernorId? && !f.GovernorSequenceId?
    && !f.GovernorLockMode? && !f.GovernorEventQueueLength?
  }

  lemma StampedField(s: Snapshot, guarded: Patch, requested: Val, o: Options, examMode: Val, r: Runtime, mode: LockMode,
                     f: Field)
    requires LeftToThePatch(f)
    ensures Get(Stamp(Merge(s, AudioGuarded(guarded, requested, o))[ExamMode := examMode], r.id, r.nextSequence, mode, 0), f)
         == if f in guarded then guarded[f] else Get(s, f)
  {
  }

  lemma FieldOfUpdate(r: Runtime, p: Patch, o: Options, f: Field)
    requires LeftToThePatch(f)
    ensures var guarded := ExitGuarded(r.snapshot, LockGuarded(r.snapshot, p, o), o);
            Get(Update(r, p, o).snapshot, f) == if f in guarded then guarded[f] else Get(r.snapshot, f)
  {
    var guarded := ExitGuarded(r.snapshot, LockGuarded(r.snapshot, p, o), o);
    var requested := RequestedState(Canonical(p));
    var examMode := Get(NextSnapshot(r, p, o), ExamMode);
    StampedField(r.snapshot, guarded, requested, o, examMode, r, NextLock(r.lockMode, o), f);
    assert NextSnapshot(r, p, o) == Merge(r.snapshot, AudioGuarded(guarded, requested, o))[ExamMode := examMode];
  }

  lemma FrozenIsLeftToThePatch(f: Field)
    requires Frozen(f)
    ensures LeftToThePatch(f)
  {
  }

  /** A patch the lock blocks changes no field of the critical list. */
  lemma BlockedPatchIsHarmless(r: Runtime, p: Patch, o: Options, f: Field)
    requires LockBlocks(r.snapshot, RequestedState(Canonical(p)), o) && IsCritical(f)
    ensures Get(Update(r, p, o).snapshot, f) == Get(r.snapshot, f)
  {
    FrozenIsLeftToThePatch(f);
    FieldOfUpdate(r, p, o, f);
    var s := r.snapshot;
    var locked := LockGuarded(s, p, o);
    assert f in locked ==> locked[f] == Get(s, f) by {
      BlockedFields(s, p, f);
    }
    assert f in ExitGuarded(s, locked, o) ==> f in locked;
  }

  lemma BlockedFields(s: Snapshot, p: Patch, f: Field)
    requires IsCritical(f)
    ensures var blocked := WithoutCritical(p)[SessionState := Get(s, SessionState)][SafeExamMode := Get(s, SafeExamMode)]
                             [ExamProtectionActive := Get(s, ExamProtectionActive)][KioskActive := Get(s, KioskActive)]
                             [RuntimeMonitorActive := Get(s, RuntimeMonitorActive)];
            f in blocked ==> blocked[f] == Get(s, f)
  {
  }

  // ---------------------------------------------------------------- the exit lock

  predicate Frozen(f: Field) {
    IsCritical(f) || IsExitFlag(f)
  }

  lemma ExitLockFreezes(r: Runtime, p: Patch, o: Options, f: Field)
    requires Exiting(r) && !o.allowExitFlowMutation && Frozen(f)
    ensures Get(Update(r, p, o).snapshot, f) == Get(r.snapshot, f)
  {
    FrozenIsLeftToThePatch(f);
    FieldOfUpdate(r, p, o, f);
    assert f !in WithoutExitFlags(WithoutCritical(LockGuarded(r.snapshot, p, o)));
  }

  /** While an exit is in progress no sequence of updates without the exit-flow permission changes the
      session state, the three exit flags or any critical field. */
  lemma {:induction false} ExitIsLocked(r: Runtime, changes: seq<Change>, f: Field)
    requires Exiting(r) && Frozen(f) && forall c <- changes :: !c.options.allowExitFlowMutation
    ensures Exiting(UpdateAll(r, changes))
    ensures Get(UpdateAll(r, changes).snapshot, f) == Get(r.snapshot, f)
    decreases |changes|
  {
    if changes != [] {
      var c := changes[0];
      ExitLockFreezes(r, c.patch, c.options, f);
      ExitLockFreezes(r, c.patch, c.options, ExitInProgress);
      ExitIsLocked(Update(r, c.patch, c.options), changes[1..], f);
    }
  }

  // ---------------------------------------------------------------- the audio lock

  predicate AsksForTheExam(c: Change) {
    RequestedState(Canonical(c.patch)) == Text(EXAM_RUNNING_CONFIRMED)
  }

  lemma AudioAfterUpdate(r: Runtime, c: Change)
    requires !c.options.allowAudioLockMutation
    ensures Get(Update(r, c.patch, c.options).snapshot, AudioLockActive)
         == if AsksForTheExam(c) then Bool(true) else Get(r.snapshot, AudioLockActive)
  {
  }

  /** Without the audio permission the audio lock can only be set, by a patch that asks for the confirmed
      exam, and that even when the rest of the patch is stripped; it is never released. */
  lemma {:induction false} AudioLockOnlySetByTheExam(r: Runtime, changes: seq<Change>)
    requires forall c <- changes :: !c.options.allowAudioLockMutation
    ensures Get(UpdateAll(r, changes).snapshot, AudioLockActive)
         == if SomeAsks(changes) then Bool(true) else Get(r.snapshot, AudioLockActive)
    decreases |changes|
  {
    if changes != [] {
      AudioAfterUpdate(r, changes[0]);
      FirstOrLaterAsks(changes);
      AudioLockOnlySetByTheExam(Update(r, changes[0].patch, changes[0].options), changes[1..]);
    }
  }

  predicate SomeAsks(changes: seq<Change>) {
    exists c <- changes :: AsksForTheExam(c)
  }

  lemma FirstOrLaterAsks(changes: seq<Change>)
    requires changes != []
    ensures SomeAsks(changes) <==> AsksForTheExam(changes[0]) || SomeAsks(changes[1..])
  {
    assert changes == [changes[0]] + changes[1..];
  }

  // ---------------------------------------------------------------- sequence ids

  /** Every update publishes a snapshot under the next sequence id. */
  lemma {:induction false} UpdatesAreNumbered(r: Runtime, changes: seq<Change>)
    ensures UpdateAll(r, changes).nextSequence == r.nextSequence + |changes|
    ensures changes != [] ==> Get(UpdateAll(r, changes).snapshot, GovernorSequenceId) == Num(r.nextSequence + |changes| - 1)
    ensures changes != [] ==> Get(UpdateAll(r, changes).snapshot, GovernorId) == Text(r.id)
    ensures UpdateAll(r, changes).id == r.id
    decreases |changes|
  {
    if changes != [] {
      UpdatesAreNumbered(Update(r, changes[0].patch, changes[0].options), changes[1..]);
    }
  }
}
