/**
 What an update of the runtime snapshot does to every single field, and so what its locks leave alone:
 a field is kept, or it is the patch's, or it belongs to the audio rule, the exam mode or the governor.
 */
module SnapshotLaws {
  import opened Snapshots
  import opened StateGovernor
  import opened RuntimeModel
  import opened RuntimeLocks

  /** The exit lock keeps what is frozen, the exam lock what is critical. */
  predicate KeptByLocks(r: Runtime, p: Patch, o: Options, f: Field) {
    || (Exiting(r) && !o.allowExitFlowMutation && Frozen(f))
    || (LockBlocks(r.snapshot, RequestedState(Canonical(p)), o) && IsCritical(f))
  }

  /** What the patch asks for; the legacy state counts as the confirmed one. */
  function Asked(p: Patch, f: Field): Val
    requires f in p
  {
    if f.SessionState? && p[f] == Text(EXAM_RUNNING) then Text(EXAM_RUNNING_CONFIRMED) else p[f]
  }

  lemma UnblockedField(r: Runtime, p: Patch, o: Options, f: Field)
    requires LeftToThePatch(f) && !KeptByLocks(r, p, o, f)
    ensures var guarded := ExitGuarded(r.snapshot, LockGuarded(r.snapshot, p, o), o);
            if f in p then f in guarded && guarded[f] == Asked(p, f) else f !in guarded
  {
    var s := r.snapshot;
    var locked := LockGuarded(s, p, o);
    if LockBlocks(s, RequestedState(Canonical(p)), o) {
      assert !IsCritical(f);
    }
    assert if f in p then f in locked && locked[f] == Asked(p, f) else f !in locked;
  }

  /** Every field a lock does not keep is the patch's if the patch names it, and otherwise unchanged. */
  lemma PatchLandsExactly(r: Runtime, p: Patch, o: Options, f: Field)
    requires LeftToThePatch(f)
    ensures Get(Update(r, p, o).snapshot, f)
         == if KeptByLocks(r, p, o, f) || f !in p then Get(r.snapshot, f) else Asked(p, f)
  {
    if KeptByLocks(r, p, o, f) {
      if LockBlocks(r.snapshot, RequestedState(Canonical(p)), o) && IsCritical(f) {
        BlockedPatchIsHarmless(r, p, o, f);
      } else {
        ExitLockFreezes(r, p, o, f);
      }
    } else {
      UnblockedField(r, p, o, f);
      FieldOfUpdate(r, p, o, f);
    }
  }

  /** In particular nothing uncritical is ever held back: not during an exit, and not beside a blocked state. */
  lemma UncriticalFieldsAlwaysLand(r: Runtime, p: Patch, o: Options, f: Field)
    requires LeftToThePatch(f) && !Frozen(f) && f in p
    ensures Get(Update(r, p, o).snapshot, f) == p[f]
  {
    PatchLandsExactly(r, p, o, f);
  }

  /** The other fields of a snapshot have rules of their own. */
  lemma RuledFields(r: Runtime, p: Patch, o: Options)
    ensures var after := Update(r, p, o);
            && Get(after.snapshot, AudioLockActive)
            == (if AsksForTheExam(Change(p, o)) then Bool(true)
                else if o.allowAudioLockMutation && AudioLockActive in p then p[AudioLockActive]
                else Get(r.snapshot, AudioLockActive))
            && Get(after.snapshot, ExamMode) == (if Nullish(Get(p, ExamMode)) then r.activeExamMode else p[ExamMode])
            && Get(after.snapshot, GovernorId) == Text(r.id)
            && Get(after.snapshot, GovernorSequenceId) == Num(r.nextSequence)
            && Get(after.snapshot, GovernorEventQueueLength) == Num(0)
            && Get(after.snapshot, GovernorLockMode) == LockValue(after.lockMode)
  {
    AudioRule(r, p, o);
    ExamModeRule(r, p, o);
  }

  lemma AudioRule(r: Runtime, p: Patch, o: Options)
    ensures Get(Update(r, p, o).snapshot, AudioLockActive)
         == (if AsksForTheExam(Change(p, o)) then Bool(true)
             else if o.allowAudioLockMutation && AudioLockActive in p then p[AudioLockActive]
             else Get(r.snapshot, AudioLockActive))
  {
    var guarded := ExitGuarded(r.snapshot, LockGuarded(r.snapshot, p, o), o);
    assert AudioLockActive in guarded <==> AudioLockActive in p;
    assert AudioLockActive in p ==> guarded[AudioLockActive] == p[AudioLockActive];
  }

  lemma ExamModeRule(r: Runtime, p: Patch, o: Options)
    ensures Get(Update(r, p, o).snapshot, ExamMode) == if Nullish(Get(p, ExamMode)) then r.activeExamMode else p[ExamMode]
  {
    var guarded := ExitGuarded(r.snapshot, LockGuarded(r.snapshot, p, o), o);
    assert ExamMode in guarded <==> ExamMode in p;
    assert ExamMode in p ==> guarded[ExamMode] == p[ExamMode];
    assert Get(EffectivePatch(r.snapshot, p, o), ExamMode) == Get(p, ExamMode);
  }

  /** Nothing but the snapshot, the lock and the sequence changes. */
  lemma UpdateTouchesNothingElse(r: Runtime, p: Patch, o: Options)
    ensures var after := Update(r, p, o);
            && after == r.(snapshot := after.snapshot, lockMode := after.lockMode, nextSequence := r.nextSequence + 1)
            && after.lockMode
            == (if o.unlockAfterApply then Unlocked else if o.lock.Set? then o.lock.mode else r.lockMode)
  {
  }
}
