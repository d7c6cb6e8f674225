/**
 What each step of the exit flow leaves in the snapshot, field by field: the sidecar's answer and the
 restores land, the exit's own fields take their values, and everything else stays as it was.
 */
module ExitPatches {
  import opened Snapshots
  import opened StateGovernor
  import opened RuntimeModel
  import opened RuntimeLocks
  import opened SnapshotLaws
  import opened ExitFlow

  /** A field that a patch of the flow carries along: none of the exit's own and none of the governor's. */
  predicate Carried(r: Runtime, f: Field) {
    LeftToThePatch(f) && !IsKey(f) && f !in GovernorStatus(r.validation)
  }

  /** The fields the exited state resets besides the keys. */
  predicate ResetByExit(f: Field) {
    f.SafeExamMode? || f.KioskHandoffCompleted? || f.RuntimeMonitorActive?
  }

  /** The exit's own patches are held back by no lock. */
  lemma ExitPatchIsNotBlocked(r: Runtime, p: Patch, o: Options, f: Field)
    requires o.allowLockedStateOverride && o.allowExitFlowMutation && LeftToThePatch(f)
    ensures Get(Update(r, p, o).snapshot, f) == if f in p then Asked(p, f) else Get(r.snapshot, f)
  {
    PatchLandsExactly(r, p, o, f);
  }

  lemma GovernorPatchLands(r: Runtime, p: Patch, o: Options, f: Field)
    requires o.allowLockedStateOverride && LeftToThePatch(f) && f !in GovernorStatus(r.validation)
    ensures Get(GovernorPatch(r, p, o).snapshot, f) == if f in p then Asked(p, f) else Get(r.snapshot, f)
  {
    ExitPatchIsNotBlocked(r, Merge(GovernorStatus(r.validation), p), o.(allowExitFlowMutation := true), f);
  }

  // ---------------------------------------------------------------- the patches themselves

  lemma FieldsOfExitFlags(on: bool, state: string, f: Field)
    ensures f in ExitFlags(on, state) <==> f.SessionState? || IsExitFlag(f)
    ensures f in ExitFlags(on, state) ==> ExitFlags(on, state)[f] == if f.SessionState? then Text(state) else Bool(on)
  {
  }

  function FinalPatch(fields: Patch): Patch {
    Merge(fields, ExitFlags(false, EXITED)[AudioLockActive := Bool(false)])
  }

  lemma FieldsOfFinalPatch(fields: Patch, f: Field)
    requires !IsKey(f)
    ensures f in FinalPatch(fields) <==> f in fields
    ensures f in fields ==> FinalPatch(fields)[f] == fields[f] == Asked(FinalPatch(fields), f)
  {
  }

  lemma FieldsOfExitedPatch(f: Field)
    requires LeftToThePatch(f)
    ensures f in ExitedPatch() <==> IsKey(f) || ResetByExit(f)
    ensures f in ExitedPatch() ==>
              ExitedPatch()[f] == Asked(ExitedPatch(), f) == if f.SessionState? then Text(EXITED) else Bool(false)
  {
    StatesDiffer();
    FieldsOfExitFlags(false, EXITED, f);
  }

  lemma StateOfExitFlags(on: bool, state: string, f: Field)
    requires state != EXAM_RUNNING && f in ExitFlags(on, state)
    ensures Asked(ExitFlags(on, state), f) == if f.SessionState? then Text(state) else Bool(on)
  {
    FieldsOfExitFlags(on, state, f);
  }

  lemma SettlingKeepsSnapshot(r: Runtime)
    ensures SettleIfExited(r).snapshot == r.snapshot
  {
  }

  // ---------------------------------------------------------------- answers and restores

  /** The final patch of an acknowledged exit: every field of the answer and of its restore lands. */
  lemma AcknowledgedExitLands(r: Runtime, fields: Patch, f: Field)
    requires LeftToThePatch(f) && !IsKey(f)
    ensures Get(EndAcknowledged(r, fields).snapshot, f) == if f in fields then fields[f] else Get(r.snapshot, f)
  {
    var o := EXPLICIT.(unlockAfterApply := true);
    FieldsOfFinalPatch(fields, f);
    ExitPatchIsNotBlocked(r, FinalPatch(fields), o, f);
    SettlingKeepsSnapshot(Update(r, FinalPatch(fields), o));
  }

  lemma AnswerWithoutDataLands(r: Runtime, fields: Patch, f: Field)
    requires LeftToThePatch(f)
    ensures Get(AcknowledgedWithoutData(r, fields).snapshot, f)
         == if f in fields then Asked(fields, f) else Get(r.snapshot, f)
  {
    ExitPatchIsNotBlocked(r, fields, EXPLICIT, f);
  }

  lemma EnteringKeepsCarried(r: Runtime, f: Field)
    requires Carried(r, f)
    ensures Get(MarkExiting(r).snapshot, f) == Get(r.snapshot, f)
    ensures MarkExiting(r).validation == r.validation
  {
    FieldsOfExitFlags(true, EXAM_EXITING, f);
    GovernorPatchLands(r, ExitFlags(true, EXAM_EXITING), PLAIN.(allowLockedStateOverride := true), f);
  }

  /** Entering the exited state resets its own fields and carries the others along. */
  lemma ExitedFields(r: Runtime, f: Field)
    requires LeftToThePatch(f) && f !in GovernorStatus(r.validation)
    ensures Get(MarkExited(r).snapshot, f)
         == if f.SessionState? then Text(EXITED)
            else if IsKey(f) || ResetByExit(f) then Bool(false)
            else Get(r.snapshot, f)
  {
    FieldsOfExitedPatch(f);
    var cleared := ClearExitFallbackTimers(r).(exitPreviousSessionState := Null);
    GovernorPatchLands(cleared, ExitedPatch(),
                       PLAIN.(allowAudioLockMutation := true, allowLockedStateOverride := true, unlockAfterApply := true), f);
  }

  /** The forced cleanup: what the restore reports lands, and without a restore nothing carried changes. */
  lemma ForcedCleanupLands(r: Runtime, visual: Patch, restored: bool, f: Field)
    requires Carried(r, f) && !ResetByExit(f)
    ensures Get(EndCleanup(r, visual, restored).snapshot, f)
         == if restored && f in visual then visual[f] else Get(r.snapshot, f)
  {
    var p := visual[RuntimeMonitorActive := Bool(false)][KioskHandoffCompleted := Bool(false)];
    var o := PLAIN.(allowAudioLockMutation := true, allowLockedStateOverride := true);
    if restored {
      GovernorPatchLands(r, p, o, f);
    }
    var shown := if restored then GovernorPatch(r, p, o) else r;
    ExitedFields(shown.(activeExamMode := Null), f);
  }

  // ---------------------------------------------------------------- steps of the flow

  /** What an answer or a restore that ends the exit brings with it. */
  function Brought(e: ExitEvent): Patch {
    match e
    case RustAcknowledges(needsVisual, fields) => if needsVisual then map[] else fields
    case VisualRestored(fields) => fields
    case CleanupResumes(visual, restored) => if restored then visual else map[]
    case _ => map[]
  }

  /** Whichever step ends the exit, what it brings stands in the snapshot afterwards, beside what was there. */
  lemma EndingStepLands(f: Flow, e: ExitEvent, x: Field)
    requires Enabled(f, e) && (e.RustAcknowledges? || e.VisualRestored? || e.CleanupResumes?)
    requires Carried(f.runtime, x) && !ResetByExit(x)
    ensures Get(Step(f, e).runtime.snapshot, x)
         == if x in Brought(e) then Brought(e)[x] else Get(f.runtime.snapshot, x)
  {
    match e {
      case RustAcknowledges(needsVisual, fields) =>
        EnteringKeepsCarried(StopMonitor(f.runtime).(activeExamMode := Null), x);
        AcknowledgedExitLands(BeginAcknowledged(f.runtime), fields, x);
      case VisualRestored(fields) => AcknowledgedExitLands(f.runtime, fields, x);
      case CleanupResumes(visual, restored) => ForcedCleanupLands(f.runtime, visual, restored, x);
    }
  }

  /** An ordinary exit: the kiosk its restore reports gone is gone in the snapshot when the exit is over. */
  lemma OrdinaryExitReleasesTheKiosk(f: Flow, fields: Patch)
    requires f.awaitingVisual > 0 && KioskActive in fields && fields[KioskActive] == Bool(false)
    ensures var after := Step(f, VisualRestored(fields)).runtime;
            Settled(after) && Get(after.snapshot, KioskActive) == Bool(false)
  {
    EndAcknowledgedSettles(f.runtime, fields);
    AcknowledgedExitLands(f.runtime, fields, KioskActive);
  }

  // ---------------------------------------------------------------- the exit's own states

  /** Requesting an exit: its state and flags, the exit lock, a timer of a new generation and a stopped monitor. */
  lemma RequestedExactly(r: Runtime, f: Field)
    requires LeftToThePatch(f) && f !in GovernorStatus(r.validation)
    ensures var after := MarkExitRequested(r);
            && Get(after.snapshot, f)
            == (if f.SessionState? then Text(EXAM_EXIT_REQUESTED)
                else if IsExitFlag(f) then Bool(true)
                else Get(r.snapshot, f))
            && after.lockMode == ExitLock && Get(after.snapshot, AudioLockActive) == Get(r.snapshot, AudioLockActive)
            && after.exitFlowGeneration == r.exitFlowGeneration + 1
            && after.exitForceCleanupTimer == Armed(r.exitFlowGeneration + 1)
            && after.exitAudioRestoreTimer == r.exitAudioRestoreTimer
            && !after.monitorTimerArmed && !after.monitorTickInFlight && after.monitorGeneration == r.monitorGeneration + 1
  {
    var begun := BeginExitGeneration(r);
    var o := PLAIN.(allowLockedStateOverride := true, lock := Set(ExitLock));
    StatesDiffer();
    FlagPatchLands(begun, EXAM_EXIT_REQUESTED, o, f);
    assert MarkExitRequested(r) == ScheduleForceCleanup(StopMonitor(GovernorPatch(begun, ExitFlags(true, EXAM_EXIT_REQUESTED), o)));
  }

  /** A patch of the exit's state and raised flags, under the governor's status. */
  lemma FlagPatchLands(r: Runtime, state: string, o: Options, f: Field)
    requires state != EXAM_RUNNING && state != EXAM_RUNNING_CONFIRMED
    requires o.allowLockedStateOverride && !o.allowAudioLockMutation
    requires LeftToThePatch(f) && f !in GovernorStatus(r.validation)
    ensures var after := GovernorPatch(r, ExitFlags(true, state), o);
            && Get(after.snapshot, f)
            == (if f.SessionState? then Text(state) else if IsExitFlag(f) then Bool(true) else Get(r.snapshot, f))
            && Get(after.snapshot, AudioLockActive) == Get(r.snapshot, AudioLockActive)
            && after == r.(snapshot := after.snapshot, lockMode := NextLock(r.lockMode, o), nextSequence := r.nextSequence + 1)
  {
    var p := Merge(GovernorStatus(r.validation), ExitFlags(true, state));
    FieldsOfExitFlags(true, state, f);
    if f in ExitFlags(true, state) {
      StateOfExitFlags(true, state, f);
    }
    GovernorPatchLands(r, ExitFlags(true, state), o, f);
    StateIsAsked(r.validation, state);
    AudioRule(r, p, o.(allowExitFlowMutation := true));
  }

  lemma StateIsAsked(v: Validation, state: string)
    requires state != EXAM_RUNNING && state != EXAM_RUNNING_CONFIRMED
    ensures RequestedState(Canonical(Merge(GovernorStatus(v), ExitFlags(true, state)))) == Text(state)
  {
  }

  /** The exiting state: its name and flags, and an audio timer of the present generation. */
  lemma ExitingExactly(r: Runtime, f: Field)
    requires LeftToThePatch(f) && f !in GovernorStatus(r.validation)
    ensures var after := MarkExiting(r);
            && Get(after.snapshot, f)
            == (if f.SessionState? then Text(EXAM_EXITING)
                else if IsExitFlag(f) then Bool(true)
                else Get(r.snapshot, f))
            && after.lockMode == r.lockMode && Get(after.snapshot, AudioLockActive) == Get(r.snapshot, AudioLockActive)
            && after.exitAudioRestoreTimer == Armed(r.exitFlowGeneration)
            && after.exitForceCleanupTimer == r.exitForceCleanupTimer
  {
    StatesDiffer();
    FlagPatchLands(r, EXAM_EXITING, PLAIN.(allowLockedStateOverride := true), f);
  }

  /** The audio timer releases the audio lock exactly while its own exit is still exiting, and does no more. */
  lemma AudioTimerReleasesExactly(r: Runtime, f: Field)
    requires r.exitAudioRestoreTimer.Armed? && LeftToThePatch(f)
    ensures var after := AudioTimerFires(r);
            var current := r.exitAudioRestoreTimer.generation == r.exitFlowGeneration;
            && Get(after.snapshot, f) == Get(r.snapshot, f)
            && Get(after.snapshot, AudioLockActive)
            == (if current && Get(r.snapshot, SessionState) == Text(EXAM_EXITING) && Truthy(Get(r.snapshot, AudioLockActive))
                then Bool(false) else Get(r.snapshot, AudioLockActive))
  {
    var fired := r.(exitAudioRestoreTimer := Idle);
    var o := PLAIN.(allowAudioLockMutation := true);
    PatchLandsExactly(fired, map[AudioLockActive := Bool(false)], o, f);
    RuledFields(fired, map[AudioLockActive := Bool(false)], o);
  }

  /** Every patch of the flow carries the governor's validation, unless it names these fields itself. */
  lemma StatusLands(r: Runtime, p: Patch, o: Options, f: Field)
    requires o.allowLockedStateOverride && f in GovernorStatus(r.validation) && f !in p
    ensures Get(GovernorPatch(r, p, o).snapshot, f)
         == if f == OtherField("stateGovernorLastValidation") then r.validation.record
            else if f == OtherField("stateGovernorSafeMode") then Bool(r.validation.safeMode)
            else Bool(r.validation.passed)
  {
    StatusFields(r.validation, f);
    ExitPatchIsNotBlocked(r, Merge(GovernorStatus(r.validation), p), o.(allowExitFlowMutation := true), f);
  }

  lemma StatusFields(v: Validation, f: Field)
    requires f in GovernorStatus(v)
    ensures LeftToThePatch(f) && !f.SessionState?
    ensures GovernorStatus(v)[f]
         == if f == OtherField("stateGovernorLastValidation") then v.record
            else if f == OtherField("stateGovernorSafeMode") then Bool(v.safeMode)
            else Bool(v.passed)
  {
    assert "stateGovernorReady"[13] != "stateGovernorSafeMode"[13] && "stateGovernorReady"[13] != "stateGovernorLastValidation"[13];
    assert "stateGovernorProductionGatePassed"[13] == 'P' && "stateGovernorSafeMode"[13] == 'S';
    assert "stateGovernorLastValidation"[13] == 'L';
  }
}
