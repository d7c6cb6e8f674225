/**
 The exit flow as a state machine over its atomic steps: the runtime's variables and how many
 coroutines wait at each `await`. Any number of explicit exits may overlap; sidecar answers, visual
 restores, both timers and patches from outside the flow arrive in any order.
 */
module ExitFlow {
  import opened Snapshots
  import opened StateGovernor
  import opened RuntimeModel

  datatype Flow = Flow(
    runtime: Runtime,
    awaitingRust: nat,
    awaitingVisual: nat,
    cleanups: nat)

  datatype ExitEvent =
    | Request
    | ConfirmationOpens
    | ConfirmationCancelled
    | RustAcknowledges(needsVisual: bool, fields: Patch)
    | RustAcknowledgesWithoutData(base: Patch)
    | RustFails(cleanupNeedsVisual: bool)
    | VisualRestored(fields: Patch)
    | VisualThrows
    | CleanupResumes(visual: Patch, restored: bool)
    | ForceTimerFires(cleanupNeedsVisual: bool)
    | AudioTimerEvent
    | Background(patch: Patch, options: Options)

  predicate IsKey(f: Field) {
    f.SessionState? || f.ExitInProgress? || f.StateTransitionLock? || f.UiInteractionLocked? || f.AudioLockActive?
  }

  predicate NamesNoKey(p: Patch) {
    forall f | IsKey(f) :: f !in p
  }

  predicate NamesNoExitFlag(p: Patch) {
    forall f | IsExitFlag(f) :: f !in p
  }

  /** A patch from outside the exit flow has no permission to change it. While an exit is in progress it may
      name anything; afterwards it leaves the exit flags alone. */
  predicate FromOutside(f: Flow, p: Patch, o: Options) {
    && !o.allowExitFlowMutation && !o.unlockAfterApply && o.lock.Keep?
    && (!Exiting(f.runtime) ==> NamesNoExitFlag(p))
  }

  predicate Enabled(f: Flow, e: ExitEvent) {
    match e
    case Request => true
    case ConfirmationOpens => true
    case ConfirmationCancelled => true
    case RustAcknowledges(_, _) => f.awaitingRust > 0
    case RustAcknowledgesWithoutData(base) => f.awaitingRust > 0 && NamesNoKey(base)
    case RustFails(_) => f.awaitingRust > 0
    case VisualRestored(_) => f.awaitingVisual > 0
    case VisualThrows => f.awaitingVisual > 0
    case CleanupResumes(_, _) => f.cleanups > 0
    case ForceTimerFires(_) => f.runtime.exitForceCleanupTimer.Armed?
    case AudioTimerEvent => f.runtime.exitAudioRestoreTimer.Armed?
    case Background(p, o) => FromOutside(f, p, o)
  }

  /** `forceExitCleanup`, up to its end or its `await`. */
  function Cleanup(f: Flow, generation: nat, needsVisual: bool): Flow {
    if !CleanupProceeds(f.runtime, generation) then f
    else if needsVisual then f.(runtime := BeginCleanup(f.runtime), cleanups := f.cleanups + 1)
    else f.(runtime := EndCleanup(BeginCleanup(f.runtime), map[], false))
  }

  function Step(f: Flow, e: ExitEvent): Flow
    requires Enabled(f, e)
  {
    var r := f.runtime;
    match e
    case Request =>
      if Get(r.snapshot, SessionState) == Text(EXITED) then f
      else f.(runtime := MarkExitRequested(r), awaitingRust := f.awaitingRust + 1)
    case ConfirmationOpens => f.(runtime := OpenConfirmation(r))
    case ConfirmationCancelled => f.(runtime := CancelConfirmation(r))
    case RustAcknowledges(needsVisual, fields) =>
      var answered := f.(awaitingRust := f.awaitingRust - 1);
      if needsVisual then answered.(runtime := BeginAcknowledged(r), awaitingVisual := f.awaitingVisual + 1)
      else answered.(runtime := EndAcknowledged(BeginAcknowledged(r), fields))
    case RustAcknowledgesWithoutData(base) =>
      f.(runtime := AcknowledgedWithoutData(r, base), awaitingRust := f.awaitingRust - 1)
    case RustFails(needsVisual) =>
      Cleanup(f.(awaitingRust := f.awaitingRust - 1), r.exitFlowGeneration, needsVisual)
    case VisualRestored(fields) =>
      f.(runtime := EndAcknowledged(r, fields), awaitingVisual := f.awaitingVisual - 1)
    case VisualThrows => f.(awaitingVisual := f.awaitingVisual - 1)
    case CleanupResumes(visual, restored) =>
      f.(runtime := EndCleanup(r, visual, restored), cleanups := f.cleanups - 1)
    case ForceTimerFires(needsVisual) =>
      Cleanup(f.(runtime := r.(exitForceCleanupTimer := Idle)), r.exitForceCleanupTimer.generation, needsVisual)
    case AudioTimerEvent => f.(runtime := AudioTimerFires(r))
    case Background(p, o) => f.(runtime := Update(r, p, o))
  }

  predicate IsRun(f: Flow, events: seq<ExitEvent>)
    decreases |events|
  {
    events == [] || (Enabled(f, events[0]) && IsRun(Step(f, events[0]), events[1..]))
  }

  function Run(f: Flow, events: seq<ExitEvent>): Flow
    requires IsRun(f, events)
    decreases |events|
  {
    if events == [] then f else Run(Step(f, events[0]), events[1..])
  }

  // ---------------------------------------------------------------- the invariant

  /** Some step that will end the exit is certain to come. */
  predicate Rescued(f: Flow) {
    f.awaitingVisual > 0 || f.cleanups > 0 || f.runtime.exitForceCleanupTimer.Armed?
  }

  /** The exit is over: nothing is flagged, locked or armed. */
  predicate Finished(r: Runtime) {
    && Get(r.snapshot, ExitInProgress) == Bool(false)
    && Get(r.snapshot, StateTransitionLock) == Bool(false)
    && Get(r.snapshot, UiInteractionLocked) == Bool(false)
    && r.lockMode == Unlocked
    && r.exitAudioRestoreTimer == Idle && r.exitForceCleanupTimer == Idle
  }

  /** It is over and nothing has moved on from it. */
  predicate Settled(r: Runtime) {
    && Finished(r)
    && Get(r.snapshot, SessionState) == Text(EXITED)
    && Get(r.snapshot, AudioLockActive) == Bool(false)
  }

  predicate UnderWay(r: Runtime) {
    && Exiting(r)
    && Get(r.snapshot, SessionState) in {Text(EXAM_EXIT_REQUESTED), Text(EXAM_EXITING)}
    && (r.exitForceCleanupTimer.Armed? ==> r.exitForceCleanupTimer.generation == r.exitFlowGeneration)
  }

  predicate Consistent(f: Flow) {
    UnderWay(f.runtime) || Finished(f.runtime)
  }

  predicate Inv(f: Flow) {
    (UnderWay(f.runtime) && Rescued(f)) || Finished(f.runtime)
  }

  /** Before the first exit of a run: nothing of the flow is pending. */
  predicate Fresh(f: Flow) {
    && f.awaitingRust == 0 && f.awaitingVisual == 0 && f.cleanups == 0
    && Get(f.runtime.snapshot, SessionState) != Text(EXITED)
  }

  // ---------------------------------------------------------------- what each step does to the key fields

  /** A patch of the exit flow lands as it is, apart from the audio lock. */
  lemma ExitPatchLands(r: Runtime, p: Patch, o: Options, f: Field)
    requires o.allowExitFlowMutation && o.allowLockedStateOverride
    requires RequestedState(Canonical(p)) != Text(EXAM_RUNNING_CONFIRMED)
    requires IsKey(f) && (f.AudioLockActive? ==> o.allowAudioLockMutation)
    ensures Get(Update(r, p, o).snapshot, f) == if f in p then p[f] else Get(r.snapshot, f)
  {
  }

  lemma MarkExitingIsUnderWay(r: Runtime)
    ensures var after := MarkExiting(r);
            && Exiting(after) && Get(after.snapshot, SessionState) == Text(EXAM_EXITING)
            && after.exitForceCleanupTimer == r.exitForceCleanupTimer
            && after.exitFlowGeneration == r.exitFlowGeneration
  {
    StatesDiffer();
    var p := Merge(GovernorStatus(r.validation), ExitFlags(true, EXAM_EXITING));
    var o := PLAIN.(allowLockedStateOverride := true, allowExitFlowMutation := true);
    ExitPatchLands(r, p, o, ExitInProgress);
    ExitPatchLands(r, p, o, SessionState);
  }

  lemma RequestIsUnderWay(r: Runtime)
    ensures UnderWay(MarkExitRequested(r)) && MarkExitRequested(r).exitForceCleanupTimer.Armed?
  {
    StatesDiffer();
    var begun := BeginExitGeneration(r);
    var p := Merge(GovernorStatus(r.validation), ExitFlags(true, EXAM_EXIT_REQUESTED));
    var o := PLAIN.(allowLockedStateOverride := true, lock := Set(ExitLock), allowExitFlowMutation := true);
    ExitPatchLands(begun, p, o, ExitInProgress);
    ExitPatchLands(begun, p, o, SessionState);
    assert MarkExitRequested(r).snapshot == Update(begun, p, o).snapshot;
  }

  lemma FinalPatchSettles(r: Runtime, p: Patch, o: Options)
    requires o.allowExitFlowMutation && o.allowLockedStateOverride && o.allowAudioLockMutation && o.unlockAfterApply
    requires forall f | IsKey(f) :: f in p && p[f] == if f.SessionState? then Text(EXITED) else Bool(false)
    ensures var s := Update(r, p, o).snapshot;
            && Get(s, SessionState) == Text(EXITED) && Get(s, ExitInProgress) == Bool(false)
            && Get(s, StateTransitionLock) == Bool(false) && Get(s, UiInteractionLocked) == Bool(false)
            && Get(s, AudioLockActive) == Bool(false) && Update(r, p, o).lockMode == Unlocked
  {
    StatesDiffer();
    assert p[SessionState] == Text(EXITED);
    ExitPatchLands(r, p, o, SessionState);
    ExitPatchLands(r, p, o, ExitInProgress);
    ExitPatchLands(r, p, o, StateTransitionLock);
    ExitPatchLands(r, p, o, UiInteractionLocked);
    ExitPatchLands(r, p, o, AudioLockActive);
  }

  lemma MarkExitedSettles(r: Runtime)
    ensures Settled(MarkExited(r))
  {
    var cleared := ClearExitFallbackTimers(r).(exitPreviousSessionState := Null);
    FinalPatchSettles(cleared, Merge(GovernorStatus(r.validation), ExitedPatch()),
                      PLAIN.(allowAudioLockMutation := true, allowLockedStateOverride := true, unlockAfterApply := true,
                             allowExitFlowMutation := true));
  }

  /** Cancelling does not override the lock on a confirmed exam, but that lock does not cover the exit flags. */
  lemma CancelFinishes(r: Runtime)
    requires CancelActs(r)
    ensures Finished(CancelConfirmation(r)) && !Exiting(CancelConfirmation(r))
    ensures CancelConfirmation(r).exitPreviousSessionState == Null
  {
    var cleared := ClearExitFallbackTimers(r).(exitPreviousSessionState := Null);
    var p := Merge(GovernorStatus(r.validation), ExitFlags(false, EXITED)[SessionState := PreviousState(r)]);
    var o := PLAIN.(unlockAfterApply := true, allowExitFlowMutation := true);
    FlagOfExitPatch(cleared, p, o, ExitInProgress);
    FlagOfExitPatch(cleared, p, o, StateTransitionLock);
    FlagOfExitPatch(cleared, p, o, UiInteractionLocked);
  }

  lemma FlagOfExitPatch(r: Runtime, p: Patch, o: Options, f: Field)
    requires IsExitFlag(f) && f in p && o.allowExitFlowMutation
    ensures Get(Update(r, p, o).snapshot, f) == p[f]
  {
    FlagPassesLock(r.snapshot, p, o, f);
    assert NextSnapshot(r, p, o)[f] == EffectivePatch(r.snapshot, p, o)[f] == LockGuarded(r.snapshot, p, o)[f];
  }

  lemma FlagPassesLock(s: Snapshot, p: Patch, o: Options, f: Field)
    requires IsExitFlag(f) && f in p
    ensures f in LockGuarded(s, p, o) && LockGuarded(s, p, o)[f] == p[f]
  {
  }

  lemma EndAcknowledgedSettles(r: Runtime, fields: Patch)
    ensures Settled(EndAcknowledged(r, fields))
  {
    FinalPatchSettles(r, Merge(fields, ExitFlags(false, EXITED)[AudioLockActive := Bool(false)]),
                      EXPLICIT.(unlockAfterApply := true));
  }

  lemma NamelessPatchKeepsKeys(r: Runtime, p: Patch, o: Options, f: Field)
    requires IsKey(f) && NamesNoKey(p)
    ensures Get(Update(r, p, o).snapshot, f) == Get(r.snapshot, f)
  {
  }

  lemma BackgroundKeepsExit(r: Runtime, p: Patch, o: Options)
    requires Exiting(r) && !o.allowExitFlowMutation
    ensures Get(Update(r, p, o).snapshot, SessionState) == Get(r.snapshot, SessionState)
    ensures Get(Update(r, p, o).snapshot, ExitInProgress) == Get(r.snapshot, ExitInProgress)
  {
  }

  /** The exit flags are touched by no rule but the exit guard, which only strips them. */
  lemma FlagsAreGuarded(s: Snapshot, p: Patch, o: Options, f: Field)
    requires IsExitFlag(f) && NamesNoExitFlag(p)
    ensures f !in EffectivePatch(s, p, o)
  {
    assert f !in LockGuarded(s, p, o);
  }

  lemma FlaglessPatchKeepsFlags(r: Runtime, p: Patch, o: Options, f: Field)
    requires IsExitFlag(f) && NamesNoExitFlag(p)
    ensures Get(Update(r, p, o).snapshot, f) == Get(r.snapshot, f)
  {
    FlagsAreGuarded(r.snapshot, p, o, f);
  }

  lemma FlaglessPatchKeepsFinished(r: Runtime, p: Patch, o: Options)
    requires Finished(r) && NamesNoExitFlag(p) && o.lock.Keep? && !o.unlockAfterApply
    ensures Finished(Update(r, p, o))
  {
    FlaglessPatchKeepsFlags(r, p, o, ExitInProgress);
    FlaglessPatchKeepsFlags(r, p, o, StateTransitionLock);
    FlaglessPatchKeepsFlags(r, p, o, UiInteractionLocked);
  }

  lemma AudioTimerKeepsExit(r: Runtime)
    requires r.exitAudioRestoreTimer.Armed?
    ensures Get(AudioTimerFires(r).snapshot, SessionState) == Get(r.snapshot, SessionState)
    ensures Get(AudioTimerFires(r).snapshot, ExitInProgress) == Get(r.snapshot, ExitInProgress)
    ensures AudioTimerFires(r).exitForceCleanupTimer == r.exitForceCleanupTimer
    ensures AudioTimerFires(r).exitFlowGeneration == r.exitFlowGeneration
    ensures AudioTimerFires(r).exitAudioRestoreTimer == Idle
  {
  }

  // ---------------------------------------------------------------- preservation

  lemma CleanupKeepsInv(f: Flow, generation: nat, needsVisual: bool)
    requires Finished(f.runtime) || (UnderWay(f.runtime) && generation == f.runtime.exitFlowGeneration)
    ensures Inv(Cleanup(f, generation, needsVisual))
    ensures !needsVisual && UnderWay(f.runtime) ==> Settled(Cleanup(f, generation, needsVisual).runtime)
    ensures Finished(f.runtime) ==> Cleanup(f, generation, needsVisual) == f
  {
    if CleanupProceeds(f.runtime, generation) {
      var begun := BeginCleanup(f.runtime);
      MarkExitingIsUnderWay(StopMonitor(f.runtime));
      if needsVisual {
        assert Rescued(Cleanup(f, generation, needsVisual));
      } else {
        MarkExitedSettles(begun.(activeExamMode := Null));
      }
    }
  }

  /** A patch that names no key leaves an exit as it is, under way, finished or settled. */
  lemma NamelessPatchChangesNothing(r: Runtime, p: Patch, o: Options)
    requires NamesNoKey(p) && o.lock.Keep? && !o.unlockAfterApply
    ensures UnderWay(Update(r, p, o)) <==> UnderWay(r)
    ensures Finished(Update(r, p, o)) <==> Finished(r)
    ensures Settled(Update(r, p, o)) <==> Settled(r)
    ensures Exiting(Update(r, p, o)) <==> Exiting(r)
  {
    NamelessPatchKeepsKeys(r, p, o, SessionState);
    NamelessPatchKeepsKeys(r, p, o, ExitInProgress);
    NamelessPatchKeepsKeys(r, p, o, StateTransitionLock);
    NamelessPatchKeepsKeys(r, p, o, UiInteractionLocked);
    NamelessPatchKeepsKeys(r, p, o, AudioLockActive);
  }

  /** `SettleIfExited` does nothing while an exit is under way, and nothing new once it is over. */
  lemma SettleChangesNothing(r: Runtime)
    requires UnderWay(r) || Finished(r)
    ensures UnderWay(r) ==> SettleIfExited(r) == r
    ensures Finished(r) ==> Finished(SettleIfExited(r)) && (Settled(SettleIfExited(r)) <==> Settled(r))
  {
    StatesDiffer();
  }

  /** An answer without data leaves the exit to the force-cleanup timer. */
  lemma AnswerWithoutDataChangesNothing(r: Runtime, base: Patch)
    requires NamesNoKey(base) && (UnderWay(r) || Finished(r))
    ensures var after := AcknowledgedWithoutData(r, base);
            && (UnderWay(r) ==> UnderWay(after) && after.exitForceCleanupTimer == r.exitForceCleanupTimer)
            && (Finished(r) ==> Finished(after) && (Settled(after) <==> Settled(r)))
  {
    NamelessPatchChangesNothing(r, base, EXPLICIT);
    SettleChangesNothing(Update(r, base, EXPLICIT));
  }

  lemma BackgroundKeepsInv(f: Flow, p: Patch, o: Options)
    requires Inv(f) && FromOutside(f, p, o)
    ensures Inv(f.(runtime := Update(f.runtime, p, o)))
  {
    if Exiting(f.runtime) {
      BackgroundKeepsExit(f.runtime, p, o);
    } else {
      FlaglessPatchKeepsFinished(f.runtime, p, o);
    }
  }

  lemma RustAnswerKeepsInv(f: Flow, e: ExitEvent)
    requires Inv(f) && Enabled(f, e)
    requires e.RustAcknowledges? || e.RustAcknowledgesWithoutData? || e.RustFails?
    ensures Inv(Step(f, e))
  {
    match e {
      case RustAcknowledges(needsVisual, fields) =>
        MarkExitingIsUnderWay(StopMonitor(f.runtime).(activeExamMode := Null));
        EndAcknowledgedSettles(BeginAcknowledged(f.runtime), fields);
        if needsVisual {
          assert Rescued(Step(f, e));
          assert UnderWay(Step(f, e).runtime);
        }
      case RustAcknowledgesWithoutData(base) => AnswerWithoutDataChangesNothing(f.runtime, base);
      case RustFails(needsVisual) =>
        CleanupKeepsInv(f.(awaitingRust := f.awaitingRust - 1), f.runtime.exitFlowGeneration, needsVisual);
    }
  }

  /** The only step that leaves an exit without a restore or timer to end it: the visual restore of an
      acknowledged exit throws with the force-cleanup timer gone and no other restore pending. An answer
      may still be outstanding then. */
  predicate LosesRescue(f: Flow, e: ExitEvent) {
    && e.VisualThrows? && Exiting(f.runtime)
    && f.awaitingVisual <= 1 && f.cleanups == 0 && f.runtime.exitForceCleanupTimer.Idle?
  }

  lemma CancelKeepsInv(r: Runtime)
    requires UnderWay(r) || Finished(r)
    ensures Finished(CancelConfirmation(r))
  {
    if CancelActs(r) {
      CancelFinishes(r);
    }
  }

  lemma StepKeepsInvExactly(f: Flow, e: ExitEvent)
    requires Inv(f) && Enabled(f, e)
    ensures Inv(Step(f, e)) <==> !LosesRescue(f, e)
  {
    var r := f.runtime;
    match e {
      case Request => RequestIsUnderWay(r);
      case ConfirmationOpens =>
      case ConfirmationCancelled => CancelKeepsInv(r);
      case VisualRestored(fields) => EndAcknowledgedSettles(r, fields);
      case VisualThrows =>
      case CleanupResumes(visual, restored) => ResumedCleanupSettles(r, visual, restored);
      case ForceTimerFires(needsVisual) =>
        var fired := f.(runtime := r.(exitForceCleanupTimer := Idle));
        CleanupKeepsInv(fired, r.exitForceCleanupTimer.generation, needsVisual);
      case AudioTimerEvent => AudioTimerKeepsExit(r);
      case Background(p, o) => BackgroundKeepsInv(f, p, o);
      case _ => RustAnswerKeepsInv(f, e);
    }
  }

  lemma ResumedCleanupSettles(r: Runtime, visual: Patch, restored: bool)
    ensures Settled(EndCleanup(r, visual, restored))
  {
    var shown :=
      if restored then
        GovernorPatch(r, visual[RuntimeMonitorActive := Bool(false)][KioskHandoffCompleted := Bool(false)],
                      PLAIN.(allowAudioLockMutation := true, allowLockedStateOverride := true))
      else r;
    MarkExitedSettles(shown.(activeExamMode := Null));
  }
}
