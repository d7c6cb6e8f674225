/**
 The runtime's snapshot updates and exit-flow steps as functions of its variables. `CoreRuntime`
 proves its methods against these functions; `RuntimeLocks` and `ExitFlow` prove what runs of them keep.
 */
module RuntimeModel {
  import opened Snapshots
  import opened StateGovernor

  const LOCKED_STATE_CRITICAL_FIELDS: seq<Field> := [
    SessionState, SafeExamMode, ExamProtectionActive, ProtectionDryRun, KioskActive, OverlayActive, TaskbarHidden,
    KeyboardHookActive, FocusLockActive, InputHookActive, MouseHookActive, FocusHookActive, ClipboardListenerActive,
    OverlayHealActive, CaptureHealActive, CaptureProtectionActive, ElectronContentProtectionActive,
    RustOverlayCaptureProtectionActive, CaptureProtectionBestEffort, RuntimeMonitorActive, KioskHandoffCompleted,
    BlackOverlayCount
  ]

  predicate IsCritical(f: Field) {
    match f
    case ExitInProgress => false
    case StateTransitionLock => false
    case UiInteractionLocked => false
    case AudioLockActive => false
    case ExamMode => false
    case GovernorId => false
    case GovernorSequenceId => false
    case GovernorLockMode => false
    case GovernorEventQueueLength => false
    case OtherField(_) => false
    case _ => true
  }

  predicate IsExitFlag(f: Field) {
    f.ExitInProgress? || f.StateTransitionLock? || f.UiInteractionLocked?
  }

  datatype Options = Options(
    allowLockedStateOverride: bool,
    allowExitFlowMutation: bool,
    allowAudioLockMutation: bool,
    lock: LockRequest,
    unlockAfterApply: bool)

  const PLAIN: Options := Options(false, false, false, Keep, false)

  datatype Timer = Idle | Armed(generation: nat)

  /** The governor's own check at start-up, made once. */
  datatype Validation = Validation(passed: bool, safeMode: bool, record: Val)

  datatype Runtime = Runtime(
    id: string,
    validation: Validation,
    snapshot: Snapshot,
    lockMode: LockMode,
    nextSequence: SequenceId,
    activeExamMode: Val,
    exitPreviousSessionState: Val,
    exitAudioRestoreTimer: Timer,
    exitForceCleanupTimer: Timer,
    exitFlowGeneration: nat,
    monitorTimerArmed: bool,
    monitorTickInFlight: bool,
    monitorGeneration: nat)

  predicate Exiting(r: Runtime) {
    Truthy(Get(r.snapshot, ExitInProgress))
  }

  // ---------------------------------------------------------------- updateSnapshot

  /** The legacy state EXAM_RUNNING is taken for EXAM_RUNNING_CONFIRMED. */
  function Canonical(p: Patch): Patch {
    if Get(p, SessionState) == Text(EXAM_RUNNING) then p[SessionState := Text(EXAM_RUNNING_CONFIRMED)] else p
  }

  function RequestedState(p: Patch): Val {
    if Get(p, SessionState).Text? then Get(p, SessionState) else Null
  }

  predicate LockBlocks(s: Snapshot, requested: Val, o: Options) {
    && Get(s, SessionState) == Text(EXAM_RUNNING_CONFIRMED)
    && Truthy(requested) && requested != Text(EXAM_RUNNING_CONFIRMED)
    && !o.allowLockedStateOverride
  }

  function WithoutCritical(p: Patch): Patch {
    map f | f in p && !IsCritical(f) :: p[f]
  }

  function WithoutExitFlags(p: Patch): Patch {
    map f | f in p && !IsExitFlag(f) :: p[f]
  }

  function LockGuarded(s: Snapshot, p: Patch, o: Options): Patch {
    if LockBlocks(s, RequestedState(Canonical(p)), o) then
      WithoutCritical(p)[SessionState := Get(s, SessionState)]
        [SafeExamMode := Get(s, SafeExamMode)]
        [ExamProtectionActive := Get(s, ExamProtectionActive)]
        [KioskActive := Get(s, KioskActive)]
        [RuntimeMonitorActive := Get(s, RuntimeMonitorActive)]
    else Canonical(p)
  }

  function ExitGuarded(s: Snapshot, p: Patch, o: Options): Patch {
    if Truthy(Get(s, ExitInProgress)) && !o.allowExitFlowMutation then WithoutExitFlags(WithoutCritical(p)) else p
  }

  function AudioGuarded(p: Patch, requested: Val, o: Options): Patch {
    if requested == Text(EXAM_RUNNING_CONFIRMED) then p[AudioLockActive := Bool(true)]
    else if !o.allowAudioLockMutation then p - {AudioLockActive}
    else p
  }

  function EffectivePatch(s: Snapshot, p: Patch, o: Options): Patch {
    AudioGuarded(ExitGuarded(s, LockGuarded(s, p, o), o), RequestedState(Canonical(p)), o)
  }

  predicate Nullish(v: Val) {
    v.Undefined? || v.Null?
  }

  function NextSnapshot(r: Runtime, p: Patch, o: Options): Snapshot {
    var e := EffectivePatch(r.snapshot, p, o);
    Merge(r.snapshot, e)[ExamMode := if Nullish(Get(e, ExamMode)) then r.activeExamMode else e[ExamMode]]
  }

  function NextLock(m: LockMode, o: Options): LockMode {
    if o.unlockAfterApply then Unlocked else if o.lock.Set? then o.lock.mode else m
  }

  function Update(r: Runtime, p: Patch, o: Options): Runtime {
    var mode := NextLock(r.lockMode, o);
    r.(snapshot := Stamp(NextSnapshot(r, p, o), r.id, r.nextSequence, mode, 0),
       lockMode := mode,
       nextSequence := r.nextSequence + 1)
  }

  // ---------------------------------------------------------------- exit-flow steps

  /** The status fields `governorPatch` adds to every patch. */
  function GovernorStatus(v: Validation): Patch {
    map[
      OtherField("stateGovernorReady") := Bool(v.passed),
      OtherField("stateGovernorSafeMode") := Bool(v.safeMode),
      OtherField("stateGovernorProductionGatePassed") := Bool(v.passed),
      OtherField("stateGovernorLastValidation") := v.record]
  }

  function GovernorPatch(r: Runtime, p: Patch, o: Options): Runtime {
    Update(r, Merge(GovernorStatus(r.validation), p), o.(allowExitFlowMutation := true))
  }

  function ExitFlags(on: bool, state: string): Patch {
    map[ExitInProgress := Bool(on), StateTransitionLock := Bool(on), UiInteractionLocked := Bool(on), SessionState := Text(state)]
  }

  function StopMonitor(r: Runtime): Runtime {
    r.(monitorGeneration := r.monitorGeneration + 1, monitorTimerArmed := false, monitorTickInFlight := false)
  }

  function ClearExitFallbackTimers(r: Runtime): Runtime {
    r.(exitAudioRestoreTimer := Idle, exitForceCleanupTimer := Idle, exitFlowGeneration := r.exitFlowGeneration + 1)
  }

  function PatchExitRequested(r: Runtime): Runtime {
    GovernorPatch(r, ExitFlags(true, EXAM_EXIT_REQUESTED), PLAIN.(allowLockedStateOverride := true, lock := Set(ExitLock)))
  }

  function BeginExitGeneration(r: Runtime): Runtime {
    r.(exitFlowGeneration := r.exitFlowGeneration + 1)
  }

  function ScheduleForceCleanup(r: Runtime): Runtime {
    r.(exitForceCleanupTimer := Armed(r.exitFlowGeneration))
  }

  function MarkExitRequested(r: Runtime): Runtime {
    ScheduleForceCleanup(StopMonitor(PatchExitRequested(BeginExitGeneration(r))))
  }

  function MarkExiting(r: Runtime): Runtime {
    GovernorPatch(r, ExitFlags(true, EXAM_EXITING), PLAIN.(allowLockedStateOverride := true))
      .(exitAudioRestoreTimer := Armed(r.exitFlowGeneration))
  }

  function ExitedPatch(): Patch {
    ExitFlags(false, EXITED)[AudioLockActive := Bool(false)][SafeExamMode := Bool(false)][ExamMode := Null]
      [KioskHandoffCompleted := Bool(false)][RuntimeMonitorActive := Bool(false)]
  }

  function MarkExited(r: Runtime): Runtime {
    GovernorPatch(
      ClearExitFallbackTimers(r).(exitPreviousSessionState := Null),
      ExitedPatch(),
      PLAIN.(allowAudioLockMutation := true, allowLockedStateOverride := true, unlockAfterApply := true))
  }

  /** `forceExitCleanup` goes ahead only for its own generation and while an exit is in progress. */
  predicate CleanupProceeds(r: Runtime, generation: nat) {
    generation == r.exitFlowGeneration && Exiting(r)
  }

  /** `forceExitCleanup` up to the point where it may await the visual restore. */
  function BeginCleanup(r: Runtime): Runtime {
    MarkExiting(StopMonitor(r))
  }

  /** The rest of it; `visual` is the restore's patch, or nothing if it was not needed or threw. */
  function EndCleanup(r: Runtime, visual: Patch, restored: bool): Runtime {
    var shown :=
      if restored then
        GovernorPatch(r, visual[RuntimeMonitorActive := Bool(false)][KioskHandoffCompleted := Bool(false)],
                      PLAIN.(allowAudioLockMutation := true, allowLockedStateOverride := true))
      else r;
    MarkExited(shown.(activeExamMode := Null))
  }

  /** An acknowledged exit command up to the point where it may await the visual restore. */
  function BeginAcknowledged(r: Runtime): Runtime {
    MarkExiting(StopMonitor(r).(activeExamMode := Null))
  }

  /** `beginExitConfirmation` only notes the state to go back to, and nothing while an exit is in progress. */
  function OpenConfirmation(r: Runtime): Runtime {
    if Exiting(r) then r else r.(exitPreviousSessionState := Get(r.snapshot, SessionState))
  }

  predicate CancelActs(r: Runtime) {
    Truthy(r.exitPreviousSessionState) || Exiting(r)
  }

  function PreviousState(r: Runtime): Val {
    if Nullish(r.exitPreviousSessionState) then Get(r.snapshot, SessionState) else r.exitPreviousSessionState
  }

  /** `cancelExitConfirmation` also goes ahead while an exit is in progress. */
  function CancelConfirmation(r: Runtime): Runtime {
    if !CancelActs(r) then r
    else
      GovernorPatch(ClearExitFallbackTimers(r).(exitPreviousSessionState := Null),
                    ExitFlags(false, EXITED)[SessionState := PreviousState(r)],
                    PLAIN.(unlockAfterApply := true))
  }

  const EXPLICIT: Options := Options(true, true, true, Keep, false)

  function SettleIfExited(r: Runtime): Runtime {
    if Get(r.snapshot, SessionState) == Text(EXITED)
    then ClearExitFallbackTimers(r).(exitPreviousSessionState := Null)
    else r
  }

  /** The rest of an acknowledged exit command; `fields` is all the rest of its patch. */
  function EndAcknowledged(r: Runtime, fields: Patch): Runtime {
    SettleIfExited(Update(r, Merge(fields, ExitFlags(false, EXITED)[AudioLockActive := Bool(false)]),
                          EXPLICIT.(unlockAfterApply := true)))
  }

  /** An exit command whose response carries no object skips the exit branch of the handler. */
  function AcknowledgedWithoutData(r: Runtime, fields: Patch): Runtime {
    SettleIfExited(Update(r, fields, EXPLICIT))
  }

  /** The audio-restore timer's callback. */
  function AudioTimerFires(r: Runtime): Runtime
    requires r.exitAudioRestoreTimer.Armed?
  {
    var fired := r.(exitAudioRestoreTimer := Idle);
    if r.exitAudioRestoreTimer.generation == r.exitFlowGeneration
       && Get(r.snapshot, SessionState) == Text(EXAM_EXITING)
       && Truthy(Get(r.snapshot, AudioLockActive))
    then Update(fired, map[AudioLockActive := Bool(false)], PLAIN.(allowAudioLockMutation := true))
    else fired
  }

  // ---------------------------------------------------------------- the monitor loop

  predicate MonitorAllowed(r: Runtime) {
    Get(r.snapshot, SessionState) == Text(EXAM_RUNNING_CONFIRMED)
  }

  predicate Protected(r: Runtime) {
    Truthy(Get(r.snapshot, KioskActive)) && Truthy(Get(r.snapshot, ExamProtectionActive))
  }

  predicate EnteringKiosk(r: Runtime) {
    Get(r.snapshot, SessionState) == Text(ENTERING_KIOSK)
  }

  /** A tick sends a request to the sidecar. */
  predicate TickRequests(r: Runtime, connected: bool) {
    && !Exiting(r) && !EnteringKiosk(r)
    && !r.monitorTickInFlight && connected && MonitorAllowed(r) && Protected(r)
  }

  /** A tick stops the loop. */
  predicate TickStops(r: Runtime, connected: bool) {
    || Exiting(r)
    || (!EnteringKiosk(r) && !r.monitorTickInFlight && connected && !MonitorAllowed(r))
  }

  function StopDeactivated(r: Runtime): Runtime {
    var stopped := StopMonitor(r);
    if Truthy(Get(r.snapshot, RuntimeMonitorActive)) then Update(stopped, map[RuntimeMonitorActive := Bool(false)], PLAIN)
    else stopped
  }

  /** `runRuntimeMonitorTick` up to its `await`. */
  function AfterTick(r: Runtime, connected: bool): Runtime {
    if Exiting(r) then StopMonitor(r)
    else if TickStops(r, connected) then StopDeactivated(r)
    else if TickRequests(r, connected) then r.(monitorTickInFlight := true)
    else r
  }

  predicate StartConsiders(r: Runtime, connected: bool) {
    !r.monitorTimerArmed && connected && !EnteringKiosk(r)
  }

  predicate StartRuns(r: Runtime, connected: bool) {
    StartConsiders(r, connected) && MonitorAllowed(r) && Protected(r)
  }

  predicate StartStops(r: Runtime, connected: bool) {
    StartConsiders(r, connected) && !MonitorAllowed(r)
  }

  /** `startRuntimeMonitorLoop`, with the first tick up to its `await`. */
  function AfterStart(r: Runtime, connected: bool): Runtime {
    if StartStops(r, connected) then StopDeactivated(r)
    else if StartRuns(r, connected) then AfterTick(r.(monitorTimerArmed := true), connected)
    else r
  }

  datatype MonitorAnswer =
    | Threw
    | Failed(notConnected: bool, errorCode: Val)
    | Succeeded(reportedState: Val, fields: Patch)

  function MonitorPatch(r: Runtime, reportedState: Val, fields: Patch): Patch {
    fields[SessionState := if reportedState.Text? then reportedState else Get(r.snapshot, SessionState)]
  }

  function DisconnectedPatch(errorCode: Val): Patch {
    map[OtherField("nativeCoreConnected") := Bool(false), OtherField("errorCode") := errorCode, RuntimeMonitorActive := Bool(false)]
  }

  function LandTick(r: Runtime, tickGeneration: nat): Runtime {
    if tickGeneration == r.monitorGeneration then r.(monitorTickInFlight := false) else r
  }

  /** The rest of `runRuntimeMonitorTick`, `finally` included. */
  function AfterAnswer(r: Runtime, tickGeneration: nat, answer: MonitorAnswer): Runtime {
    if tickGeneration != r.monitorGeneration then r
    else match answer
      case Threw => LandTick(r, tickGeneration)
      case Failed(notConnected, code) =>
        if notConnected then Update(StopMonitor(r), DisconnectedPatch(code), PLAIN) else LandTick(r, tickGeneration)
      case Succeeded(reported, fields) => LandTick(Update(r, MonitorPatch(r, reported, fields), PLAIN), tickGeneration)
  }
}
