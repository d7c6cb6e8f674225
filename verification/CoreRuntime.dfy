/** The desktop core runtime's mutable part, method by method, proved against `RuntimeModel`. */
module CoreRuntimeModule {
  import opened Snapshots
  import opened StateGovernor
  import opened GovernorLaws
  import opened RuntimeModel

  class CoreRuntime {
    const stateEngine: Governor
    const stateGovernorValidation: Validation
    var activeExamMode: Val
    var exitPreviousSessionState: Val
    var exitAudioRestoreTimer: Timer
    var exitForceCleanupTimer: Timer
    var exitFlowGeneration: nat
    var runtimeMonitorTimerArmed: bool
    var runtimeMonitorTickInFlight: bool
    var runtimeMonitorGeneration: nat

    ghost predicate Valid()
      reads this, stateEngine
    {
      stateEngine.Ready() && Good(stateEngine.Abs())
    }

    ghost function Abs(): Runtime
      reads this, stateEngine
    {
      Runtime(stateEngine.id, stateGovernorValidation,
              stateEngine.snapshot, stateEngine.lockMode, stateEngine.nextIssuedSequenceId,
              activeExamMode, exitPreviousSessionState, exitAudioRestoreTimer, exitForceCleanupTimer, exitFlowGeneration,
              runtimeMonitorTimerArmed, runtimeMonitorTickInFlight, runtimeMonitorGeneration)
    }

    constructor (id: string, validation: Validation, initial: Snapshot)
      ensures Valid() && fresh(stateEngine)
      ensures Abs() == Runtime(id, validation, Stamp(initial, id, 0, Unlocked, 0), Unlocked, 1,
                               Null, Null, Idle, Idle, 0, false, false, 0)
    {
      stateEngine := new Governor(id, initial);
      stateGovernorValidation := validation;
      activeExamMode, exitPreviousSessionState := Null, Null;
      exitAudioRestoreTimer, exitForceCleanupTimer, exitFlowGeneration := Idle, Idle, 0;
      runtimeMonitorTimerArmed, runtimeMonitorTickInFlight, runtimeMonitorGeneration := false, false, 0;
      new;
      InitialIsGood(id, initial);
    }

    /** `for (const field of LOCKED_STATE_CRITICAL_FIELDS) delete patch[field]` */
    method DeleteCriticalFields(p: Patch) returns (stripped: Patch)
      ensures stripped == WithoutCritical(p)
    {
      stripped := p;
      var fields := LOCKED_STATE_CRITICAL_FIELDS;
      for i := 0 to |fields|
        invariant stripped == map f | f in p && f !in fields[..i] :: p[f]
      {
        stripped := stripped - {fields[i]};
        assert fields[..i + 1] == fields[..i] + [fields[i]];
      }
      assert fields[..|fields|] == fields;
      CriticalFieldsListed();
    }

    static lemma CriticalFieldsListed()
      ensures forall f: Field :: f in LOCKED_STATE_CRITICAL_FIELDS <==> IsCritical(f)
    {
      var fields := LOCKED_STATE_CRITICAL_FIELDS;
      assert fields[0].SessionState? && fields[1].SafeExamMode? && fields[2].ExamProtectionActive? && fields[3].ProtectionDryRun?;
      assert fields[4].KioskActive? && fields[5].OverlayActive? && fields[6].TaskbarHidden? && fields[7].KeyboardHookActive?;
      assert fields[8].FocusLockActive? && fields[9].InputHookActive? && fields[10].MouseHookActive? && fields[11].FocusHookActive?;
      assert fields[12].ClipboardListenerActive? && fields[13].OverlayHealActive? && fields[14].CaptureHealActive?;
      assert fields[15].CaptureProtectionActive? && fields[16].ElectronContentProtectionActive?;
      assert fields[17].RustOverlayCaptureProtectionActive? && fields[18].CaptureProtectionBestEffort?;
      assert fields[19].RuntimeMonitorActive? && fields[20].KioskHandoffCompleted? && fields[21].BlackOverlayCount?;
    }

    /** The patch built up and cut down in place before it goes to the governor. */
    method BuildEffectivePatch(p: Patch, o: Options) returns (effective: Patch)
      ensures effective == EffectivePatch(stateEngine.snapshot, p, o)
    {
      var snapshot := stateEngine.snapshot;
      effective := p;
      if Get(p, SessionState) == Text(EXAM_RUNNING) {
        effective := effective[SessionState := Text(EXAM_RUNNING_CONFIRMED)];
      }
      var requested := RequestedState(effective);
      if LockBlocks(snapshot, requested, o) {
        effective := DeleteCriticalFields(p);
        effective := effective[SessionState := Get(snapshot, SessionState)];
        effective := effective[SafeExamMode := Get(snapshot, SafeExamMode)];
        effective := effective[ExamProtectionActive := Get(snapshot, ExamProtectionActive)];
        effective := effective[KioskActive := Get(snapshot, KioskActive)];
        effective := effective[RuntimeMonitorActive := Get(snapshot, RuntimeMonitorActive)];
      }
      assert effective == LockGuarded(snapshot, p, o);
      ghost var locked := effective;
      if Truthy(Get(snapshot, ExitInProgress)) && !o.allowExitFlowMutation {
        effective := DeleteCriticalFields(effective);
        effective := effective - {ExitInProgress};
        effective := effective - {StateTransitionLock};
        effective := effective - {UiInteractionLocked};
        assert effective == WithoutExitFlags(WithoutCritical(locked));
      }
      if AudioLockActive in effective && !o.allowAudioLockMutation && requested != Text(EXAM_RUNNING_CONFIRMED) {
        effective := effective - {AudioLockActive};
      }
      if requested == Text(EXAM_RUNNING_CONFIRMED) {
        effective := effective[AudioLockActive := Bool(true)];
      }
    }

    /** Issue an id for a whole next snapshot and have the governor apply it. */
    method Publish(nextSnapshot: Snapshot, o: Options)
      requires Valid()
      modifies stateEngine
      ensures Valid()
      ensures stateEngine.lockMode == NextLock(old(stateEngine.lockMode), o)
      ensures stateEngine.nextIssuedSequenceId == old(stateEngine.nextIssuedSequenceId) + 1
      ensures stateEngine.snapshot
           == Stamp(nextSnapshot, stateEngine.id, old(stateEngine.nextIssuedSequenceId), stateEngine.lockMode, 0)
    {
      ghost var before := stateEngine.Abs();
      var sequenceId := stateEngine.IssueSequenceId();
      var event := Event(sequenceId, o.lock, o.unlockAfterApply, Reduce((_: Snapshot) => nextSnapshot), [], []);
      var _ := stateEngine.Apply(event);
      FreshEventIsApplied(before, event);
      assert stateEngine.Abs() == Outer(before, Enqueue(event)) by {
        assert event == event.(sequenceId := before.nextIssued);
      }
    }

    method UpdateSnapshot(p: Patch, o: Options)
      requires Valid()
      modifies this, stateEngine
      ensures Valid() && Abs() == Update(old(Abs()), p, o)
    {
      var effective := BuildEffectivePatch(p, o);
      var examMode := if Nullish(Get(effective, ExamMode)) then activeExamMode else effective[ExamMode];
      Publish(Merge(stateEngine.snapshot, effective)[ExamMode := examMode], o);
    }

    method PatchThroughGovernor(p: Patch, o: Options)
      requires Valid()
      modifies this, stateEngine
      ensures Valid() && Abs() == GovernorPatch(old(Abs()), p, o)
    {
      UpdateSnapshot(Merge(GovernorStatus(stateGovernorValidation), p), o.(allowExitFlowMutation := true));
    }

    method StopRuntimeMonitorLoop()
      modifies this
      ensures Abs() == StopMonitor(old(Abs()))
    {
      runtimeMonitorGeneration := runtimeMonitorGeneration + 1;
      runtimeMonitorTimerArmed := false;
      runtimeMonitorTickInFlight := false;
    }

    method ClearAndInvalidateTimers()
      modifies this
      ensures Abs() == ClearExitFallbackTimers(old(Abs()))
    {
      exitAudioRestoreTimer := Idle;
      exitForceCleanupTimer := Idle;
      exitFlowGeneration := exitFlowGeneration + 1;
    }

    /** A second confirmation during an exit is answered as a duplicate. */
    method BeginExitConfirmation() returns (noted: bool)
      modifies `exitPreviousSessionState
      ensures noted == !old(Exiting(Abs())) && Abs() == OpenConfirmation(old(Abs()))
    {
      if Truthy(Get(stateEngine.snapshot, ExitInProgress)) {
        return false;
      }
      exitPreviousSessionState := Get(stateEngine.snapshot, SessionState);
      return true;
    }

    method CancelExitConfirmation()
      requires Valid()
      modifies this, stateEngine
      ensures Valid() && Abs() == CancelConfirmation(old(Abs()))
    {
      if !Truthy(exitPreviousSessionState) && !Truthy(Get(stateEngine.snapshot, ExitInProgress)) {
        return;
      }
      var previousState :=
        if Nullish(exitPreviousSessionState) then Get(stateEngine.snapshot, SessionState) else exitPreviousSessionState;
      ForgetExit();
      PatchThroughGovernor(ExitFlags(false, EXITED)[SessionState := previousState], PLAIN.(unlockAfterApply := true));
    }

    method ForgetExit()
      modifies this
      ensures Abs() == ClearExitFallbackTimers(old(Abs())).(exitPreviousSessionState := Null)
    {
      exitPreviousSessionState := Null;
      ClearAndInvalidateTimers();
    }

    method EnterExitRequested()
      requires Valid()
      modifies this, stateEngine
      ensures Valid() && Abs() == PatchExitRequested(old(Abs()))
    {
      PatchThroughGovernor(ExitFlags(true, EXAM_EXIT_REQUESTED),
                           PLAIN.(allowLockedStateOverride := true, lock := Set(ExitLock)));
    }

    method StopMonitorAndScheduleCleanup()
      modifies this
      ensures Abs() == ScheduleForceCleanup(StopMonitor(old(Abs())))
    {
      StopRuntimeMonitorLoop();
      exitForceCleanupTimer := Armed(exitFlowGeneration);
    }

    method BeginGeneration()
      modifies this
      ensures Abs() == BeginExitGeneration(old(Abs()))
    {
      exitFlowGeneration := exitFlowGeneration + 1;
    }

    method RequestExit()
      requires Valid()
      modifies this, stateEngine
      ensures Valid() && Abs() == MarkExitRequested(old(Abs()))
    {
      BeginGeneration();
      ghost var begun := Abs();
      EnterExitRequested();
      ghost var requested := Abs();
      assert requested == PatchExitRequested(begun);
      StopMonitorAndScheduleCleanup();
      assert Abs() == ScheduleForceCleanup(StopMonitor(requested));
    }

    method EnterExiting()
      requires Valid()
      modifies this, stateEngine
      ensures Valid() && Abs() == MarkExiting(old(Abs()))
    {
      PatchThroughGovernor(ExitFlags(true, EXAM_EXITING), PLAIN.(allowLockedStateOverride := true));
      exitAudioRestoreTimer := Armed(exitFlowGeneration);
    }

    method EnterExited()
      requires Valid()
      modifies this, stateEngine
      ensures Valid() && Abs() == MarkExited(old(Abs()))
    {
      ClearAndInvalidateTimers();
      exitPreviousSessionState := Null;
      PatchThroughGovernor(ExitedPatch(),
                           PLAIN.(allowAudioLockMutation := true, allowLockedStateOverride := true, unlockAfterApply := true));
    }

    /** `forceExitCleanup` until it either returns or awaits; the result says whether it goes on. */
    method ForceExitCleanup(generation: nat) returns (proceeds: bool)
      requires Valid()
      modifies this, stateEngine
      ensures Valid() && proceeds == old(CleanupProceeds(Abs(), generation))
      ensures Abs() == if proceeds then BeginCleanup(old(Abs())) else old(Abs())
    {
      if generation != exitFlowGeneration || !Truthy(Get(stateEngine.snapshot, ExitInProgress)) {
        return false;
      }
      StopRuntimeMonitorLoop();
      EnterExiting();
      return true;
    }

    method FinishForcedCleanup(visual: Patch, restored: bool)
      requires Valid()
      modifies this, stateEngine
      ensures Valid() && Abs() == EndCleanup(old(Abs()), visual, restored)
    {
      if restored {
        PatchThroughGovernor(visual[RuntimeMonitorActive := Bool(false)][KioskHandoffCompleted := Bool(false)],
                             PLAIN.(allowAudioLockMutation := true, allowLockedStateOverride := true));
      }
      activeExamMode := Null;
      EnterExited();
    }

    method StartAcknowledgedExit()
      requires Valid()
      modifies this, stateEngine
      ensures Valid() && Abs() == BeginAcknowledged(old(Abs()))
    {
      StopRuntimeMonitorLoop();
      activeExamMode := Null;
      EnterExiting();
    }

    /** The end of every command; only an explicit exit clears the timers. */
    method FinishCommand(p: Patch, o: Options, isExplicitExit: bool)
      requires Valid()
      modifies this, stateEngine
      ensures Valid()
      ensures Abs() == var updated := Update(old(Abs()), p, o); if isExplicitExit then SettleIfExited(updated) else updated
    {
      UpdateSnapshot(p, o);
      if isExplicitExit && Get(stateEngine.snapshot, SessionState) == Text(EXITED) {
        ClearAndInvalidateTimers();
        exitPreviousSessionState := Null;
      }
    }

    method FinishAcknowledgedExit(fields: Patch)
      requires Valid()
      modifies this, stateEngine
      ensures Valid() && Abs() == EndAcknowledged(old(Abs()), fields)
    {
      FinishCommand(Merge(fields, ExitFlags(false, EXITED)[AudioLockActive := Bool(false)]),
                    EXPLICIT.(unlockAfterApply := true), true);
    }

    method FinishExitWithoutData(fields: Patch)
      requires Valid()
      modifies this, stateEngine
      ensures Valid() && Abs() == AcknowledgedWithoutData(old(Abs()), fields)
    {
      FinishCommand(fields, EXPLICIT, true);
    }

    method OnAudioRestoreTimer()
      requires Valid() && exitAudioRestoreTimer.Armed?
      modifies this, stateEngine
      ensures Valid() && Abs() == AudioTimerFires(old(Abs()))
    {
      var generation := exitAudioRestoreTimer.generation;
      exitAudioRestoreTimer := Idle;
      if generation != exitFlowGeneration
        || Get(stateEngine.snapshot, SessionState) != Text(EXAM_EXITING)
        || !Truthy(Get(stateEngine.snapshot, AudioLockActive)) {
        return;
      }
      UpdateSnapshot(map[AudioLockActive := Bool(false)], PLAIN.(allowAudioLockMutation := true));
    }

    method StopAndDeactivateMonitor()
      requires Valid()
      modifies this, stateEngine
      ensures Valid() && Abs() == StopDeactivated(old(Abs()))
    {
      StopRuntimeMonitorLoop();
      if Truthy(Get(stateEngine.snapshot, RuntimeMonitorActive)) {
        UpdateSnapshot(map[RuntimeMonitorActive := Bool(false)], PLAIN);
      }
    }

    /** `runRuntimeMonitorTick` until it returns or awaits the sidecar. */
    method RunRuntimeMonitorTick(connected: bool) returns (requested: bool, tickGeneration: nat)
      requires Valid()
      modifies this, stateEngine
      ensures Valid() && Abs() == AfterTick(old(Abs()), connected)
      ensures requested == old(TickRequests(Abs(), connected)) && tickGeneration == runtimeMonitorGeneration
    {
      if Truthy(Get(stateEngine.snapshot, ExitInProgress)) {
        StopRuntimeMonitorLoop();
        return false, runtimeMonitorGeneration;
      }
      var session := Get(stateEngine.snapshot, SessionState);
      if session == Text(ENTERING_KIOSK) || runtimeMonitorTickInFlight || !connected {
        return false, runtimeMonitorGeneration;
      }
      if session != Text(EXAM_RUNNING_CONFIRMED) {
        StopAndDeactivateMonitor();
        return false, runtimeMonitorGeneration;
      }
      if !Truthy(Get(stateEngine.snapshot, KioskActive)) || !Truthy(Get(stateEngine.snapshot, ExamProtectionActive)) {
        return false, runtimeMonitorGeneration;
      }
      runtimeMonitorTickInFlight := true;
      return true, runtimeMonitorGeneration;
    }

    method FinishRuntimeMonitorTick(tickGeneration: nat, answer: MonitorAnswer)
      requires Valid()
      modifies this, stateEngine
      ensures Valid() && Abs() == AfterAnswer(old(Abs()), tickGeneration, answer)
    {
      if tickGeneration == runtimeMonitorGeneration {
        match answer {
          case Threw =>
          case Failed(notConnected, code) =>
            if notConnected {
              StopRuntimeMonitorLoop();
              UpdateSnapshot(DisconnectedPatch(code), PLAIN);
            }
          case Succeeded(reported, fields) =>
            var state := if reported.Text? then reported else Get(stateEngine.snapshot, SessionState);
            UpdateSnapshot(fields[SessionState := state], PLAIN);
        }
      }
      if tickGeneration == runtimeMonitorGeneration {
        runtimeMonitorTickInFlight := false;
      }
    }

    method StartRuntimeMonitorLoop(connected: bool) returns (requested: bool, tickGeneration: nat)
      requires Valid()
      modifies this, stateEngine
      ensures Valid() && Abs() == AfterStart(old(Abs()), connected)
      ensures requested == old(StartRuns(Abs(), connected) && TickRequests(Abs(), connected))
      ensures tickGeneration == runtimeMonitorGeneration
    {
      var session := Get(stateEngine.snapshot, SessionState);
      if runtimeMonitorTimerArmed || !connected || session == Text(ENTERING_KIOSK) {
        return false, runtimeMonitorGeneration;
      }
      if session != Text(EXAM_RUNNING_CONFIRMED) {
        StopAndDeactivateMonitor();
        return false, runtimeMonitorGeneration;
      }
      if !Truthy(Get(stateEngine.snapshot, KioskActive)) || !Truthy(Get(stateEngine.snapshot, ExamProtectionActive)) {
        return false, runtimeMonitorGeneration;
      }
      requested, tickGeneration := ArmAndTick(connected);
    }

    method ArmAndTick(connected: bool) returns (requested: bool, tickGeneration: nat)
      requires Valid()
      modifies this, stateEngine
      ensures Valid() && Abs() == AfterTick(old(Abs()).(monitorTimerArmed := true), connected)
      ensures requested == old(TickRequests(Abs(), connected)) && tickGeneration == runtimeMonitorGeneration
    {
      runtimeMonitorTimerArmed := true;
      requested, tickGeneration := RunRuntimeMonitorTick(connected);
    }
  }
}
