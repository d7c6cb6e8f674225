/** Whole runs of the exit flow: where they can come to rest, that they do, and the one way they get stuck. */
module ExitFlowRuns {
  import opened Snapshots
  import opened StateGovernor
  import opened RuntimeModel
  import opened ExitFlow

  /** Steps the flow owes by itself: an answer, a restore or a timer that is still outstanding. */
  predicate Internal(e: ExitEvent) {
    !e.Request? && !e.ConfirmationOpens? && !e.ConfirmationCancelled? && !e.Background?
  }

  /** Nothing is outstanding. */
  predicate Quiescent(f: Flow) {
    && f.awaitingRust == 0 && f.awaitingVisual == 0 && f.cleanups == 0
    && f.runtime.exitForceCleanupTimer.Idle? && f.runtime.exitAudioRestoreTimer.Idle?
  }

  lemma QuiescentExactly(f: Flow)
    ensures Quiescent(f) <==> forall e | Internal(e) :: !Enabled(f, e)
  {
    if !Quiescent(f) {
      var e :=
        if f.awaitingRust > 0 then RustFails(false)
        else if f.awaitingVisual > 0 then VisualThrows
        else if f.cleanups > 0 then CleanupResumes(map[], false)
        else if f.runtime.exitForceCleanupTimer.Armed? then ForceTimerFires(false)
        else AudioTimerEvent;
      assert Internal(e) && Enabled(f, e);
    }
  }

  // ---------------------------------------------------------------- safety

  lemma StepKeepsConsistent(f: Flow, e: ExitEvent)
    requires Consistent(f) && Enabled(f, e)
    ensures Consistent(Step(f, e))
  {
    var helped := f.(cleanups := f.cleanups + 1);
    assert Inv(helped) && Enabled(helped, e);
    StepKeepsInvExactly(helped, e);
    assert Step(helped, e).runtime == Step(f, e).runtime;
  }

  lemma {:induction false} RunKeepsConsistent(f: Flow, events: seq<ExitEvent>)
    requires Consistent(f) && IsRun(f, events)
    ensures Consistent(Run(f, events))
    decreases |events|
  {
    if events != [] {
      StepKeepsConsistent(f, events[0]);
      RunKeepsConsistent(Step(f, events[0]), events[1..]);
    }
  }

  // ---------------------------------------------------------------- what moves on from a settled exit

  /** A patch that names another session state or takes up the audio lock again. */
  predicate MovesOn(p: Patch, o: Options) {
    || (SessionState in p && p[SessionState] != Text(EXITED))
    || (AudioLockActive in p && o.allowAudioLockMutation && p[AudioLockActive] != Bool(false))
  }

  /** The cancelling of a confirmation goes back to any state but an exited one with the audio lock off. */
  predicate GoesBack(r: Runtime) {
    CancelActs(r) && !(PreviousState(r) == Text(EXITED) && Get(r.snapshot, AudioLockActive) == Bool(false))
  }

  /** A patch from outside that moves on after the exit (a late status answer, or the sidecar's own exit), or
      a cancelled confirmation. */
  predicate Disturbs(f: Flow, e: ExitEvent) {
    || (e.Background? && !Exiting(f.runtime) && MovesOn(e.patch, e.options))
    || (e.ConfirmationCancelled? && GoesBack(f.runtime))
  }

  /** An exit is under way or settled, and nothing has moved on from it. */
  predicate OnCourse(f: Flow) {
    UnderWay(f.runtime) || Settled(f.runtime)
  }

  lemma SessionAfterExit(r: Runtime, p: Patch, o: Options)
    requires Settled(r)
    ensures Get(Update(r, p, o).snapshot, SessionState)
         == if SessionState in p then Canonical(p)[SessionState] else Text(EXITED)
  {
    StatesDiffer();
  }

  lemma AudioAfterExit(r: Runtime, p: Patch, o: Options)
    requires Settled(r) && RequestedState(Canonical(p)) != Text(EXAM_RUNNING_CONFIRMED)
    ensures Get(Update(r, p, o).snapshot, AudioLockActive)
         == if AudioLockActive in p && o.allowAudioLockMutation then p[AudioLockActive] else Bool(false)
  {
    StatesDiffer();
  }

  lemma OutsidePatchUnsettlesExactly(f: Flow, p: Patch, o: Options)
    requires Settled(f.runtime) && FromOutside(f, p, o)
    ensures Settled(Update(f.runtime, p, o)) <==> !Disturbs(f, Background(p, o))
  {
    StatesDiffer();
    FlaglessPatchKeepsFinished(f.runtime, p, o);
    SessionAfterExit(f.runtime, p, o);
    if RequestedState(Canonical(p)) != Text(EXAM_RUNNING_CONFIRMED) {
      AudioAfterExit(f.runtime, p, o);
    }
  }

  /** Cancelling brings back the state the confirmation was opened in, or else leaves the present one; from a
      confirmed exam it leads nowhere else. */
  lemma SessionAfterCancel(r: Runtime)
    requires CancelActs(r) && Get(r.snapshot, SessionState) != Text(EXAM_RUNNING_CONFIRMED)
    ensures var after := CancelConfirmation(r).snapshot;
            var back := if PreviousState(r) == Text(EXAM_RUNNING) then Text(EXAM_RUNNING_CONFIRMED) else PreviousState(r);
            && Get(after, SessionState) == back
            && Get(after, AudioLockActive)
            == if back == Text(EXAM_RUNNING_CONFIRMED) then Bool(true) else Get(r.snapshot, AudioLockActive)
  {
    StatesDiffer();
  }

  lemma CancelStaysOnCourseExactly(f: Flow)
    requires OnCourse(f)
    ensures OnCourse(Step(f, ConfirmationCancelled)) <==> !Disturbs(f, ConfirmationCancelled)
  {
    StatesDiffer();
    if CancelActs(f.runtime) {
      CancelFinishes(f.runtime);
      SessionAfterCancel(f.runtime);
    }
  }

  /** Only an outside patch that disturbs takes an exit off its course. */
  lemma StaysOnCourseExactly(f: Flow, e: ExitEvent)
    requires OnCourse(f) && Enabled(f, e)
    ensures OnCourse(Step(f, e)) <==> !Disturbs(f, e)
  {
    var r := f.runtime;
    match e {
      case Request => RequestIsUnderWay(r);
      case ConfirmationOpens =>
      case ConfirmationCancelled => CancelStaysOnCourseExactly(f);
      case VisualRestored(fields) => EndAcknowledgedSettles(r, fields);
      case VisualThrows =>
      case CleanupResumes(visual, restored) => ResumedCleanupSettles(r, visual, restored);
      case ForceTimerFires(needsVisual) =>
        var fired := f.(runtime := r.(exitForceCleanupTimer := Idle));
        CleanupStaysOnCourse(fired, r.exitForceCleanupTimer.generation, needsVisual);
      case AudioTimerEvent => AudioTimerKeepsExit(r);
      case Background(p, o) => OutsidePatchStaysOnCourseExactly(f, p, o);
      case _ => AnswerStaysOnCourse(f, e);
    }
  }

  lemma OutsidePatchStaysOnCourseExactly(f: Flow, p: Patch, o: Options)
    requires OnCourse(f) && FromOutside(f, p, o)
    ensures OnCourse(f.(runtime := Update(f.runtime, p, o))) <==> !Disturbs(f, Background(p, o))
  {
    if Exiting(f.runtime) {
      BackgroundKeepsExit(f.runtime, p, o);
    } else {
      OutsidePatchUnsettlesExactly(f, p, o);
      FlaglessPatchKeepsFinished(f.runtime, p, o);
    }
  }

  lemma AnswerStaysOnCourse(f: Flow, e: ExitEvent)
    requires OnCourse(f) && Enabled(f, e)
    requires e.RustAcknowledges? || e.RustAcknowledgesWithoutData? || e.RustFails?
    ensures OnCourse(Step(f, e))
  {
    var r := f.runtime;
    match e {
      case RustAcknowledges(_, fields) =>
        MarkExitingIsUnderWay(StopMonitor(r).(activeExamMode := Null));
        EndAcknowledgedSettles(BeginAcknowledged(r), fields);
      case RustAcknowledgesWithoutData(base) => AnswerWithoutDataChangesNothing(r, base);
      case RustFails(needsVisual) =>
        CleanupStaysOnCourse(f.(awaitingRust := f.awaitingRust - 1), r.exitFlowGeneration, needsVisual);
    }
  }

  lemma CleanupStaysOnCourse(f: Flow, generation: nat, needsVisual: bool)
    requires Settled(f.runtime) || (UnderWay(f.runtime) && generation == f.runtime.exitFlowGeneration)
    ensures OnCourse(Cleanup(f, generation, needsVisual))
  {
    CleanupKeepsInv(f, generation, needsVisual);
    if CleanupProceeds(f.runtime, generation) && needsVisual {
      MarkExitingIsUnderWay(StopMonitor(f.runtime));
    }
  }

  predicate NeverDisturbed(f: Flow, events: seq<ExitEvent>)
    requires IsRun(f, events)
    decreases |events|
  {
    events == [] || (!Disturbs(f, events[0]) && NeverDisturbed(Step(f, events[0]), events[1..]))
  }

  lemma {:induction false} StaysOnCourse(f: Flow, events: seq<ExitEvent>)
    requires OnCourse(f) && IsRun(f, events) && NeverDisturbed(f, events)
    ensures OnCourse(Run(f, events))
    decreases |events|
  {
    if events != [] {
      StaysOnCourseExactly(f, events[0]);
      StaysOnCourse(Step(f, events[0]), events[1..]);
    }
  }

  /** A status answer that arrives after the exit, for one, moves the session on. */
  lemma LateStatusMovesOn(f: Flow, state: string)
    requires Settled(f.runtime) && state != EXITED
    ensures Enabled(f, Background(map[SessionState := Text(state)], PLAIN))
    ensures var after := Step(f, Background(map[SessionState := Text(state)], PLAIN));
            !Settled(after.runtime) && Finished(after.runtime)
  {
    var p: Patch := map[SessionState := Text(state)];
    OutsidePatchUnsettlesExactly(f, p, PLAIN);
    FlaglessPatchKeepsFinished(f.runtime, p, PLAIN);
  }

  // ---------------------------------------------------------------- where the flow comes to rest

  /** Marked as exiting, with nothing left that could finish the exit. */
  predicate Stranded(f: Flow) {
    && UnderWay(f.runtime)
    && f.awaitingRust == 0 && f.awaitingVisual == 0 && f.cleanups == 0 && f.runtime.exitForceCleanupTimer.Idle?
  }

  /** The last thing outstanding ends without ending the exit: the acknowledged restore throws, or, after an
      earlier one threw, the last answer carries no data. */
  predicate Strands(f: Flow, e: ExitEvent) {
    && Exiting(f.runtime) && f.cleanups == 0 && f.runtime.exitForceCleanupTimer.Idle?
    && ((e.VisualThrows? && f.awaitingVisual == 1 && f.awaitingRust == 0)
        || (e.RustAcknowledgesWithoutData? && f.awaitingVisual == 0 && f.awaitingRust == 1))
  }

  lemma AnswerStrandsExactly(f: Flow, e: ExitEvent)
    requires Consistent(f) && !Stranded(f) && Enabled(f, e)
    requires e.RustAcknowledges? || e.RustAcknowledgesWithoutData? || e.RustFails?
    ensures Stranded(Step(f, e)) <==> Strands(f, e)
  {
    match e {
      case RustAcknowledges(_, fields) => EndAcknowledgedSettles(BeginAcknowledged(f.runtime), fields);
      case RustAcknowledgesWithoutData(base) => AnswerWithoutDataChangesNothing(f.runtime, base);
      case RustFails(needsVisual) =>
        CleanupKeepsInv(f.(awaitingRust := f.awaitingRust - 1), f.runtime.exitFlowGeneration, needsVisual);
    }
  }

  lemma StrandsExactly(f: Flow, e: ExitEvent)
    requires Consistent(f) && !Stranded(f) && Enabled(f, e)
    ensures Stranded(Step(f, e)) <==> Strands(f, e)
  {
    var r := f.runtime;
    match e {
      case Request => RequestIsUnderWay(r);
      case ConfirmationOpens =>
      case ConfirmationCancelled => CancelKeepsInv(r);
      case VisualRestored(fields) => EndAcknowledgedSettles(r, fields);
      case VisualThrows =>
      case CleanupResumes(visual, restored) => ResumedCleanupSettles(r, visual, restored);
      case ForceTimerFires(needsVisual) =>
        var fired := f.(runtime := r.(exitForceCleanupTimer := Idle));
        CleanupKeepsInv(fired, r.exitForceCleanupTimer.generation, needsVisual);
      case AudioTimerEvent => AudioTimerKeepsExit(r);
      case Background(p, o) => OutsideStepStrandsNothing(f, p, o);
      case _ => AnswerStrandsExactly(f, e);
    }
  }

  lemma OutsideStepStrandsNothing(f: Flow, p: Patch, o: Options)
    requires Consistent(f) && FromOutside(f, p, o)
    ensures Stranded(f.(runtime := Update(f.runtime, p, o))) <==> Stranded(f)
  {
    if Exiting(f.runtime) {
      BackgroundKeepsExit(f.runtime, p, o);
    } else {
      FlaglessPatchKeepsFinished(f.runtime, p, o);
    }
  }

  /** What gets a stranded exit out of it: another request, or the cancelling of its confirmation. */
  predicate Frees(e: ExitEvent) {
    e.Request? || e.ConfirmationCancelled?
  }

  predicate NothingFrees(events: seq<ExitEvent>) {
    forall e <- events :: !Frees(e)
  }

  /** Some step of the run strands the exit, and nothing after it frees it. */
  predicate LeftStranded(f: Flow, events: seq<ExitEvent>)
    requires IsRun(f, events)
    decreases |events|
  {
    events != []
    && ((Strands(f, events[0]) && NothingFrees(events[1..])) || LeftStranded(Step(f, events[0]), events[1..]))
  }

  lemma StrandedStep(f: Flow, e: ExitEvent)
    requires Stranded(f) && Enabled(f, e)
    ensures Stranded(Step(f, e)) <==> !Frees(e)
    ensures e.Request? ==> Inv(Step(f, e)) && UnderWay(Step(f, e).runtime)
    ensures e.ConfirmationCancelled? ==> Finished(Step(f, e).runtime)
    ensures !Strands(f, e)
  {
    StatesDiffer();
    match e {
      case Request => RequestIsUnderWay(f.runtime);
      case ConfirmationOpens =>
      case ConfirmationCancelled => CancelFinishes(f.runtime);
      case Background(p, o) => OutsideStepStrandsNothing(f, p, o);
      case AudioTimerEvent => AudioTimerKeepsExit(f.runtime);
    }
  }

  lemma NothingFreesSplits(events: seq<ExitEvent>)
    requires events != []
    ensures NothingFrees(events) <==> !Frees(events[0]) && NothingFrees(events[1..])
  {
    assert events == [events[0]] + events[1..];
  }

  lemma {:induction false} StrandedExactly(f: Flow, events: seq<ExitEvent>)
    requires Consistent(f) && IsRun(f, events)
    ensures Stranded(Run(f, events)) <==> (Stranded(f) && NothingFrees(events)) || LeftStranded(f, events)
    decreases |events|
  {
    if events != [] {
      var e, rest := events[0], events[1..];
      NothingFreesSplits(events);
      StepKeepsConsistent(f, e);
      StrandedExactly(Step(f, e), rest);
      if Stranded(f) {
        StrandedStep(f, e);
      } else {
        StrandsExactly(f, e);
      }
    }
  }

  lemma AtRest(f: Flow)
    requires Consistent(f) && Quiescent(f)
    ensures Finished(f.runtime) <==> !Stranded(f)
    ensures OnCourse(f) ==> (Settled(f.runtime) <==> !Stranded(f))
  {
  }

  /** In every interleaving of overlapping exits, answers, failures, restores, timers and outside patches,
      with restores that may throw: at rest the exit is over exactly if no step stranded it for good, and
      settled exactly then unless an outside patch has moved on. */
  lemma RestsSettledExactly(f: Flow, events: seq<ExitEvent>)
    requires Consistent(f) && !Stranded(f) && IsRun(f, events) && Quiescent(Run(f, events))
    ensures Finished(Run(f, events).runtime) <==> !LeftStranded(f, events)
    ensures OnCourse(f) && NeverDisturbed(f, events) ==>
              (Settled(Run(f, events).runtime) <==> !LeftStranded(f, events))
  {
    RunKeepsConsistent(f, events);
    StrandedExactly(f, events);
    AtRest(Run(f, events));
    if OnCourse(f) && NeverDisturbed(f, events) {
      StaysOnCourse(f, events);
    }
  }

  predicate NeverStrands(f: Flow, events: seq<ExitEvent>)
    requires IsRun(f, events)
    decreases |events|
  {
    events == [] || (!Strands(f, events[0]) && NeverStrands(Step(f, events[0]), events[1..]))
  }

  lemma {:induction false} NeverStrandsLeavesNone(f: Flow, events: seq<ExitEvent>)
    requires IsRun(f, events) && NeverStrands(f, events)
    ensures !LeftStranded(f, events)
    decreases |events|
  {
    if events != [] {
      NeverStrandsLeavesNone(Step(f, events[0]), events[1..]);
    }
  }

  /** In particular, an exit whose steps never strand it comes to rest only finished, and settled if
      nothing moves on. */
  lemma RestsWithoutStranding(f: Flow, events: seq<ExitEvent>)
    requires OnCourse(f) && !Stranded(f) && IsRun(f, events) && NeverStrands(f, events)
    ensures var end := Run(f, events);
            Quiescent(end) ==> Finished(end.runtime) && (NeverDisturbed(f, events) ==> Settled(end.runtime))
  {
    NeverStrandsLeavesNone(f, events);
    if Quiescent(Run(f, events)) {
      RestsSettledExactly(f, events);
    }
  }

  lemma {:induction false} RescuedNeverStrands(f: Flow, events: seq<ExitEvent>)
    requires Inv(f) && IsRun(f, events) && forall e <- events :: !e.VisualThrows?
    ensures NeverStrands(f, events) && Inv(Run(f, events))
    decreases |events|
  {
    if events != [] {
      StepKeepsInvExactly(f, events[0]);
      RescuedNeverStrands(Step(f, events[0]), events[1..]);
    }
  }

  /** If no acknowledged restore throws, the flow comes to rest only with the exit complete. */
  lemma RestsOnlyExited(f: Flow, events: seq<ExitEvent>)
    requires Inv(f) && OnCourse(f) && IsRun(f, events)
    requires forall e <- events :: !e.VisualThrows?
    ensures var end := Run(f, events);
            Quiescent(end) ==> Finished(end.runtime) && (NeverDisturbed(f, events) ==> Settled(end.runtime))
  {
    RescuedNeverStrands(f, events);
    RestsWithoutStranding(f, events);
  }

  /** The same from the first request on. */
  lemma EveryExitCompletes(f: Flow, events: seq<ExitEvent>)
    requires Fresh(f) && IsRun(Step(f, Request), events)
    requires forall e <- events :: !e.VisualThrows?
    ensures var end := Run(Step(f, Request), events);
            Quiescent(end) ==>
              Finished(end.runtime) && (NeverDisturbed(Step(f, Request), events) ==> Settled(end.runtime))
  {
    RequestIsUnderWay(f.runtime);
    RestsOnlyExited(Step(f, Request), events);
  }

  // ---------------------------------------------------------------- liveness

  function Pending(t: Timer): nat {
    if t.Armed? then 1 else 0
  }

  function Measure(f: Flow): nat {
    5 * f.awaitingRust + 4 * Pending(f.runtime.exitForceCleanupTimer)
    + 2 * (f.awaitingVisual + f.cleanups) + Pending(f.runtime.exitAudioRestoreTimer)
  }

  lemma CleanupMeasure(f: Flow, generation: nat, needsVisual: bool)
    ensures Measure(Cleanup(f, generation, needsVisual)) <= Measure(f) + 3
  {
    if CleanupProceeds(f.runtime, generation) && !needsVisual {
      MarkExitedSettles(BeginCleanup(f.runtime).(activeExamMode := Null));
    }
  }

  lemma InternalStepDecreases(f: Flow, e: ExitEvent)
    requires Enabled(f, e) && Internal(e)
    ensures Measure(Step(f, e)) < Measure(f)
  {
    var r := f.runtime;
    match e {
      case RustAcknowledges(_, fields) => EndAcknowledgedSettles(BeginAcknowledged(r), fields);
      case RustAcknowledgesWithoutData(_) =>
      case RustFails(needsVisual) =>
        CleanupMeasure(f.(awaitingRust := f.awaitingRust - 1), r.exitFlowGeneration, needsVisual);
      case VisualRestored(fields) => EndAcknowledgedSettles(r, fields);
      case VisualThrows =>
      case CleanupResumes(visual, restored) => ResumedCleanupSettles(r, visual, restored);
      case ForceTimerFires(needsVisual) =>
        CleanupMeasure(f.(runtime := r.(exitForceCleanupTimer := Idle)), r.exitForceCleanupTimer.generation, needsVisual);
      case AudioTimerEvent => AudioTimerKeepsExit(r);
    }
  }

  lemma OutsideStepMeasure(f: Flow, e: ExitEvent)
    requires Enabled(f, e) && !Internal(e)
    ensures Measure(Step(f, e)) <= Measure(f) + if e.Request? then 9 else 0
  {
  }

  function CountInternal(events: seq<ExitEvent>): nat {
    if events == [] then 0 else (if Internal(events[0]) then 1 else 0) + CountInternal(events[1..])
  }

  function CountRequests(events: seq<ExitEvent>): nat {
    if events == [] then 0 else (if events[0].Request? then 1 else 0) + CountRequests(events[1..])
  }

  /** A run's own steps are bounded by what was outstanding and by the exits requested in it, so after
      the last request the flow comes to rest. */
  lemma {:induction false} FlowComesToRest(f: Flow, events: seq<ExitEvent>)
    requires IsRun(f, events)
    ensures CountInternal(events) + Measure(Run(f, events)) <= Measure(f) + 9 * CountRequests(events)
    decreases |events|
  {
    if events != [] {
      if Internal(events[0]) {
        InternalStepDecreases(f, events[0]);
      } else {
        OutsideStepMeasure(f, events[0]);
      }
      FlowComesToRest(Step(f, events[0]), events[1..]);
    }
  }

  // ---------------------------------------------------------------- the cancelled exit

  lemma RequestKeepsPrevious(r: Runtime)
    ensures MarkExitRequested(r).exitPreviousSessionState == r.exitPreviousSessionState
  {
  }

  /** Cancelling a confirmed exit brings back the session it was requested in, but does not recall the
      command: the answer that is still outstanding completes the exit all the same. */
  lemma CancelDoesNotRecall(f: Flow, fields: Patch)
    requires var s := Get(f.runtime.snapshot, SessionState); s.Text? && s != Text(EXITED) && !Exiting(f.runtime)
    ensures var s := Get(f.runtime.snapshot, SessionState);
            var cancelled := Step(Step(Step(f, ConfirmationOpens), Request), ConfirmationCancelled);
            && Finished(cancelled.runtime)
            && Get(cancelled.runtime.snapshot, SessionState)
            == (if s == Text(EXAM_RUNNING) then Text(EXAM_RUNNING_CONFIRMED) else s)
            && Enabled(cancelled, RustAcknowledges(false, fields))
            && Settled(Step(cancelled, RustAcknowledges(false, fields)).runtime)
  {
    var confirming := OpenConfirmation(f.runtime);
    CancelledRequest(confirming);
    EndAcknowledgedSettles(BeginAcknowledged(CancelConfirmation(MarkExitRequested(confirming))), fields);
  }

  lemma CancelledRequest(r: Runtime)
    requires r.exitPreviousSessionState.Text?
    ensures var cancelled := CancelConfirmation(MarkExitRequested(r));
            && Finished(cancelled)
            && Get(cancelled.snapshot, SessionState)
            == (if r.exitPreviousSessionState == Text(EXAM_RUNNING) then Text(EXAM_RUNNING_CONFIRMED)
                else r.exitPreviousSessionState)
  {
    StatesDiffer();
    RequestIsUnderWay(r);
    RequestKeepsPrevious(r);
    CancelFinishes(MarkExitRequested(r));
    SessionAfterCancel(MarkExitRequested(r));
  }

  // ---------------------------------------------------------------- the stranded exit

  /** A stranded exit stays so until another exit is requested or its confirmation is cancelled: a request
      puts it under way again with its timer armed, the cancelling finishes it at once. */
  lemma StrandedUntilFreed(f: Flow, events: seq<ExitEvent>, e: ExitEvent)
    requires Stranded(f) && IsRun(f, events) && NothingFrees(events)
    ensures Stranded(Run(f, events))
    ensures Enabled(Run(f, events), e) ==>
              var after := Step(Run(f, events), e);
              && (Stranded(after) <==> !Frees(e))
              && (e.Request? ==> Inv(after) && UnderWay(after.runtime))
              && (e.ConfirmationCancelled? ==> Finished(after.runtime))
  {
    StrandedExactly(f, events);
    if Enabled(Run(f, events), e) {
      StrandedStep(Run(f, events), e);
    }
  }

  lemma Then(f: Flow, e: ExitEvent, events: seq<ExitEvent>)
    requires Enabled(f, e) && IsRun(Step(f, e), events)
    ensures IsRun(f, [e] + events) && Run(f, [e] + events) == Run(Step(f, e), events)
  {
    assert ([e] + events)[1..] == events;
  }

  lemma RequestThenTimer(f: Flow)
    requires Fresh(f)
    ensures var requested := Step(f, Request);
            && Enabled(requested, ForceTimerFires(true))
            && Step(requested, ForceTimerFires(true)).(runtime := f.runtime) == f.(awaitingRust := 1, cleanups := 1)
  {
    RequestIsUnderWay(f.runtime);
  }

  lemma CleanupThenExited(f: Flow)
    requires f.cleanups == 1
    ensures Settled(Step(f, CleanupResumes(map[], false)).runtime)
  {
    ResumedCleanupSettles(f.runtime, map[], false);
    assert Step(f, CleanupResumes(map[], false)).runtime == EndCleanup(f.runtime, map[], false);
  }

  lemma CleanupLeavesAnswers(f: Flow)
    requires f.cleanups > 0
    ensures Step(f, CleanupResumes(map[], false)).(runtime := f.runtime) == f.(cleanups := f.cleanups - 1)
  {
  }

  lemma ReopenedThenStuck(f: Flow)
    requires Settled(f.runtime) && f.awaitingRust == 1 && f.awaitingVisual == 0 && f.cleanups == 0
    ensures IsRun(f, REOPENED) && Stranded(Run(f, REOPENED))
  {
    MarkExitingIsUnderWay(StopMonitor(f.runtime).(activeExamMode := Null));
    var reopened := Step(f, RustAcknowledges(true, map[]));
    Then(reopened, VisualThrows, []);
    assert [VisualThrows] + [] == [VisualThrows];
    Then(f, RustAcknowledges(true, map[]), [VisualThrows]);
    assert REOPENED == [RustAcknowledges(true, map[])] + [VisualThrows];
  }

  const REOPENED: seq<ExitEvent> := [RustAcknowledges(true, map[]), VisualThrows]
  const AFTER_TIMER: seq<ExitEvent> := [CleanupResumes(map[], false)] + REOPENED
  const LATE_ACKNOWLEDGEMENT: seq<ExitEvent> := [Request] + ([ForceTimerFires(true)] + AFTER_TIMER)

  /** From every fresh start, with a protection that cannot be restored: the force-cleanup timer's restore
      throws and the exit is completed all the same; the sidecar's late acknowledgement opens it again, and
      its restore throws too. */
  lemma LateAcknowledgementStrands(f: Flow)
    requires Fresh(f)
    ensures IsRun(f, LATE_ACKNOWLEDGEMENT) && Stranded(Run(f, LATE_ACKNOWLEDGEMENT))
  {
    RequestThenTimer(f);
    StuckAfterTimer(Step(Step(f, Request), ForceTimerFires(true)));
    Then(Step(f, Request), ForceTimerFires(true), AFTER_TIMER);
    Then(f, Request, [ForceTimerFires(true)] + AFTER_TIMER);
  }

  lemma StuckAfterTimer(f: Flow)
    requires f.cleanups == 1 && f.awaitingRust == 1 && f.awaitingVisual == 0
    ensures IsRun(f, AFTER_TIMER) && Stranded(Run(f, AFTER_TIMER))
  {
    CleanupThenExited(f);
    CleanupLeavesAnswers(f);
    ReopenedThenStuck(Step(f, CleanupResumes(map[], false)));
    Then(f, CleanupResumes(map[], false), REOPENED);
  }
}
