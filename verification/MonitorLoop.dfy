/**
 The monitor loop's ticks as a state machine cut at the tick's `await`: which ticks are pending and
 with which generation, while stops, exits and other updates come in between.
 */
module MonitorLoop {
  import opened Snapshots
  import opened StateGovernor
  import opened RuntimeModel
  import opened RuntimeLocks
  import opened SnapshotLaws

  datatype Tick = Tick(id: nat, generation: nat)

  datatype Entry =
    | Requested(id: nat)
    | Stopped
    | Disconnected(id: nat) // stops the loop and marks the core as disconnected
    | Patched(id: nat)

  datatype Loop = Loop(runtime: Runtime, pending: seq<Tick>, nextId: nat, log: seq<Entry>)

  datatype MonitorEvent =
    | TickFires(connected: bool)
    | Start(connected: bool)
    | Answered(index: nat, answer: MonitorAnswer)
    | Stop
    | ExitRequested
    | ExitAcknowledged
    | CleanupBegun
    | Updated(patch: Patch, options: Options)

  predicate Enabled(l: Loop, e: MonitorEvent) {
    match e
    case TickFires(_) => l.runtime.monitorTimerArmed
    case Answered(index, _) => index < |l.pending|
    case _ => true
  }

  function Note(l: Loop, r: Runtime, e: Entry): Loop {
    l.(runtime := r, log := l.log + [e])
  }

  function AfterTickLoop(l: Loop, before: Runtime, after: Runtime, connected: bool): Loop {
    if TickStops(before, connected) then Note(l, after, Stopped)
    else if TickRequests(before, connected) then
      Note(l, after, Requested(l.nextId)).(pending := l.pending + [Tick(l.nextId, after.monitorGeneration)], nextId := l.nextId + 1)
    else l.(runtime := after)
  }

  function Without(pending: seq<Tick>, index: nat): seq<Tick>
    requires index < |pending|
  {
    pending[..index] + pending[index + 1..]
  }

  function Step(l: Loop, e: MonitorEvent): Loop
    requires Enabled(l, e)
  {
    var r := l.runtime;
    match e
    case TickFires(connected) => AfterTickLoop(l, r, AfterTick(r, connected), connected)
    case Start(connected) =>
      if StartStops(r, connected) then Note(l, AfterStart(r, connected), Stopped)
      else if StartRuns(r, connected) then
        AfterTickLoop(l, r.(monitorTimerArmed := true), AfterStart(r, connected), connected)
      else l
    case Answered(index, answer) =>
      var tick := l.pending[index];
      var after := AfterAnswer(r, tick.generation, answer);
      var taken := l.(pending := Without(l.pending, index));
      if tick.generation != r.monitorGeneration || answer.Threw? || (answer.Failed? && !answer.notConnected)
      then taken.(runtime := after)
      else if answer.Failed? then Note(taken, after, Disconnected(tick.id))
      else Note(taken, after, Patched(tick.id))
    case Stop => Note(l, StopMonitor(r), Stopped)
    case ExitRequested => Note(l, MarkExitRequested(r), Stopped)
    case ExitAcknowledged => Note(l, BeginAcknowledged(r), Stopped)
    case CleanupBegun => Note(l, BeginCleanup(r), Stopped)
    case Updated(p, o) => l.(runtime := Update(r, p, o))
  }

  predicate IsRun(l: Loop, events: seq<MonitorEvent>)
    decreases |events|
  {
    events == [] || (Enabled(l, events[0]) && IsRun(Step(l, events[0]), events[1..]))
  }

  function Run(l: Loop, events: seq<MonitorEvent>): Loop
    requires IsRun(l, events)
    decreases |events|
  {
    if events == [] then l else Run(Step(l, events[0]), events[1..])
  }

  // ---------------------------------------------------------------- what the log says

  predicate IsStop(e: Entry) {
    e.Stopped? || e.Disconnected?
  }

  function Stops(log: seq<Entry>): nat {
    if log == [] then 0 else Stops(log[..|log| - 1]) + if IsStop(log[|log| - 1]) then 1 else 0
  }

  /** The tick was requested, and nothing has stopped the loop since. */
  predicate RequestedSinceStop(log: seq<Entry>, id: nat) {
    log != []
    && (log[|log| - 1] == Requested(id) || (!IsStop(log[|log| - 1]) && RequestedSinceStop(log[..|log| - 1], id)))
  }

  /** Whatever a tick's answer changed, it was requested after the last stop. */
  predicate NeverStale(log: seq<Entry>) {
    log == []
    || (NeverStale(log[..|log| - 1])
        && match log[|log| - 1]
           case Patched(id) => RequestedSinceStop(log[..|log| - 1], id)
           case Disconnected(id) => RequestedSinceStop(log[..|log| - 1], id)
           case _ => true)
  }

  lemma LogGrows(log: seq<Entry>, e: Entry)
    ensures Stops(log + [e]) == Stops(log) + if IsStop(e) then 1 else 0
    ensures forall id :: RequestedSinceStop(log + [e], id) <==> e == Requested(id) || (!IsStop(e) && RequestedSinceStop(log, id))
    ensures NeverStale(log + [e])
      <==> (NeverStale(log) && ((e.Patched? || e.Disconnected?) ==> RequestedSinceStop(log, e.id)))
  {
    assert (log + [e])[..|log|] == log;
  }

  // ---------------------------------------------------------------- the invariant

  function CountCurrent(pending: seq<Tick>, generation: nat): nat {
    if pending == [] then 0 else CountCurrent(pending[1..], generation) + if pending[0].generation == generation then 1 else 0
  }

  predicate DistinctIds(l: Loop) {
    && (forall i | 0 <= i < |l.pending| :: l.pending[i].id < l.nextId)
    && (forall i, j | 0 <= i < j < |l.pending| :: l.pending[i].id != l.pending[j].id)
  }

  /** A pending tick is of the current generation exactly if nothing stopped the loop since its request. */
  predicate GenerationsTell(l: Loop) {
    forall i | 0 <= i < |l.pending| ::
      && l.pending[i].generation <= l.runtime.monitorGeneration
      && (l.pending[i].generation == l.runtime.monitorGeneration <==> RequestedSinceStop(l.log, l.pending[i].id))
  }

  predicate Inv(l: Loop, start: nat) {
    && CountCurrent(l.pending, l.runtime.monitorGeneration) == (if l.runtime.monitorTickInFlight then 1 else 0)
    && l.runtime.monitorGeneration == start + Stops(l.log)
    && DistinctIds(l) && GenerationsTell(l) && NeverStale(l.log)
  }

  lemma {:induction false} CountOfAppend(pending: seq<Tick>, t: Tick, generation: nat)
    ensures CountCurrent(pending + [t], generation) == CountCurrent(pending, generation) + if t.generation == generation then 1 else 0
  {
    if pending == [] {
      assert [] + [t] == [t];
    } else {
      CountOfAppend(pending[1..], t, generation);
      assert (pending + [t])[1..] == pending[1..] + [t];
    }
  }

  lemma {:induction false} CountOfWithout(pending: seq<Tick>, index: nat, generation: nat)
    requires index < |pending|
    ensures CountCurrent(pending, generation)
         == CountCurrent(Without(pending, index), generation) + if pending[index].generation == generation then 1 else 0
  {
    if index == 0 {
      assert Without(pending, 0) == pending[1..];
    } else {
      CountOfWithout(pending[1..], index - 1, generation);
      assert Without(pending, index)[1..] == Without(pending[1..], index - 1);
    }
  }

  lemma {:induction false} NoneOfLaterGeneration(pending: seq<Tick>, generation: nat)
    requires forall t <- pending :: t.generation < generation
    ensures CountCurrent(pending, generation) == 0
  {
    if pending != [] {
      NoneOfLaterGeneration(pending[1..], generation);
    }
  }

  // ---------------------------------------------------------------- steps

  /** A stop, alone or inside an exit step: the generation goes up and nothing is in flight. */
  lemma StopKeepsInv(l: Loop, r: Runtime, e: Entry, start: nat)
    requires Inv(l, start) && IsStop(e) && (e.Disconnected? ==> RequestedSinceStop(l.log, e.id))
    requires r.monitorGeneration == l.runtime.monitorGeneration + 1 && !r.monitorTickInFlight
    ensures Inv(Note(l, r, e), start)
  {
    LogGrows(l.log, e);
    NoneOfLaterGeneration(l.pending, r.monitorGeneration);
  }

  lemma RequestKeepsInv(l: Loop, r: Runtime, start: nat)
    requires Inv(l, start) && !l.runtime.monitorTickInFlight
    requires r.monitorGeneration == l.runtime.monitorGeneration && r.monitorTickInFlight
    ensures Inv(Note(l, r, Requested(l.nextId))
                  .(pending := l.pending + [Tick(l.nextId, r.monitorGeneration)], nextId := l.nextId + 1), start)
  {
    LogGrows(l.log, Requested(l.nextId));
    CountOfAppend(l.pending, Tick(l.nextId, r.monitorGeneration), r.monitorGeneration);
  }

  lemma TickKeepsInv(l: Loop, before: Runtime, connected: bool, start: nat)
    requires Inv(l, start)
    requires before.monitorGeneration == l.runtime.monitorGeneration
    requires before.monitorTickInFlight == l.runtime.monitorTickInFlight
    ensures Inv(AfterTickLoop(l, before, AfterTick(before, connected), connected), start)
  {
    var after := AfterTick(before, connected);
    if TickStops(before, connected) {
      StopKeepsInv(l, after, Stopped, start);
    } else if TickRequests(before, connected) {
      RequestKeepsInv(l, after, start);
    }
  }

  /** A tick leaves the pending ones; if it was the current one, nothing is in flight any more. */
  function Taken(l: Loop, index: nat): Loop
    requires index < |l.pending|
  {
    var current := l.pending[index].generation == l.runtime.monitorGeneration;
    l.(pending := Without(l.pending, index),
       runtime := l.runtime.(monitorTickInFlight := l.runtime.monitorTickInFlight && !current))
  }

  lemma TakenKeepsInv(l: Loop, index: nat, start: nat)
    requires Inv(l, start) && index < |l.pending|
    ensures Inv(Taken(l, index), start)
  {
    CountOfWithout(l.pending, index, l.runtime.monitorGeneration);
  }

  lemma PatchKeepsInv(l: Loop, r: Runtime, id: nat, start: nat)
    requires Inv(l, start) && RequestedSinceStop(l.log, id)
    requires r.monitorGeneration == l.runtime.monitorGeneration && r.monitorTickInFlight == l.runtime.monitorTickInFlight
    ensures Inv(Note(l, r, Patched(id)), start)
  {
    LogGrows(l.log, Patched(id));
  }

  lemma AnswerKeepsInv(l: Loop, index: nat, answer: MonitorAnswer, start: nat)
    requires Inv(l, start) && index < |l.pending|
    ensures Inv(Step(l, Answered(index, answer)), start)
  {
    var r, tick := l.runtime, l.pending[index];
    var after := AfterAnswer(r, tick.generation, answer);
    var taken := Taken(l, index);
    TakenKeepsInv(l, index, start);
    if tick.generation == r.monitorGeneration {
      match answer {
        case Threw => assert Step(l, Answered(index, answer)) == taken;
        case Failed(notConnected, _) =>
          if notConnected {
            StopKeepsInv(taken, after, Disconnected(tick.id), start);
            assert Step(l, Answered(index, answer)) == Note(taken, after, Disconnected(tick.id));
          } else {
            assert Step(l, Answered(index, answer)) == taken;
          }
        case Succeeded(_, _) =>
          PatchKeepsInv(taken, after, tick.id, start);
          assert Step(l, Answered(index, answer)) == Note(taken, after, Patched(tick.id));
      }
    } else {
      assert Step(l, Answered(index, answer)) == taken;
    }
  }

  lemma StepKeepsInv(l: Loop, e: MonitorEvent, start: nat)
    requires Inv(l, start) && Enabled(l, e)
    ensures Inv(Step(l, e), start)
  {
    var r := l.runtime;
    match e {
      case TickFires(connected) => TickKeepsInv(l, r, connected, start);
      case Start(connected) =>
        if StartStops(r, connected) {
          StopKeepsInv(l, AfterStart(r, connected), Stopped, start);
        } else if StartRuns(r, connected) {
          TickKeepsInv(l, r.(monitorTimerArmed := true), connected, start);
        }
      case Answered(index, answer) => AnswerKeepsInv(l, index, answer, start);
      case Stop => StopKeepsInv(l, StopMonitor(r), Stopped, start);
      case ExitRequested => StopKeepsInv(l, MarkExitRequested(r), Stopped, start);
      case ExitAcknowledged => StopKeepsInv(l, BeginAcknowledged(r), Stopped, start);
      case CleanupBegun => StopKeepsInv(l, BeginCleanup(r), Stopped, start);
      case Updated(p, o) =>
    }
  }

  // ---------------------------------------------------------------- whole runs

  function Idling(r: Runtime): Loop {
    Loop(r, [], 0, [])
  }

  lemma {:induction false} RunKeepsInv(l: Loop, events: seq<MonitorEvent>, start: nat)
    requires Inv(l, start) && IsRun(l, events)
    ensures Inv(Run(l, events), start)
    decreases |events|
  {
    if events != [] {
      StepKeepsInv(l, events[0], start);
      RunKeepsInv(Step(l, events[0]), events[1..], start);
    }
  }

  /** In every run the in-flight flag is up exactly while one pending tick has the current generation,
      and no answer to a request made before a stop or an exit ever patches the snapshot. */
  lemma OneCurrentTick(r: Runtime, events: seq<MonitorEvent>)
    requires !r.monitorTickInFlight && IsRun(Idling(r), events)
    ensures var l := Run(Idling(r), events);
            && CountCurrent(l.pending, l.runtime.monitorGeneration) == (if l.runtime.monitorTickInFlight then 1 else 0)
            && NeverStale(l.log)
  {
    RunKeepsInv(Idling(r), events, r.monitorGeneration);
  }

  /** In every run an answer is used exactly if nothing stopped the loop since its request. */
  lemma AnswerUsedExactly(r: Runtime, events: seq<MonitorEvent>, index: nat, reported: Val, fields: Patch)
    requires !r.monitorTickInFlight && IsRun(Idling(r), events) && index < |Run(Idling(r), events).pending|
    ensures var l := Run(Idling(r), events);
            var after := Step(l, Answered(index, Succeeded(reported, fields)));
            if RequestedSinceStop(l.log, l.pending[index].id)
            then after.runtime.snapshot == Update(l.runtime, MonitorPatch(l.runtime, reported, fields), PLAIN).snapshot
            else after.runtime == l.runtime
  {
    RunKeepsInv(Idling(r), events, r.monitorGeneration);
  }

  // ---------------------------------------------------------------- the monitor goes on

  /** A protected exam that no exit has begun to leave. */
  predicate Monitored(r: Runtime) {
    MonitorAllowed(r) && Protected(r) && !Exiting(r)
  }

  /** In a protected exam every tick asks the core as long as it is connected and no answer is outstanding. */
  lemma TickAsksExactly(r: Runtime, connected: bool)
    requires Monitored(r)
    ensures AfterTick(r, connected).monitorTickInFlight <==> r.monitorTickInFlight || connected
    ensures AfterTick(r, connected).monitorTimerArmed == r.monitorTimerArmed
    ensures AfterTick(r, connected).snapshot == r.snapshot
  {
    StatesDiffer();
  }

  /** Starting the loop there arms the timer and asks at once. */
  lemma StartAsks(r: Runtime)
    requires Monitored(r) && !r.monitorTimerArmed
    ensures AfterStart(r, true).monitorTimerArmed && AfterStart(r, true).monitorTickInFlight
  {
    StatesDiffer();
  }

  /** Whatever the core answers short of a lost connection, and if the request fails or throws, the timer stays
      armed and nothing is in flight any more: while the exam stays monitored the next tick asks again. */
  lemma AnswerLetsTheLoopGoOn(r: Runtime, answer: MonitorAnswer)
    requires r.monitorTickInFlight && !(answer.Failed? && answer.notConnected)
    ensures var after := AfterAnswer(r, r.monitorGeneration, answer);
            && after.monitorTimerArmed == r.monitorTimerArmed && !after.monitorTickInFlight
            && after.monitorGeneration == r.monitorGeneration
            && (Monitored(after) ==> AfterTick(after, true).monitorTickInFlight)
  {
    var after := AfterAnswer(r, r.monitorGeneration, answer);
    if Monitored(after) {
      TickAsksExactly(after, true);
    }
  }

  /** Outside the confirmed exam, apart from entering the kiosk, the next connected tick ends the loop. */
  lemma LoopEndsOutsideTheExam(r: Runtime)
    requires !MonitorAllowed(r) && !EnteringKiosk(r) && !r.monitorTickInFlight
    ensures var after := AfterTick(r, true);
            && !after.monitorTimerArmed && !after.monitorTickInFlight
            && after.monitorGeneration == r.monitorGeneration + 1
  {
  }

  /** The state an answer leads to: the reported one if it is a string, the legacy name read as the new one. */
  function ReportedState(r: Runtime, reported: Val): Val {
    var state := if reported.Text? then reported else Get(r.snapshot, SessionState);
    if state == Text(EXAM_RUNNING) then Text(EXAM_RUNNING_CONFIRMED) else state
  }

  /** What a current answer reports stands in the snapshot: the state if it is a string, and every field no
      lock keeps. */
  lemma AnswerLands(r: Runtime, reported: Val, fields: Patch, f: Field)
    requires LeftToThePatch(f)
    ensures Get(AfterAnswer(r, r.monitorGeneration, Succeeded(reported, fields)).snapshot, f)
         == if KeptByLocks(r, MonitorPatch(r, reported, fields), PLAIN, f) then Get(r.snapshot, f)
            else if f.SessionState? then ReportedState(r, reported)
            else if f in fields then fields[f]
            else Get(r.snapshot, f)
  {
    PatchLandsExactly(r, MonitorPatch(r, reported, fields), PLAIN, f);
  }

  lemma FieldsOfLostConnection(code: Val)
    ensures var connected, error := OtherField("nativeCoreConnected"), OtherField("errorCode");
            && connected in DisconnectedPatch(code) && DisconnectedPatch(code)[connected] == Bool(false)
            && error in DisconnectedPatch(code) && DisconnectedPatch(code)[error] == code
            && LeftToThePatch(connected) && LeftToThePatch(error) && !Frozen(connected) && !Frozen(error)
  {
    assert |"nativeCoreConnected"| != |"errorCode"|;
  }

  /** A lost connection stops the loop and is noted with its error. */
  lemma LostConnectionStops(r: Runtime, code: Val)
    ensures var after := AfterAnswer(r, r.monitorGeneration, Failed(true, code));
            && !after.monitorTimerArmed && !after.monitorTickInFlight
            && Get(after.snapshot, OtherField("nativeCoreConnected")) == Bool(false)
            && Get(after.snapshot, OtherField("errorCode")) == code
  {
    var stopped := StopMonitor(r);
    FieldsOfLostConnection(code);
    UncriticalFieldsAlwaysLand(stopped, DisconnectedPatch(code), PLAIN, OtherField("nativeCoreConnected"));
    UncriticalFieldsAlwaysLand(stopped, DisconnectedPatch(code), PLAIN, OtherField("errorCode"));
  }
}
