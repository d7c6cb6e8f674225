/** Whole runs of the emergency-restore widget: what its nonce set remembers and what a request proves. */
module EmergencyWidgetLaws {
  import opened Wrappers
  import opened Text
  import opened ReplayCache
  import opened GreatestNonces
  import opened EmergencyWidget

  /** For the record: holds begun, holds forgotten, and requests made with the duration then required. */
  datatype HoldEntry = Began(at: U64) | Forgot | Produced(at: U64, required: U64)

  datatype Machine = Machine(widget: Widget, nonces: set<Str>, accepted: seq<Str>, log: seq<HoldEntry>)

  datatype Event =
    | Synced(show: bool, policy: Policy, nowMs: U64)
    | HoldStarted(nowMs: U64)
    | HoldCancelled
    | HoldCompleted(nowMs: U64)
    | Validated(request: Request, context: Context)
    | MarkedRestoring
    | MarkedCompleted
    | MarkedFailed

  function ForgetIf(log: seq<HoldEntry>, forgets: bool): seq<HoldEntry> {
    if forgets then log + [Forgot] else log
  }

  ghost function Step(m: Machine, e: Event): Machine {
    var w := m.widget;
    match e
    case Synced(show, p, now) =>
      m.(widget := SyncVisibility(w, show, p, now), log := ForgetIf(m.log, !show && (w.visible || !w.state.Hidden?)))
    case HoldStarted(now) =>
      m.(widget := StartHold(w, now), log := if w.visible then m.log + [Began(now)] else m.log)
    case HoldCancelled => m.(widget := CancelHold(w), log := ForgetIf(m.log, w.state.Holding?))
    case HoldCompleted(now) =>
      m.(widget := AfterCompleteHold(w, now),
         log := match CompleteHold(w, now)
                case Ok(_) => m.log + [Produced(now, w.requireHoldMs)]
                case Err(ReleasedEarly) => ForgetIf(m.log, w.state.Holding?)
                case _ => m.log)
    case Validated(r, c) =>
      if Check(r, c, m.nonces, w.widgetId).Some? then m.(widget := w.(state := Rejected))
      else m.(widget := w.(state := Accepted), nonces := Inserted(m.nonces, r.nonce, MAX_RECENT_NONCES),
              accepted := m.accepted + [r.nonce])
    case MarkedRestoring => m.(widget := w.(state := Restoring))
    case MarkedCompleted => m.(widget := w.(visible := false, state := Completed))
    case MarkedFailed => m.(widget := w.(visible := true, state := FailedRestore))
  }

  ghost function Run(m: Machine, events: seq<Event>): Machine
    decreases |events|
  {
    if events == [] then m else Run(Step(m, events[0]), events[1..])
  }

  const INITIAL: Machine := Machine(Widget(false, Hidden, None, None, None, 2_000, None, 0), {}, [], [])

  // ---------------------------------------------------------------- nonces

  predicate RemembersGreatest(m: Machine) {
    Greatest(m.nonces, Elements(m.accepted), MAX_RECENT_NONCES)
  }

  lemma AcceptedIsRemembered(nonces: set<Str>, accepted: seq<Str>, nonce: Str)
    requires Greatest(nonces, Elements(accepted), MAX_RECENT_NONCES) && nonce !in nonces
    ensures Greatest(Inserted(nonces, nonce, MAX_RECENT_NONCES), Elements(accepted + [nonce]), MAX_RECENT_NONCES)
  {
    InsertedIsGreatest(nonces, Elements(accepted), MAX_RECENT_NONCES, nonce);
    ElementsOfAppend(accepted, nonce);
  }

  lemma StepRemembersGreatest(m: Machine, e: Event)
    requires RemembersGreatest(m)
    ensures RemembersGreatest(Step(m, e))
  {
    if e.Validated? && Check(e.request, e.context, m.nonces, m.widget.widgetId).None? {
      AcceptedIsRemembered(m.nonces, m.accepted, e.request.nonce);
    }
  }

  lemma {:induction false} RunRemembersGreatest(m: Machine, events: seq<Event>)
    requires RemembersGreatest(m)
    ensures RemembersGreatest(Run(m, events))
    decreases |events|
  {
    if events != [] {
      StepRemembersGreatest(m, events[0]);
      RunRemembersGreatest(Step(m, events[0]), events[1..]);
    }
  }

  /** After any run the nonce set is the 64 greatest of all nonces ever accepted, or all of them. */
  lemma NoncesAreTheGreatest(events: seq<Event>)
    ensures RemembersGreatest(Run(INITIAL, events))
  {
    assert Elements([]) == {};
    RunRemembersGreatest(INITIAL, events);
  }

  /** If nonces were accepted in ascending order, a request that passes every other check is refused as a
      replay exactly if its nonce is among the last 64 accepted. */
  lemma LastOnesCannotBeReplayed(events: seq<Event>, r: Request, c: Context)
    requires var m := Run(INITIAL, events);
             Ascending(m.accepted) && Precheck(r, c).None? && m.widget.widgetId == Some(r.widgetId)
    ensures var m := Run(INITIAL, events);
            Check(r, c, m.nonces, m.widget.widgetId)
            == if r.nonce in LastOnes(m.accepted, MAX_RECENT_NONCES) then Some(Replayed) else None
  {
    var m := Run(INITIAL, events);
    var last := LastOnes(m.accepted, MAX_RECENT_NONCES);
    NoncesAreTheGreatest(events);
    GreatestOfAscending(m.accepted, MAX_RECENT_NONCES);
    GreatestIsUnique(m.nonces, Elements(last), Elements(m.accepted), MAX_RECENT_NONCES);
    assert r.nonce in Elements(last) <==> r.nonce in last;
  }

  // ---------------------------------------------------------------- holds

  function OpenHold(log: seq<HoldEntry>): Option<U64> {
    if log != [] && log[|log| - 1].Began? then Some(log[|log| - 1].at) else None
  }

  /** Every request was made by the hold that directly precedes it, and that hold lasted long enough. */
  predicate RequestsFollowHolds(log: seq<HoldEntry>) {
    forall i | 0 <= i < |log| && log[i].Produced? ::
      i > 0 && log[i - 1].Began? && SaturatingSub(log[i].at, log[i - 1].at) >= log[i].required
  }

  predicate HoldInv(m: Machine) {
    m.widget.holdStartedAt == OpenHold(m.log) && RequestsFollowHolds(m.log)
  }

  lemma LogKeepsHolds(log: seq<HoldEntry>, e: HoldEntry)
    requires RequestsFollowHolds(log)
    requires e.Produced? ==> OpenHold(log).Some? && SaturatingSub(e.at, OpenHold(log).value) >= e.required
    ensures RequestsFollowHolds(log + [e])
  {
    var grown := log + [e];
    forall i | 0 <= i < |grown| && grown[i].Produced?
      ensures i > 0 && grown[i - 1].Began? && SaturatingSub(grown[i].at, grown[i - 1].at) >= grown[i].required
    {
      if i < |log| {
        assert log[i].Produced?;
      }
    }
  }

  lemma StepKeepsHolds(m: Machine, e: Event)
    requires HoldInv(m)
    ensures HoldInv(Step(m, e))
  {
    match e {
      case Synced(_, _, _) => LogKeepsHolds(m.log, Forgot);
      case HoldStarted(now) => LogKeepsHolds(m.log, Began(now));
      case HoldCancelled => LogKeepsHolds(m.log, Forgot);
      case HoldCompleted(now) =>
        LogKeepsHolds(m.log, Forgot);
        if CompleteHold(m.widget, now).Ok? {
          LogKeepsHolds(m.log, Produced(now, m.widget.requireHoldMs));
        }
      case _ =>
    }
  }

  /** In every run every request comes from one hold of at least the duration required when it was made,
      and a hold makes at most one request. */
  lemma {:induction false} EveryRequestWasHeld(m: Machine, events: seq<Event>)
    requires HoldInv(m)
    ensures HoldInv(Run(m, events))
    decreases |events|
  {
    if events != [] {
      StepKeepsHolds(m, events[0]);
      EveryRequestWasHeld(Step(m, events[0]), events[1..]);
    }
  }

  /** Letting go of the button forgets a hold exactly while the state is still "holding". */
  lemma CancelForgetsExactly(w: Widget)
    requires w.holdStartedAt.Some?
    ensures CancelHold(w).holdStartedAt.None? <==> w.state.Holding?
  {
  }

  /** If a request is refused while the button is held, letting go is not noticed: the widget still turns
      the hold into a request once the time is over. */
  lemma ReleasedHoldStillCounts(m: Machine, start: U64, r: Request, c: Context, later: U64)
    requires m.widget.visible && m.widget.widgetId.Some? && Check(r, c, m.nonces, m.widget.widgetId).Some?
    requires SaturatingSub(later, start) >= m.widget.requireHoldMs
    ensures var released := Run(m, [HoldStarted(start), Validated(r, c), HoldCancelled]);
            CompleteHold(released.widget, later).Ok?
  {
    var events := [HoldStarted(start), Validated(r, c), HoldCancelled];
    assert events[1..] == [Validated(r, c), HoldCancelled] && events[1..][1..] == [HoldCancelled];
    assert [HoldCancelled][1..] == [];
    var held := Step(m, HoldStarted(start));
    var refused := Step(held, Validated(r, c));
    assert Run(m, events) == Run(held, events[1..]) == Run(refused, [HoldCancelled]) == Step(refused, HoldCancelled);
  }

  // ---------------------------------------------------------------- what an acceptance proves

  /** A request is accepted if and only if the policy wants it, the exam is protected and in one of four
      states, and the request names the trusted reason, the active session, this runtime and the widget shown,
      carries a proof of protection, is no older than 30 seconds and has a nonce that is not remembered. */
  lemma AcceptedExactly(r: Request, c: Context, nonces: set<Str>, widgetId: Option<Id>)
    ensures Check(r, c, nonces, widgetId).None? <==>
              && c.policy.enabled && c.policy.auditRequired && c.policy.allowDuringExam
              && (c.kioskActive || c.isolationActive)
              && c.sessionState in {"STARTING_EXAM_SESSION", "EXAM_RUNNING", "RECOVERING", "RECOVERY_REQUIRED"}
              && r.reason == "user_emergency_widget"
              && (c.activeSessionId == r.sessionId || (c.activeSessionId == Some("") && r.sessionId == None))
              && c.activeSessionId.Some? && r.runtimeId == Some(c.expectedRuntimeId)
              && (r.kioskActive || r.isolationActive) && c.nowMs <= r.requestedAt + 30_000
              && r.nonce !in nonces && widgetId == Some(r.widgetId)
  {
  }

  /** The k-th event is a request with this nonce that passes every check in the state it meets. */
  ghost predicate PassesAt(m: Machine, events: seq<Event>, nonce: Str, k: nat)
    requires k < |events|
  {
    var before := Run(m, events[..k]);
    var e := events[k];
    e.Validated? && e.request.nonce == nonce && Check(e.request, e.context, before.nonces, before.widget.widgetId).None?
  }

  ghost predicate Passes(m: Machine, events: seq<Event>, nonce: Str) {
    exists k: nat :: k < |events| && PassesAt(m, events, nonce, k)
  }

  lemma LaterEvent(m: Machine, events: seq<Event>, nonce: Str, k: nat)
    requires events != [] && k < |events| - 1
    ensures PassesAt(Step(m, events[0]), events[1..], nonce, k) <==> PassesAt(m, events, nonce, k + 1)
  {
    assert events[..k + 1][1..] == events[1..][..k];
    assert events[..k + 1][0] == events[0];
  }

  lemma PassesNowOrLater(m: Machine, events: seq<Event>, nonce: Str)
    requires events != []
    ensures Passes(m, events, nonce) <==>
              PassesAt(m, events, nonce, 0) || Passes(Step(m, events[0]), events[1..], nonce)
  {
    if Passes(m, events, nonce) && !PassesAt(m, events, nonce, 0) {
      var k: nat :| k < |events| && PassesAt(m, events, nonce, k);
      LaterEvent(m, events, nonce, k - 1);
    }
    if Passes(Step(m, events[0]), events[1..], nonce) {
      var k: nat :| k < |events[1..]| && PassesAt(Step(m, events[0]), events[1..], nonce, k);
      LaterEvent(m, events, nonce, k);
    }
  }

  lemma StepAcceptsExactly(m: Machine, events: seq<Event>, nonce: Str)
    requires events != []
    ensures nonce in Step(m, events[0]).accepted <==> nonce in m.accepted || PassesAt(m, events, nonce, 0)
  {
    assert events[..0] == [];
  }

  /** In every run the nonces accepted are exactly those of the requests that passed every check when made. */
  lemma {:induction false} OnlyCheckedRequestsAreAccepted(m: Machine, events: seq<Event>, nonce: Str)
    ensures nonce in Run(m, events).accepted <==> nonce in m.accepted || Passes(m, events, nonce)
    decreases |events|
  {
    if events != [] {
      OnlyCheckedRequestsAreAccepted(Step(m, events[0]), events[1..], nonce);
      StepAcceptsExactly(m, events, nonce);
      PassesNowOrLater(m, events, nonce);
    }
  }

  // ---------------------------------------------------------------- what a hold and a synchronisation do

  /** In every run the button makes a request exactly if a hold is open that has lasted long enough and the
      widget has an id; the request then carries that id and the time. */
  lemma HoldCompletesExactly(m: Machine, nowMs: U64)
    requires HoldInv(m)
    ensures var r := CompleteHold(m.widget, nowMs);
            var open := OpenHold(m.log);
            && (r.Ok? <==>
                  open.Some? && SaturatingSub(nowMs, open.value) >= m.widget.requireHoldMs && m.widget.widgetId.Some?)
            && (r.Ok? ==>
                  && Some(r.value.widgetId) == m.widget.widgetId && r.value.requestedAt == nowMs
                  && r.value.nonce == NonceSource(nowMs, m.widget.attempts + 1)
                  && AfterCompleteHold(m.widget, nowMs).attempts == m.widget.attempts + 1
                  && AfterCompleteHold(m.widget, nowMs).holdStartedAt.None?)
  {
  }

  /** After a synchronisation the widget is visible exactly if it should be; it gets new ids exactly when it
      appears, loses them when it disappears, and always takes over the duration. */
  lemma SyncShowsExactly(w: Widget, show: bool, p: Policy, nowMs: U64)
    ensures var after := SyncVisibility(w, show, p, nowMs);
            && after.visible == show && after.requireHoldMs == p.requireHoldMs
            && (show && !w.visible ==> after.widgetId == after.correlationId == Some(Stamped(nowMs)) && after.state == Visible)
            && (show && w.visible ==> after == w.(requireHoldMs := p.requireHoldMs))
            && (!show && w.visible ==>
                  after.widgetId == after.correlationId == None && after.holdStartedAt == None && after.state == Hidden)
            && after.attempts == w.attempts && after.lastRequestAt == w.lastRequestAt
  {
  }
}
