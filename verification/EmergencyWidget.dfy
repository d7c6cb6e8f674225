/**
 The emergency-restore widget: shown while an exam is protected, it turns a long enough hold of its
 button into a request, and the core checks the request before it restores the desktop.
 */
module EmergencyWidget {
  import opened Wrappers
  import opened Text
  import opened ReplayCache
  import opened GreatestNonces

  const REQUEST_TTL_MS: U64 := 30_000
  const MAX_RECENT_NONCES: nat := 64
  const TRUSTED_REASON: string := "user_emergency_widget"

  datatype WidgetState =
    | Hidden | Visible | Holding | Requested | Accepted | Rejected | Restoring | Completed | FailedRestore

  datatype Policy = Policy(enabled: bool, requireHoldMs: U64, allowDuringExam: bool, auditRequired: bool)

  /** Identifiers the widget makes from the time, and any other text. */
  datatype Id = Stamped(nowMs: U64) | OtherText(text: string)

  /** A nonce is a string of bytes. The widget's own are written from the time and the attempt count. */
  datatype NonceSource = NonceSource(nowMs: U64, attempt: nat)

  datatype Request = Request(
    sessionId: Option<string>,
    runtimeId: Option<string>,
    reason: string,
    widgetId: Id,
    requestedAt: U64,
    isolationActive: bool,
    kioskActive: bool,
    nonce: Str)

  /** What a completed hold produces; the session, the runtime and the proof of protection are added later. */
  datatype Draft = Draft(widgetId: Id, correlationId: Id, requestedAt: U64, nonce: NonceSource)

  datatype Context = Context(
    activeSessionId: Option<string>,
    sessionState: string,
    expectedRuntimeId: string,
    kioskActive: bool,
    isolationActive: bool,
    nowMs: U64,
    policy: Policy)

  datatype Reason =
    | DisabledByPolicy | NotDuringExam | NotInThisState | UntrustedReason | WrongSession | WrongRuntime
    | NoProofOfProtection | Stale | Replayed | WrongWidget

  datatype HoldError = NotStarted | ReleasedEarly | NoWidgetId

  datatype Result<T, E> = Ok(value: T) | Err(error: E)

  predicate ShouldShow(sessionState: string, kioskActive: bool, isolationActive: bool, p: Policy) {
    p.enabled && (kioskActive || isolationActive)
    && sessionState in {"STARTING_EXAM_SESSION", "EXAM_RUNNING", "RECOVERING", "RECOVERY_REQUIRED"}
  }

  /** The checks before the nonce, in their order; the first that fails is the reason. */
  function Precheck(r: Request, c: Context): Option<Reason> {
    if !c.policy.enabled || !c.policy.auditRequired then Some(DisabledByPolicy)
    else if !c.policy.allowDuringExam then Some(NotDuringExam)
    else if !ShouldShow(c.sessionState, c.kioskActive, c.isolationActive, c.policy) then Some(NotInThisState)
    else if r.reason != TRUSTED_REASON then Some(UntrustedReason)
    else if Some(if r.sessionId.Some? then r.sessionId.value else "") != c.activeSessionId then Some(WrongSession)
    else if r.runtimeId != Some(c.expectedRuntimeId) then Some(WrongRuntime)
    else if !r.kioskActive && !r.isolationActive then Some(NoProofOfProtection)
    else if SaturatingSub(c.nowMs, r.requestedAt) > REQUEST_TTL_MS then Some(Stale)
    else None
  }

  function Check(r: Request, c: Context, nonces: set<Str>, widgetId: Option<Id>): Option<Reason> {
    if Precheck(r, c).Some? then Precheck(r, c)
    else if r.nonce in nonces then Some(Replayed)
    else if widgetId != Some(r.widgetId) then Some(WrongWidget)
    else None
  }

  /** The controller's variables; the result and error texts it only reports are left out. */
  datatype Widget = Widget(
    visible: bool,
    state: WidgetState,
    widgetId: Option<Id>,
    correlationId: Option<Id>,
    holdStartedAt: Option<U64>,
    requireHoldMs: U64,
    lastRequestAt: Option<U64>,
    attempts: nat)

  // ---------------------------------------------------------------- the steps on values

  function SyncVisibility(w: Widget, show: bool, p: Policy, nowMs: U64): Widget {
    var synced := w.(requireHoldMs := p.requireHoldMs);
    if show && !w.visible then
      synced.(visible := true, state := Visible, widgetId := Some(Stamped(nowMs)), correlationId := Some(Stamped(nowMs)))
    else if !show && (w.visible || !w.state.Hidden?) then
      synced.(visible := false, state := Hidden, widgetId := None, correlationId := None, holdStartedAt := None)
    else synced
  }

  function StartHold(w: Widget, nowMs: U64): Widget {
    if w.visible then w.(holdStartedAt := Some(nowMs), state := Holding) else w
  }

  function CancelHold(w: Widget): Widget {
    if w.state.Holding? then w.(state := Visible, holdStartedAt := None) else w
  }

  function CompleteHold(w: Widget, nowMs: U64): Result<Draft, HoldError> {
    if w.holdStartedAt.None? then Err(NotStarted)
    else if SaturatingSub(nowMs, w.holdStartedAt.value) < w.requireHoldMs then Err(ReleasedEarly)
    else if w.widgetId.None? then Err(NoWidgetId)
    else
      var correlation := if w.correlationId.Some? then w.correlationId.value else Stamped(nowMs);
      Ok(Draft(w.widgetId.value, correlation, nowMs, NonceSource(nowMs, w.attempts + 1)))
  }

  function AfterCompleteHold(w: Widget, nowMs: U64): Widget {
    match CompleteHold(w, nowMs)
    case Ok(_) => w.(holdStartedAt := None, state := Requested, lastRequestAt := Some(nowMs), attempts := w.attempts + 1)
    case Err(ReleasedEarly) => CancelHold(w)
    case _ => w
  }

  // ---------------------------------------------------------------- the controller

  class Controller {
    var visible: bool
    var state: WidgetState
    var widgetId: Option<Id>
    var correlationId: Option<Id>
    var holdStartedAt: Option<U64>
    var requireHoldMs: U64
    var lastRequestAt: Option<U64>
    var attempts: nat
    var recentNonces: set<Str>
    ghost var everAccepted: set<Str>

    /** Of all nonces ever accepted the greatest are remembered. */
    ghost predicate Valid()
      reads this
    {
      Greatest(recentNonces, everAccepted, MAX_RECENT_NONCES)
    }

    ghost function Abs(): Widget
      reads this
    {
      Widget(visible, state, widgetId, correlationId, holdStartedAt, requireHoldMs, lastRequestAt, attempts)
    }

    ghost predicate SameNonces(recent: set<Str>, accepted: set<Str>)
      reads this
    {
      recentNonces == recent && everAccepted == accepted
    }

    constructor ()
      ensures Abs() == Widget(false, Hidden, None, None, None, 2_000, None, 0)
      ensures Valid() && everAccepted == {}
    {
      visible, state := false, Hidden;
      widgetId, correlationId, holdStartedAt := None, None, None;
      requireHoldMs, lastRequestAt, attempts := 2_000, None, 0;
      recentNonces, everAccepted := {}, {};
    }

    method Sync(sessionState: string, kioskActive: bool, isolationActive: bool, p: Policy, nowMs: U64)
      modifies this
      ensures Abs() == SyncVisibility(old(Abs()), ShouldShow(sessionState, kioskActive, isolationActive, p), p, nowMs)
      ensures SameNonces(old(recentNonces), old(everAccepted))
    {
      requireHoldMs := p.requireHoldMs;
      if ShouldShow(sessionState, kioskActive, isolationActive, p) {
        if !visible {
          visible, state := true, Visible;
          widgetId := Some(Stamped(nowMs));
          correlationId := Some(Stamped(nowMs));
        }
        return;
      }
      if visible || !state.Hidden? {
        visible, state := false, Hidden;
        widgetId, correlationId, holdStartedAt := None, None, None;
      }
    }

    method BeginHold(nowMs: U64) returns (ok: bool)
      modifies this
      ensures ok == old(visible) && Abs() == StartHold(old(Abs()), nowMs)
      ensures SameNonces(old(recentNonces), old(everAccepted))
    {
      if !visible {
        return false;
      }
      holdStartedAt := Some(nowMs);
      state := Holding;
      return true;
    }

    method Cancel() returns (cancelled: bool)
      modifies this
      ensures cancelled == old(state).Holding? && Abs() == CancelHold(old(Abs()))
      ensures SameNonces(old(recentNonces), old(everAccepted))
    {
      if state.Holding? {
        state := Visible;
        holdStartedAt := None;
        return true;
      }
      return false;
    }

    method Complete(nowMs: U64) returns (r: Result<Draft, HoldError>)
      modifies this
      ensures r == CompleteHold(old(Abs()), nowMs) && Abs() == AfterCompleteHold(old(Abs()), nowMs)
      ensures SameNonces(old(recentNonces), old(everAccepted))
    {
      if holdStartedAt.None? {
        return Err(NotStarted);
      }
      if SaturatingSub(nowMs, holdStartedAt.value) < requireHoldMs {
        var _ := Cancel();
        return Err(ReleasedEarly);
      }
      if widgetId.None? {
        return Err(NoWidgetId);
      }
      var correlation := if correlationId.Some? then correlationId.value else Stamped(nowMs);
      holdStartedAt := None;
      state := Requested;
      lastRequestAt := Some(nowMs);
      attempts := attempts + 1;
      return Ok(Draft(widgetId.value, correlation, nowMs, NonceSource(nowMs, attempts)));
    }

    /** The core's check of a request. */
    method Validate(r: Request, c: Context) returns (rejection: Option<Reason>)
      requires Valid()
      modifies this
      ensures Valid() && rejection == Check(r, c, old(recentNonces), old(widgetId))
      ensures rejection.Some? ==> SameNonces(old(recentNonces), old(everAccepted))
      ensures rejection.None? ==> everAccepted == old(everAccepted) + {r.nonce}
      ensures Abs() == old(Abs()).(state := if rejection.Some? then Rejected else Accepted)
    {
      rejection := Precheck(r, c);
      if rejection.None? && r.nonce in recentNonces {
        rejection := Some(Replayed);
      }
      if rejection.None? && widgetId != Some(r.widgetId) {
        rejection := Some(WrongWidget);
      }
      if rejection.Some? {
        state := Rejected;
        return;
      }
      Remember(r.nonce);
      state := Accepted;
    }

    /** Accepted nonces go into the bounded set, whose least element goes when it grows too large. */
    method Remember(nonce: Str)
      requires Valid() && nonce !in recentNonces
      modifies `recentNonces, `everAccepted
      ensures Valid() && everAccepted == old(everAccepted) + {nonce}
    {
      ghost var kept, all := recentNonces, everAccepted;
      everAccepted := everAccepted + {nonce};
      recentNonces := recentNonces + {nonce};
      if |kept| < MAX_RECENT_NONCES {
        InsertKeepsGreatest(kept, all, MAX_RECENT_NONCES, nonce);
      }
      while |recentNonces| > MAX_RECENT_NONCES
        invariant everAccepted == all + {nonce}
        invariant |recentNonces| <= MAX_RECENT_NONCES ==> Valid()
        invariant |recentNonces| > MAX_RECENT_NONCES ==> recentNonces == kept + {nonce} && |kept| == MAX_RECENT_NONCES
        decreases |recentNonces|
      {
        LeastExists(recentNonces);
        var first :| first in recentNonces && forall y <- recentNonces :: AtMost(first, y);
        ReplaceKeepsGreatest(kept, all, MAX_RECENT_NONCES, nonce, first);
        recentNonces := recentNonces - {first};
      }
    }

    method MarkRestoring()
      modifies this
      ensures Abs() == old(Abs()).(state := Restoring)
      ensures SameNonces(old(recentNonces), old(everAccepted))
    {
      state := Restoring;
    }

    method MarkCompleted()
      modifies this
      ensures Abs() == old(Abs()).(visible := false, state := Completed)
      ensures SameNonces(old(recentNonces), old(everAccepted))
    {
      visible, state := false, Completed;
    }

    method MarkFailed()
      modifies this
      ensures Abs() == old(Abs()).(visible := true, state := FailedRestore)
      ensures SameNonces(old(recentNonces), old(everAccepted))
    {
      visible, state := true, FailedRestore;
    }
  }
}
