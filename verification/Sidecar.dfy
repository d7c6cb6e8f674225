/**
 The sidecar's pending requests: every request is a promise, given a token when it is made, that must
 be resolved once, by its answer, its timer, a failed write or the end of the sidecar.
 */
module Sidecar {
  import opened Wrappers
  import opened Ledger

  datatype ErrorCode = CoreNotConnected | IpcFailure

  /** What a promise is resolved with: a message of the core, or an error made here. */
  datatype Answer = Message(requestId: string, body: nat) | Error(code: ErrorCode)

  datatype Entry = Entry(requestId: string, token: nat)

  datatype Resolution = Resolution(token: nat, answer: Answer)

  /** A parsed message: an answer if its id is pending, otherwise perhaps an event. */
  datatype Parsed = Parsed(requestId: Option<string>, body: nat, isEvent: bool)

  /** `pending` is the map of pending requests in its insertion order, `timers` the tokens whose timeout is armed. */
  datatype State = State(
    connected: bool,
    childAlive: bool,
    pending: seq<Entry>,
    timers: set<nat>,
    issued: seq<string>,
    resolved: seq<Resolution>)

  predicate IsPending(pending: seq<Entry>, requestId: string) {
    exists e <- pending :: e.requestId == requestId
  }

  function Find(pending: seq<Entry>, requestId: string): (i: nat)
    requires IsPending(pending, requestId)
    ensures i < |pending| && pending[i].requestId == requestId
  {
    if pending[0].requestId == requestId then 0
    else
      assert pending == [pending[0]] + pending[1..];
      1 + Find(pending[1..], requestId)
  }

  function Without(pending: seq<Entry>, i: nat): seq<Entry>
    requires i < |pending|
  {
    pending[..i] + pending[i + 1..]
  }

  // ---------------------------------------------------------------- the steps

  /** Take a pending request off the table, clear its timer and resolve it. */
  function Settle(s: State, i: nat, answer: Answer): State
    requires i < |s.pending|
  {
    var token := s.pending[i].token;
    s.(pending := Without(s.pending, i), timers := s.timers - {token}, resolved := s.resolved + [Resolution(token, answer)])
  }

  /** `cleanupPendingRequests` */
  function Cleanup(s: State, code: ErrorCode): State
    decreases |s.pending|
  {
    if s.pending == [] then s else Cleanup(Settle(s, 0, Error(code)), code)
  }

  /** `request`; `written` says whether the write to the sidecar succeeds. */
  function Request(s: State, requestId: string, written: bool): State {
    var token := |s.issued|;
    var made := s.(issued := s.issued + [requestId]);
    if !s.connected || !s.childAlive then
      made.(resolved := s.resolved + [Resolution(token, Error(CoreNotConnected))])
    else if IsPending(s.pending, requestId) then
      made.(resolved := s.resolved + [Resolution(token, Error(IpcFailure))])
    else
      var waiting := made.(pending := s.pending + [Entry(requestId, token)], timers := s.timers + {token});
      if written then waiting else Settle(waiting, |s.pending|, Error(IpcFailure))
  }

  /** `handleCoreMessage` */
  function Receive(s: State, m: Parsed): State {
    if m.requestId.Some? && IsPending(s.pending, m.requestId.value)
    then Settle(s, Find(s.pending, m.requestId.value), Message(m.requestId.value, m.body))
    else s
  }

  /** A line from the pipe: a rejected frame, or an event whose handler throws, ends all pending requests. */
  function PipeLine(s: State, m: Option<Parsed>, handlerThrows: bool): State {
    match m
    case None => Cleanup(s, IpcFailure)
    case Some(parsed) =>
      var isAnswer := parsed.requestId.Some? && IsPending(s.pending, parsed.requestId.value);
      if !isAnswer && parsed.isEvent && handlerThrows then Cleanup(s, IpcFailure) else Receive(s, parsed)
  }

  /** A timer's callback removes whatever is pending under its request's id. */
  function Fire(s: State, token: nat): State
    requires token < |s.issued|
  {
    var requestId := s.issued[token];
    var remaining :=
      if IsPending(s.pending, requestId) then Without(s.pending, Find(s.pending, requestId)) else s.pending;
    s.(pending := remaining, timers := s.timers - {token}, resolved := s.resolved + [Resolution(token, Error(IpcFailure))])
  }

  // ---------------------------------------------------------------- the transport itself

  class Transport {
    var connected: bool
    var childAlive: bool
    var pending: seq<Entry>
    var timers: set<nat>
    var issued: seq<string>
    var resolved: seq<Resolution>

    ghost function Abs(): State
      reads this
    {
      State(connected, childAlive, pending, timers, issued, resolved)
    }

    constructor ()
      ensures Abs() == State(false, false, [], {}, [], [])
    {
      connected, childAlive, pending, timers, issued, resolved := false, false, [], {}, [], [];
    }

    method SettleAt(i: nat, answer: Answer)
      requires i < |pending|
      modifies this
      ensures Abs() == Settle(old(Abs()), i, answer)
    {
      var token := pending[i].token;
      pending := Without(pending, i);
      timers := timers - {token};
      resolved := resolved + [Resolution(token, answer)];
    }

    method CleanupPendingRequests(code: ErrorCode)
      modifies this
      ensures Abs() == Cleanup(old(Abs()), code)
    {
      while pending != []
        invariant Cleanup(Abs(), code) == Cleanup(old(Abs()), code)
        decreases |pending|
      {
        SettleAt(0, Error(code));
      }
    }

    method MakeRequest(requestId: string, written: bool)
      modifies this
      ensures Abs() == Request(old(Abs()), requestId, written)
    {
      var token := |issued|;
      issued := issued + [requestId];
      if !connected || !childAlive {
        resolved := resolved + [Resolution(token, Error(CoreNotConnected))];
        return;
      }
      if IsPending(pending, requestId) {
        resolved := resolved + [Resolution(token, Error(IpcFailure))];
        return;
      }
      pending := pending + [Entry(requestId, token)];
      timers := timers + {token};
      if !written {
        SettleAt(|pending| - 1, Error(IpcFailure));
      }
    }

    method HandleCoreMessage(m: Parsed)
      modifies this
      ensures Abs() == Receive(old(Abs()), m)
    {
      if m.requestId.Some? && IsPending(pending, m.requestId.value) {
        SettleAt(Find(pending, m.requestId.value), Message(m.requestId.value, m.body));
      }
    }

    method HandlePipeLine(frame: Option<Parsed>, handlerThrows: bool)
      modifies this
      ensures Abs() == PipeLine(old(Abs()), frame, handlerThrows)
    {
      match frame {
        case None => CleanupPendingRequests(IpcFailure);
        case Some(parsed) =>
          var isAnswer := parsed.requestId.Some? && IsPending(pending, parsed.requestId.value);
          if !isAnswer && parsed.isEvent && handlerThrows {
            CleanupPendingRequests(IpcFailure);
          } else {
            HandleCoreMessage(parsed);
          }
      }
    }

    method OnTimeout(token: nat)
      requires token < |issued|
      modifies this
      ensures Abs() == Fire(old(Abs()), token)
    {
      timers := timers - {token};
      if IsPending(pending, issued[token]) {
        pending := Without(pending, Find(pending, issued[token]));
      }
      resolved := resolved + [Resolution(token, Error(IpcFailure))];
    }

    method OnChildEnd(code: ErrorCode, exited: bool)
      modifies this
      ensures Abs() == Cleanup(old(Abs()).(connected := false, childAlive := old(childAlive) && !exited), code)
    {
      connected := false;
      if exited {
        childAlive := false;
      }
      CleanupPendingRequests(code);
    }
  }
}
