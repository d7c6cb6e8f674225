/** Every sidecar request is resolved exactly once, and by its own answer. */
module SidecarLaws {
  import opened Wrappers
  import opened Ledger
  import opened Sidecar

  datatype Event =
    | Requested(requestId: string, written: bool)
    | StdoutLine(message: Parsed)
    | PipeLineRead(frame: Option<Parsed>, handlerThrows: bool)
    | TimerFires(token: nat)
    | ChildFails
    | PipeFails
    | ChildKilled
    | ChildExits
    | Connects

  predicate Enabled(s: State, e: Event) {
    e.TimerFires? ==> e.token in s.timers && e.token < |s.issued|
  }

  function Step(s: State, e: Event): State
    requires Enabled(s, e)
  {
    match e
    case Requested(id, written) => Request(s, id, written)
    case StdoutLine(m) => Receive(s, m)
    case PipeLineRead(frame, handlerThrows) => PipeLine(s, frame, handlerThrows)
    case TimerFires(token) => Fire(s, token)
    case ChildFails => Cleanup(s.(connected := false), IpcFailure)
    case PipeFails => Cleanup(s.(connected := false), IpcFailure)
    case ChildKilled => s.(childAlive := false)
    case ChildExits => Cleanup(s.(connected := false, childAlive := false), CoreNotConnected)
    case Connects => s.(connected := true, childAlive := true)
  }

  predicate IsRun(s: State, events: seq<Event>)
    decreases |events|
  {
    events == [] || (Enabled(s, events[0]) && IsRun(Step(s, events[0]), events[1..]))
  }

  function Run(s: State, events: seq<Event>): State
    requires IsRun(s, events)
    decreases |events|
  {
    if events == [] then s else Run(Step(s, events[0]), events[1..])
  }

  const INITIAL: State := State(false, false, [], {}, [], [])

  // ---------------------------------------------------------------- the invariant

  function Waiting(pending: seq<Entry>): multiset<nat> {
    if pending == [] then multiset{} else multiset{pending[0].token} + Waiting(pending[1..])
  }

  function Done(resolved: seq<Resolution>): multiset<nat> {
    if resolved == [] then multiset{} else Done(resolved[..|resolved| - 1]) + multiset{resolved[|resolved| - 1].token}
  }

  /** Tokens issued are waiting or resolved, each once. */
  ghost predicate Settled(s: State) {
    Waiting(s.pending) + Done(s.resolved) == Tickets(|s.issued|)
  }

  predicate OneEntryPerId(pending: seq<Entry>) {
    forall i, j | 0 <= i < |pending| && 0 <= j < |pending| && pending[i].requestId == pending[j].requestId :: i == j
  }

  predicate TokensTell(pending: seq<Entry>, issued: seq<string>) {
    forall e <- pending :: e.token < |issued| && issued[e.token] == e.requestId
  }

  /** The armed timers are those of the pending requests. */
  predicate TimersMatch(pending: seq<Entry>, timers: set<nat>) {
    timers == Tokens(pending)
  }

  function Tokens(pending: seq<Entry>): set<nat> {
    set e | e in pending :: e.token
  }

  /** A core message only ever resolved the request whose id it carries. */
  predicate OwnAnswers(resolved: seq<Resolution>, issued: seq<string>) {
    forall r <- resolved :: r.token < |issued| && (r.answer.Message? ==> r.answer.requestId == issued[r.token])
  }

  ghost predicate Inv(s: State) {
    && Settled(s) && OneEntryPerId(s.pending) && TokensTell(s.pending, s.issued)
    && TimersMatch(s.pending, s.timers) && OwnAnswers(s.resolved, s.issued)
  }

  // ---------------------------------------------------------------- counting

  lemma TailOfWithout(pending: seq<Entry>, i: nat)
    requires 0 < i < |pending|
    ensures var rest := Without(pending, i);
            rest != [] && rest[0] == pending[0] && rest[1..] == Without(pending[1..], i - 1)
  {
  }

  lemma {:induction false} WaitingWithout(pending: seq<Entry>, i: nat)
    requires i < |pending|
    ensures Waiting(pending) == Waiting(Without(pending, i)) + multiset{pending[i].token}
  {
    if i == 0 {
      assert Without(pending, 0) == pending[1..];
    } else {
      WaitingWithout(pending[1..], i - 1);
      TailOfWithout(pending, i);
    }
  }

  lemma {:induction false} WaitingOfAppend(pending: seq<Entry>, e: Entry)
    ensures Waiting(pending + [e]) == Waiting(pending) + multiset{e.token}
  {
    if pending == [] {
      assert [] + [e] == [e];
    } else {
      WaitingOfAppend(pending[1..], e);
      assert (pending + [e])[1..] == pending[1..] + [e];
    }
  }

  lemma DoneOfAppend(resolved: seq<Resolution>, r: Resolution)
    ensures Done(resolved + [r]) == Done(resolved) + multiset{r.token}
  {
    assert (resolved + [r])[..|resolved|] == resolved;
  }

  // ---------------------------------------------------------------- steps

  lemma WithoutIsTheRest(pending: seq<Entry>, i: nat)
    requires i < |pending|
    ensures forall e <- Without(pending, i) :: e in pending
    ensures forall e <- pending :: e == pending[i] || e in Without(pending, i)
    ensures OneEntryPerId(pending) ==> OneEntryPerId(Without(pending, i)) && !IsPending(Without(pending, i), pending[i].requestId)
  {
    var rest := Without(pending, i);
    forall e | e in pending && e != pending[i] ensures e in rest {
      var k :| 0 <= k < |pending| && pending[k] == e;
      assert if k < i then rest[k] == e else rest[k - 1] == e;
    }
  }

  /** A pending entry is told apart by its token as well as by its id. */
  lemma TokenTellsId(s: State, e: Entry, f: Entry)
    requires TokensTell(s.pending, s.issued) && OneEntryPerId(s.pending) && e in s.pending && f in s.pending
    ensures e.token == f.token <==> e == f
  {
  }

  lemma SettleKeepsTable(s: State, i: nat, answer: Answer)
    requires i < |s.pending| && OneEntryPerId(s.pending) && TokensTell(s.pending, s.issued) && TimersMatch(s.pending, s.timers)
    ensures var after := Settle(s, i, answer);
            OneEntryPerId(after.pending) && TokensTell(after.pending, after.issued) && TimersMatch(after.pending, after.timers)
  {
    WithoutIsTheRest(s.pending, i);
    TokensWithout(s, i);
  }

  lemma TokensWithout(s: State, i: nat)
    requires i < |s.pending| && OneEntryPerId(s.pending) && TokensTell(s.pending, s.issued)
    ensures Tokens(Without(s.pending, i)) == Tokens(s.pending) - {s.pending[i].token}
  {
    var rest := Without(s.pending, i);
    WithoutIsTheRest(s.pending, i);
    forall t ensures t in Tokens(rest) <==> t in Tokens(s.pending) && t != s.pending[i].token {
      if t in Tokens(rest) {
        var e :| e in rest && e.token == t;
        TokenTellsId(s, e, s.pending[i]);
      }
    }
  }

  lemma SettleKeepsCount(s: State, i: nat, answer: Answer)
    requires Settled(s) && i < |s.pending|
    ensures Settled(Settle(s, i, answer))
  {
    WaitingWithout(s.pending, i);
    DoneOfAppend(s.resolved, Resolution(s.pending[i].token, answer));
    MovedAcross(Waiting(Without(s.pending, i)), Done(s.resolved), multiset{s.pending[i].token});
  }

  lemma MovedAcross(waiting: multiset<nat>, done: multiset<nat>, one: multiset<nat>)
    ensures (waiting + one) + done == waiting + (done + one)
  {
  }

  lemma SettleKeepsAnswers(s: State, i: nat, answer: Answer)
    requires OwnAnswers(s.resolved, s.issued) && TokensTell(s.pending, s.issued) && i < |s.pending|
    requires answer.Message? ==> answer.requestId == s.pending[i].requestId
    ensures OwnAnswers(Settle(s, i, answer).resolved, s.issued)
  {
  }

  lemma SettleKeepsInv(s: State, i: nat, answer: Answer)
    requires Inv(s) && i < |s.pending| && (answer.Message? ==> answer.requestId == s.pending[i].requestId)
    ensures Inv(Settle(s, i, answer))
  {
    SettleKeepsCount(s, i, answer);
    SettleKeepsTable(s, i, answer);
    SettleKeepsAnswers(s, i, answer);
  }

  lemma {:induction false} CleanupKeepsInv(s: State, code: ErrorCode)
    requires Inv(s)
    ensures Inv(Cleanup(s, code)) && Cleanup(s, code).pending == [] && Cleanup(s, code).timers == {}
    decreases |s.pending|
  {
    if s.pending != [] {
      SettleKeepsInv(s, 0, Error(code));
      CleanupKeepsInv(Settle(s, 0, Error(code)), code);
    }
  }

  /** A timer that is still armed belongs to the request pending under its id, so it settles that one. */
  lemma FireSettlesItsOwn(s: State, token: nat) returns (i: nat)
    requires Inv(s) && token in s.timers
    ensures i < |s.pending| && s.pending[i].token == token && token < |s.issued|
    ensures Fire(s, token) == Settle(s, i, Error(IpcFailure))
  {
    assert token in Tokens(s.pending);
    var e :| e in s.pending && e.token == token;
    assert IsPending(s.pending, s.issued[token]);
    i := Find(s.pending, s.issued[token]);
    TokenTellsId(s, e, s.pending[i]);
  }

  lemma IssueKeepsTable(s: State, requestId: string)
    requires TokensTell(s.pending, s.issued) && OwnAnswers(s.resolved, s.issued)
    ensures TokensTell(s.pending, s.issued + [requestId]) && OwnAnswers(s.resolved, s.issued + [requestId])
  {
  }

  lemma RefusalKeepsInv(s: State, requestId: string, code: ErrorCode)
    requires Inv(s)
    ensures Inv(s.(issued := s.issued + [requestId], resolved := s.resolved + [Resolution(|s.issued|, Error(code))]))
  {
    var r := Resolution(|s.issued|, Error(code));
    IssueKeepsTable(s, requestId);
    RefusalKeepsCount(s, r);
    RefusalKeepsAnswers(s.resolved, s.issued + [requestId], r);
  }

  lemma RefusalKeepsCount(s: State, r: Resolution)
    requires Settled(s) && r.token == |s.issued|
    ensures Waiting(s.pending) + Done(s.resolved + [r]) == Tickets(|s.issued| + 1)
  {
    DoneOfAppend(s.resolved, r);
    OneMoreDone(Waiting(s.pending), Done(s.resolved), |s.issued|);
  }

  lemma RefusalKeepsAnswers(resolved: seq<Resolution>, issued: seq<string>, r: Resolution)
    requires OwnAnswers(resolved, issued) && r.token < |issued| && r.answer.Error?
    ensures OwnAnswers(resolved + [r], issued)
  {
  }

  lemma OneMoreDone(waiting: multiset<nat>, done: multiset<nat>, n: nat)
    requires waiting + done == Tickets(n)
    ensures waiting + (done + multiset{n}) == Tickets(n + 1)
  {
    assert Tickets(n + 1) == Tickets(n) + multiset{n};
  }

  function Enlisted(s: State, requestId: string): State {
    s.(issued := s.issued + [requestId], pending := s.pending + [Entry(requestId, |s.issued|)],
       timers := s.timers + {|s.issued|})
  }

  lemma EnlistKeepsTimers(s: State, requestId: string)
    requires TimersMatch(s.pending, s.timers)
    ensures TimersMatch(Enlisted(s, requestId).pending, Enlisted(s, requestId).timers)
  {
    TokensOfAppend(s.pending, Entry(requestId, |s.issued|));
  }

  lemma TokensOfAppend(pending: seq<Entry>, e: Entry)
    ensures Tokens(pending + [e]) == Tokens(pending) + {e.token}
  {
    assert e in pending + [e];
    forall x | x in pending ensures x.token in Tokens(pending + [e]) {
      assert x in pending + [e];
    }
  }

  lemma EnlistKeepsInv(s: State, requestId: string)
    requires Inv(s) && !IsPending(s.pending, requestId)
    ensures Inv(Enlisted(s, requestId))
  {
    IssueKeepsTable(s, requestId);
    EnlistKeepsCount(s, requestId);
    EnlistKeepsTimers(s, requestId);
    EnlistKeepsTable(s, requestId);
  }

  lemma EnlistKeepsCount(s: State, requestId: string)
    requires Settled(s)
    ensures Settled(Enlisted(s, requestId))
  {
    WaitingOfAppend(s.pending, Entry(requestId, |s.issued|));
    OneMoreWaiting(Waiting(s.pending), Done(s.resolved), |s.issued|);
  }

  lemma OneMoreWaiting(waiting: multiset<nat>, done: multiset<nat>, n: nat)
    requires waiting + done == Tickets(n)
    ensures (waiting + multiset{n}) + done == Tickets(n + 1)
  {
    assert Tickets(n + 1) == Tickets(n) + multiset{n};
  }

  lemma EnlistKeepsTable(s: State, requestId: string)
    requires OneEntryPerId(s.pending) && TokensTell(s.pending, s.issued) && !IsPending(s.pending, requestId)
    ensures OneEntryPerId(Enlisted(s, requestId).pending)
    ensures TokensTell(Enlisted(s, requestId).pending, Enlisted(s, requestId).issued)
  {
    assert forall i | 0 <= i < |s.pending| :: s.pending[i] in s.pending;
  }

  lemma RequestKeepsInv(s: State, requestId: string, written: bool)
    requires Inv(s)
    ensures Inv(Request(s, requestId, written))
  {
    if !s.connected || !s.childAlive {
      RefusalKeepsInv(s, requestId, CoreNotConnected);
    } else if IsPending(s.pending, requestId) {
      RefusalKeepsInv(s, requestId, IpcFailure);
    } else {
      EnlistKeepsInv(s, requestId);
      if !written {
        SettleKeepsInv(Enlisted(s, requestId), |s.pending|, Error(IpcFailure));
      }
    }
  }

  lemma FireKeepsInv(s: State, token: nat)
    requires Inv(s) && token in s.timers && token < |s.issued|
    ensures Inv(Fire(s, token))
  {
    var i := FireSettlesItsOwn(s, token);
    SettleKeepsInv(s, i, Error(IpcFailure));
  }

  predicate SameRequests(s: State, t: State) {
    s.pending == t.pending && s.timers == t.timers && s.issued == t.issued && s.resolved == t.resolved
  }

  lemma FlagsDoNotMatter(s: State, t: State)
    requires Inv(s) && SameRequests(s, t)
    ensures Inv(t)
  {
  }

  predicate EndsConnection(e: Event) {
    e.ChildFails? || e.PipeFails? || e.ChildExits?
  }

  lemma EndOfConnection(s: State, e: Event) returns (t: State, code: ErrorCode)
    requires EndsConnection(e)
    ensures SameRequests(s, t) && Step(s, e) == Cleanup(t, code)
  {
    t := if e.ChildExits? then s.(connected := false, childAlive := false) else s.(connected := false);
    code := if e.ChildExits? then CoreNotConnected else IpcFailure;
  }

  lemma EndKeepsInv(s: State, e: Event)
    requires Inv(s) && EndsConnection(e)
    ensures Inv(Step(s, e))
  {
    var t, code := EndOfConnection(s, e);
    FlagsDoNotMatter(s, t);
    CleanupKeepsInv(t, code);
  }

  lemma FlagStepKeepsInv(s: State, e: Event)
    requires Inv(s) && (e.ChildKilled? || e.Connects?)
    ensures Inv(Step(s, e))
  {
    FlagsDoNotMatter(s, Step(s, e));
  }

  lemma RequestStepKeepsInv(s: State, e: Event)
    requires Inv(s) && e.Requested?
    ensures Inv(Step(s, e))
  {
    RequestKeepsInv(s, e.requestId, e.written);
  }

  lemma LineStepKeepsInv(s: State, e: Event)
    requires Inv(s) && (e.StdoutLine? || e.PipeLineRead?)
    ensures Inv(Step(s, e))
  {
    if e.StdoutLine? {
      ReceiveKeepsInv(s, e.message);
    } else {
      PipeLineKeepsInv(s, e.frame, e.handlerThrows);
    }
  }

  lemma TimerStepKeepsInv(s: State, e: Event)
    requires Inv(s) && Enabled(s, e) && e.TimerFires?
    ensures Inv(Step(s, e))
  {
    FireKeepsInv(s, e.token);
  }

  lemma StepKeepsInv(s: State, e: Event)
    requires Inv(s) && Enabled(s, e)
    ensures Inv(Step(s, e))
  {
    match e {
      case Requested(_, _) => RequestStepKeepsInv(s, e);
      case StdoutLine(_) => LineStepKeepsInv(s, e);
      case PipeLineRead(_, _) => LineStepKeepsInv(s, e);
      case TimerFires(_) => TimerStepKeepsInv(s, e);
      case ChildKilled => FlagStepKeepsInv(s, e);
      case Connects => FlagStepKeepsInv(s, e);
      case _ => EndKeepsInv(s, e);
    }
  }

  lemma PipeLineKeepsInv(s: State, frame: Option<Parsed>, handlerThrows: bool)
    requires Inv(s)
    ensures Inv(PipeLine(s, frame, handlerThrows))
  {
    CleanupKeepsInv(s, IpcFailure);
    if frame.Some? {
      ReceiveKeepsInv(s, frame.value);
    }
  }

  lemma ReceiveKeepsInv(s: State, m: Parsed)
    requires Inv(s)
    ensures Inv(Receive(s, m))
  {
    if m.requestId.Some? && IsPending(s.pending, m.requestId.value) {
      SettleKeepsInv(s, Find(s.pending, m.requestId.value), Message(m.requestId.value, m.body));
    }
  }

  // ---------------------------------------------------------------- what each step resolves with

  /** A message for a pending id settles that request, and only that one, with its own body; any other
      message settles nothing. */
  lemma MessageSettlesItsOwn(s: State, m: Parsed)
    requires Inv(s)
    ensures if m.requestId.Some? && IsPending(s.pending, m.requestId.value) then
              var i := Find(s.pending, m.requestId.value);
              var token := s.pending[i].token;
              && token < |s.issued| && s.issued[token] == m.requestId.value
              && (forall k | 0 <= k < |s.pending| :: s.pending[k].requestId == m.requestId.value <==> k == i)
              && Receive(s, m).pending == s.pending[..i] + s.pending[i + 1..]
              && Receive(s, m).timers == s.timers - {token}
              && Receive(s, m).resolved == s.resolved + [Resolution(token, Message(m.requestId.value, m.body))]
            else Receive(s, m) == s
  {
  }

  function ErrorsFor(pending: seq<Entry>, code: ErrorCode): seq<Resolution> {
    seq(|pending|, i requires 0 <= i < |pending| => Resolution(pending[i].token, Error(code)))
  }

  lemma ErrorsOfFirst(resolved: seq<Resolution>, pending: seq<Entry>, code: ErrorCode)
    requires pending != []
    ensures (resolved + [Resolution(pending[0].token, Error(code))]) + ErrorsFor(pending[1..], code)
         == resolved + ErrorsFor(pending, code)
  {
    assert ErrorsFor(pending, code) == [Resolution(pending[0].token, Error(code))] + ErrorsFor(pending[1..], code);
  }

  lemma SettleFirst(s: State, code: ErrorCode)
    requires s.pending != []
    ensures var first := Settle(s, 0, Error(code));
            first.pending == s.pending[1..] && first.resolved == s.resolved + [Resolution(s.pending[0].token, Error(code))]
  {
    assert Without(s.pending, 0) == s.pending[1..];
  }

  /** When the connection ends every pending request is resolved with the given error, in the order in which
      they were made. */
  lemma {:induction false} CleanupResolvesAll(s: State, code: ErrorCode)
    ensures Cleanup(s, code).pending == [] && Cleanup(s, code).resolved == s.resolved + ErrorsFor(s.pending, code)
    decreases |s.pending|
  {
    if s.pending == [] {
      assert s.resolved + [] == s.resolved;
    } else {
      SettleFirst(s, code);
      CleanupResolvesAll(Settle(s, 0, Error(code)), code);
      ErrorsOfFirst(s.resolved, s.pending, code);
    }
  }

  /** The end of the connection, whatever ends it: nothing is connected or pending any more, and every pending
      request has the error that belongs to it. */
  lemma EndResolvesAll(s: State, e: Event)
    requires EndsConnection(e)
    ensures var after := Step(s, e);
            && !after.connected && after.pending == []
            && after.resolved == s.resolved + ErrorsFor(s.pending, if e.ChildExits? then CoreNotConnected else IpcFailure)
  {
    var t := if e.ChildExits? then s.(connected := false, childAlive := false) else s.(connected := false);
    CleanupResolvesAll(t, if e.ChildExits? then CoreNotConnected else IpcFailure);
    CleanupKeepsFlags(t, if e.ChildExits? then CoreNotConnected else IpcFailure);
  }

  lemma {:induction false} CleanupKeepsFlags(s: State, code: ErrorCode)
    ensures Cleanup(s, code).connected == s.connected && Cleanup(s, code).childAlive == s.childAlive
    decreases |s.pending|
  {
    if s.pending != [] {
      SettleFirst(s, code);
      CleanupKeepsFlags(Settle(s, 0, Error(code)), code);
    }
  }

  /** A line from the pipe fails all pending requests exactly if it is rejected, or is an event nobody waits for
      whose handler throws; otherwise it is a message. */
  lemma PipeLineExactly(s: State, frame: Option<Parsed>, handlerThrows: bool)
    ensures var awaited := frame.Some? && frame.value.requestId.Some? && IsPending(s.pending, frame.value.requestId.value);
            var after := PipeLine(s, frame, handlerThrows);
            if frame.None? || (!awaited && frame.value.isEvent && handlerThrows) then
              after.pending == [] && after.resolved == s.resolved + ErrorsFor(s.pending, IpcFailure)
            else after == Receive(s, frame.value)
  {
    CleanupResolvesAll(s, IpcFailure);
  }

  /** What a new request meets: without a connection it fails at once, under an id in use or with a failing
      write it fails as an error of the channel, and otherwise it waits with its timer armed. */
  lemma RequestMeetsExactly(s: State, id: string, written: bool)
    requires Inv(s)
    ensures var after := Request(s, id, written);
            var token := |s.issued|;
            && after.issued == s.issued + [id]
            && (if s.connected && s.childAlive && !IsPending(s.pending, id) && written then
                  && after.pending == s.pending + [Entry(id, token)] && after.timers == s.timers + {token}
                  && after.resolved == s.resolved
                else
                  && after.pending == s.pending && after.timers == s.timers
                  && after.resolved == s.resolved
                     + [Resolution(token, Error(if s.connected && s.childAlive then IpcFailure else CoreNotConnected))])
  {
    if s.connected && s.childAlive && !IsPending(s.pending, id) && !written {
      assert Without(s.pending + [Entry(id, |s.issued|)], |s.pending|) == s.pending;
      assert |s.issued| !in Tokens(s.pending);
    }
  }

  // ---------------------------------------------------------------- whole runs

  /** In every run: what was issued is what is pending and what was resolved, each token once; pending ids
      and armed timers correspond; and a message resolves only the request of its own id. */
  lemma {:induction false} EveryRequestIsAccountedFor(s: State, events: seq<Event>)
    requires Inv(s) && IsRun(s, events)
    ensures Inv(Run(s, events))
    decreases |events|
  {
    if events != [] {
      StepKeepsInv(s, events[0]);
      EveryRequestIsAccountedFor(Step(s, events[0]), events[1..]);
    }
  }

  lemma PendingHasTimer(s: State)
    requires TimersMatch(s.pending, s.timers) && s.pending != []
    ensures s.timers != {}
  {
    assert s.pending[0].token in s.timers;
  }

  /** Once no timer is armed any more, every request ever made has been resolved exactly once. */
  lemma ResolvedExactlyOnce(events: seq<Event>, token: nat)
    requires IsRun(INITIAL, events) && Run(INITIAL, events).timers == {} && token < |Run(INITIAL, events).issued|
    ensures Done(Run(INITIAL, events).resolved)[token] == 1
  {
    EveryRequestIsAccountedFor(INITIAL, events);
    var end := Run(INITIAL, events);
    if end.pending != [] {
      PendingHasTimer(end);
    }
    TicketCount(|end.issued|, token);
  }

  /** A request is resolved at most once even while others are pending, and not at all while it is pending. */
  lemma NeverResolvedTwice(events: seq<Event>, token: nat)
    requires IsRun(INITIAL, events)
    ensures Waiting(Run(INITIAL, events).pending)[token] + Done(Run(INITIAL, events).resolved)[token]
         == if token < |Run(INITIAL, events).issued| then 1 else 0
  {
    EveryRequestIsAccountedFor(INITIAL, events);
    TicketCount(|Run(INITIAL, events).issued|, token);
  }
}
