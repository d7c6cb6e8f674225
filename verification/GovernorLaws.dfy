/**
 What the state governor keeps over whole runs, whatever its callbacks push while the queue drains.
 */
module GovernorLaws {
  import opened Ledger
  import opened Snapshots
  import opened StateGovernor

  // ---------------------------------------------------------------- the ledger of tickets

  function QueueTickets(qs: seq<Queued>): multiset<nat> {
    if qs == [] then multiset{} else multiset{qs[0].ticket} + QueueTickets(qs[1..])
  }

  function LogTickets(log: seq<LogEntry>): multiset<nat> {
    if log == [] then multiset{} else LogTickets(log[..|log| - 1]) + multiset{log[|log| - 1].ticket}
  }

  lemma {:induction false} QueueTicketsOfPush(qs: seq<Queued>, q: Queued)
    ensures QueueTickets(qs + [q]) == QueueTickets(qs) + multiset{q.ticket}
  {
    if qs == [] {
      assert [] + [q] == [q];
    } else {
      QueueTicketsOfPush(qs[1..], q);
      assert (qs + [q])[1..] == qs[1..] + [q];
    }
  }

  lemma LogTicketsOfAppend(log: seq<LogEntry>, e: LogEntry)
    ensures LogTickets(log + [e]) == LogTickets(log) + multiset{e.ticket}
  {
    assert (log + [e])[..|log|] == log;
  }

  // ---------------------------------------------------------------- invariants

  /** The applied ids, in the order of application. */
  predicate AppliedAscend(log: seq<LogEntry>, lastApplied: nat) {
    && (forall i, j | 0 <= i < j < |log| && log[i].outcome.Accepted? && log[j].outcome.Accepted? ::
          log[i].sequenceId < log[j].sequenceId)
    && (forall i | 0 <= i < |log| :: log[i].sequenceId <= lastApplied)
    && (lastApplied == 0 || exists i | 0 <= i < |log| :: log[i].outcome.Accepted? && log[i].sequenceId == lastApplied)
  }

  predicate IdsBelowNext(s: State) {
    s.lastApplied < s.nextIssued && forall i | 0 <= i < |s.queue| :: s.queue[i].event.sequenceId < s.nextIssued
  }

  /** Every ticket given out is in the queue, in the log, or in hand: taken off the queue and not yet decided. */
  ghost predicate Balanced(s: State, inHand: multiset<nat>) {
    QueueTickets(s.queue) + LogTickets(s.log) + inHand == Tickets(s.tickets)
  }

  ghost predicate Ordered(s: State, inHand: multiset<nat>) {
    IdsBelowNext(s) && AppliedAscend(s.log, s.lastApplied) && Balanced(s, inHand)
  }

  predicate Stamped(s: State) {
    && Get(s.snapshot, GovernorSequenceId) == Num(s.lastApplied)
    && Get(s.snapshot, GovernorLockMode) == LockValue(s.lockMode)
    && Get(s.snapshot, GovernorId) == Text(s.id)
  }

  ghost predicate Good(s: State) {
    Ordered(s, multiset{}) && Stamped(s)
  }

  // ---------------------------------------------------------------- steps

  lemma StaleKeepsAscent(log: seq<LogEntry>, lastApplied: nat, e: LogEntry)
    requires AppliedAscend(log, lastApplied) && e.outcome.StaleSequence? && e.sequenceId <= lastApplied
    ensures AppliedAscend(log + [e], lastApplied)
  {
    if lastApplied != 0 {
      var i :| 0 <= i < |log| && log[i].outcome.Accepted? && log[i].sequenceId == lastApplied;
      assert (log + [e])[i] == log[i];
    }
  }

  lemma AcceptKeepsAscent(log: seq<LogEntry>, lastApplied: nat, e: LogEntry)
    requires AppliedAscend(log, lastApplied) && e.outcome.Accepted? && e.sequenceId > lastApplied
    ensures AppliedAscend(log + [e], e.sequenceId)
  {
    assert (log + [e])[|log|] == e;
  }

  lemma PushKeepsIds(s: State, e: Event)
    requires IdsBelowNext(s)
    ensures IdsBelowNext(Push(s, e))
  {
  }

  lemma PushKeepsAscent(s: State, e: Event)
    requires AppliedAscend(s.log, s.lastApplied)
    ensures AppliedAscend(Push(s, e).log, Push(s, e).lastApplied)
  {
    if e.sequenceId <= s.lastApplied {
      StaleKeepsAscent(s.log, s.lastApplied, LogEntry(s.tickets, e.sequenceId, StaleSequence));
    }
  }

  /** A new ticket joins whichever side it goes to. */
  lemma OneMoreTicket(queue: multiset<nat>, log: multiset<nat>, inHand: multiset<nat>, n: nat)
    requires queue + log + inHand == Tickets(n)
    ensures (queue + multiset{n}) + log + inHand == Tickets(n + 1)
    ensures queue + (log + multiset{n}) + inHand == Tickets(n + 1)
  {
  }

  lemma LoggingKeepsBalance(s: State, after: State, entry: LogEntry, inHand: multiset<nat>)
    requires Balanced(s, inHand) && entry.ticket == s.tickets
    requires after.queue == s.queue && after.log == s.log + [entry] && after.tickets == s.tickets + 1
    ensures Balanced(after, inHand)
  {
    LogTicketsOfAppend(s.log, entry);
    OneMoreTicket(QueueTickets(s.queue), LogTickets(s.log), inHand, s.tickets);
  }

  lemma QueuingKeepsBalance(s: State, after: State, q: Queued, inHand: multiset<nat>)
    requires Balanced(s, inHand) && q.ticket == s.tickets
    requires after.queue == s.queue + [q] && after.log == s.log && after.tickets == s.tickets + 1
    ensures Balanced(after, inHand)
  {
    QueueTicketsOfPush(s.queue, q);
    OneMoreTicket(QueueTickets(s.queue), LogTickets(s.log), inHand, s.tickets);
  }

  lemma PushKeepsBalance(s: State, e: Event, inHand: multiset<nat>)
    requires Balanced(s, inHand)
    ensures Balanced(Push(s, e), inHand)
  {
    if e.sequenceId <= s.lastApplied {
      LoggingKeepsBalance(s, Push(s, e), LogEntry(s.tickets, e.sequenceId, StaleSequence), inHand);
    } else {
      QueuingKeepsBalance(s, Push(s, e), Queued(s.tickets, e), inHand);
    }
  }

  lemma PushKeepsOrder(s: State, e: Event, inHand: multiset<nat>)
    requires Ordered(s, inHand)
    ensures Ordered(Push(s, e), inHand)
  {
    PushKeepsIds(s, e);
    PushKeepsAscent(s, e);
    PushKeepsBalance(s, e, inHand);
  }

  lemma IssueKeepsOrder(s: State, inHand: multiset<nat>)
    requires Ordered(s, inHand)
    ensures Ordered(s.(nextIssued := s.nextIssued + 1), inHand)
  {
  }

  /** What calls made by a callback leave alone. */
  predicate SameAppliedState(s: State, after: State) {
    && after.lastApplied == s.lastApplied && after.lockMode == s.lockMode
    && after.snapshot == s.snapshot && after.id == s.id && s.nextIssued <= after.nextIssued
  }

  lemma NestedKeepsOrder(s: State, c: Call, inHand: multiset<nat>)
    requires Ordered(s, inHand)
    ensures Ordered(Nested(s, c), inHand)
  {
    match c {
      case Apply(e) => PushKeepsOrder(s, e, inHand);
      case Enqueue(e) =>
        IssueKeepsOrder(s, inHand);
        PushKeepsOrder(s.(nextIssued := s.nextIssued + 1), e.(sequenceId := s.nextIssued), inHand);
      case Issue => IssueKeepsOrder(s, inHand);
    }
  }

  lemma {:induction false} CallsKeepAppliedState(s: State, calls: seq<Call>)
    ensures SameAppliedState(s, NestedAll(s, calls))
    decreases |calls|
  {
    if calls != [] {
      CallsKeepAppliedState(Nested(s, calls[0]), calls[1..]);
    }
  }

  lemma {:induction false} CallsStayOrdered(s: State, calls: seq<Call>, inHand: multiset<nat>)
    requires Ordered(s, inHand)
    ensures Ordered(NestedAll(s, calls), inHand)
    decreases |calls|
  {
    if calls != [] {
      NestedKeepsOrder(s, calls[0], inHand);
      CallsStayOrdered(Nested(s, calls[0]), calls[1..], inHand);
    }
  }

  lemma CallsKeepOrder(s: State, calls: seq<Call>, inHand: multiset<nat>)
    requires Ordered(s, inHand)
    ensures Ordered(NestedAll(s, calls), inHand) && SameAppliedState(s, NestedAll(s, calls))
  {
    CallsKeepAppliedState(s, calls);
    CallsStayOrdered(s, calls, inHand);
  }

  /** Deciding the event in hand: it is applied, with its entry in the log. */
  function Applied(s: State, q: Queued, snapshot: Snapshot, mode: LockMode): State {
    s.(lockMode := mode, snapshot := snapshot, lastApplied := q.event.sequenceId,
       log := s.log + [LogEntry(q.ticket, q.event.sequenceId, Accepted)])
  }

  lemma AcceptKeepsOrder(s: State, q: Queued, snapshot: Snapshot, mode: LockMode)
    requires Ordered(s, multiset{q.ticket}) && s.lastApplied < q.event.sequenceId < s.nextIssued
    ensures Ordered(Applied(s, q, snapshot, mode), multiset{})
  {
    var entry := LogEntry(q.ticket, q.event.sequenceId, Accepted);
    LogTicketsOfAppend(s.log, entry);
    AcceptKeepsAscent(s.log, s.lastApplied, entry);
  }

  lemma StampedBy(s: Snapshot, id: string, sequenceId: nat, m: LockMode, queueLength: nat)
    ensures var t := Stamp(s, id, sequenceId, m, queueLength);
            && Get(t, GovernorSequenceId) == Num(sequenceId) && Get(t, GovernorLockMode) == LockValue(m)
            && Get(t, GovernorId) == Text(id)
  {
  }

  lemma ReduceKeepsGood(s: State, q: Queued)
    requires Ordered(s, multiset{q.ticket}) && s.lastApplied < q.event.sequenceId < s.nextIssued
    ensures Good(ReduceEvent(s, q))
  {
    var e := q.event;
    var locked := Locked(s, e);
    assert Ordered(locked, multiset{q.ticket});
    var called := NestedAll(locked, e.whileReducing);
    CallsKeepOrder(locked, e.whileReducing, multiset{q.ticket});
    var mode := if e.unlockAfterApply then Unlocked else called.lockMode;
    var snapshot := Stamp(Reduced(e.reducer, s.snapshot), s.id, e.sequenceId, mode, |called.queue|);
    StampedBy(Reduced(e.reducer, s.snapshot), s.id, e.sequenceId, mode, |called.queue|);
    AcceptKeepsOrder(called, q, snapshot, mode);
    CallsKeepOrder(Applied(called, q, snapshot, mode), e.onApplied, multiset{});
  }

  lemma PopKeepsOrder(s: State)
    requires Ordered(s, multiset{}) && s.queue != []
    ensures Ordered(s.(queue := s.queue[1..]), multiset{s.queue[0].ticket})
  {
  }

  /** The event in hand turns out stale: it is only logged. */
  lemma RefusalKeepsGood(s: State, entry: LogEntry)
    requires Ordered(s, multiset{entry.ticket}) && Stamped(s)
    requires entry.outcome.StaleSequence? && entry.sequenceId <= s.lastApplied
    ensures Good(s.(log := s.log + [entry]))
  {
    LogTicketsOfAppend(s.log, entry);
    StaleKeepsAscent(s.log, s.lastApplied, entry);
  }

  lemma DrainStepKeepsGood(s: State)
    requires Good(s) && s.queue != []
    ensures Good(DrainStep(s))
  {
    var q := s.queue[0];
    var popped := s.(queue := s.queue[1..]);
    PopKeepsOrder(s);
    if q.event.sequenceId <= s.lastApplied {
      RefusalKeepsGood(popped, LogEntry(q.ticket, q.event.sequenceId, StaleSequence));
    } else {
      ReduceKeepsGood(popped, q);
    }
  }

  /** Draining decides every queued event and leaves a consistent governor with an empty queue. */
  lemma {:induction false} DrainKeepsGood(s: State)
    requires Good(s)
    ensures Good(Drain(s)) && Drain(s).queue == []
    ensures s.log <= Drain(s).log
    decreases QueueSize(s.queue)
  {
    if s.queue != [] {
      DrainStepSize(s);
      DrainStepKeepsGood(s);
      DrainStepExtendsLog(s);
      DrainKeepsGood(DrainStep(s));
    }
  }

  lemma {:induction false} CallsExtendLog(s: State, calls: seq<Call>)
    ensures s.log <= NestedAll(s, calls).log
    decreases |calls|
  {
    if calls != [] {
      CallsExtendLog(Nested(s, calls[0]), calls[1..]);
    }
  }

  lemma DrainStepExtendsLog(s: State)
    requires s.queue != []
    ensures s.log <= DrainStep(s).log
  {
    var q := s.queue[0];
    var popped := s.(queue := s.queue[1..]);
    if q.event.sequenceId > s.lastApplied {
      var e := q.event;
      var locked := Locked(popped, e);
      var called := NestedAll(locked, e.whileReducing);
      CallsExtendLog(locked, e.whileReducing);
      var mode := if e.unlockAfterApply then Unlocked else called.lockMode;
      var snapshot := Stamp(Reduced(e.reducer, s.snapshot), s.id, e.sequenceId, mode, |called.queue|);
      var applied := called.(lockMode := mode, snapshot := snapshot, lastApplied := e.sequenceId,
                             log := called.log + [LogEntry(q.ticket, e.sequenceId, Accepted)]);
      CallsExtendLog(applied, e.onApplied);
    }
  }

  // ---------------------------------------------------------------- whole runs

  /** A run: calls from outside, each with whatever calls its callbacks make. */
  function Run(id: string, snapshot: Snapshot, calls: seq<Call>): State {
    if calls == [] then Initial(id, snapshot)
    else Outer(Run(id, snapshot, calls[..|calls| - 1]), calls[|calls| - 1])
  }

  lemma InitialIsGood(id: string, snapshot: Snapshot)
    ensures Good(Initial(id, snapshot))
  {
  }

  /** After every run of calls: ids were applied in strictly ascending order, the next id exceeds them all,
      the snapshot carries the governor's id and lock, nothing is queued and every `apply` is decided. */
  lemma {:induction false} GovernorIsConsistent(id: string, snapshot: Snapshot, calls: seq<Call>)
    ensures var s := Run(id, snapshot, calls);
            && Good(s) && s.queue == []
            && LogTickets(s.log) == Tickets(s.tickets)
    decreases |calls|
  {
    if calls == [] {
      InitialIsGood(id, snapshot);
    } else {
      var before := Run(id, snapshot, calls[..|calls| - 1]);
      var c := calls[|calls| - 1];
      GovernorIsConsistent(id, snapshot, calls[..|calls| - 1]);
      NestedKeepsGood(before, c);
      DrainKeepsGood(Nested(before, c));
    }
  }

  /** The drain loop after some of its turns. */
  function DrainSteps(s: State, turns: nat): State
    decreases turns
  {
    if turns == 0 || s.queue == [] then s else DrainSteps(DrainStep(s), turns - 1)
  }

  lemma {:induction false} DrainStepsKeepGood(s: State, turns: nat)
    requires Good(s)
    ensures Good(DrainSteps(s, turns))
    decreases turns
  {
    if turns > 0 && s.queue != [] {
      var next := DrainStep(s);
      assert Good(next) by {
        DrainStepKeepsGood(s);
      }
      DrainStepsKeepGood(next, turns - 1);
    }
  }

  lemma NestedKeepsGood(s: State, c: Call)
    requires Good(s)
    ensures Good(Nested(s, c))
  {
    NestedKeepsOrder(s, c, multiset{});
    NestedKeepsStamp(s, c);
  }

  lemma NestedKeepsStamp(s: State, c: Call)
    requires Stamped(s)
    ensures Stamped(Nested(s, c))
  {
  }

  /** The same in the middle of a call from outside, after any number of turns of the drain loop, with
      whatever its callbacks have queued by then. */
  lemma ConsistentWhileDraining(id: string, snapshot: Snapshot, calls: seq<Call>, c: Call, turns: nat)
    ensures Good(DrainSteps(Nested(Run(id, snapshot, calls), c), turns))
  {
    GovernorIsConsistent(id, snapshot, calls);
    NestedKeepsGood(Run(id, snapshot, calls), c);
    DrainStepsKeepGood(Nested(Run(id, snapshot, calls), c), turns);
  }

  lemma {:induction false} LoggedOnce(log: seq<LogEntry>, t: nat)
    requires LogTickets(log)[t] == 1
    ensures exists i :: 0 <= i < |log| && log[i].ticket == t && forall j | 0 <= j < |log| && j != i :: log[j].ticket != t
  {
    var n := |log| - 1;
    if log[n].ticket == t {
      LoggedNever(log[..n], t);
      assert forall j | 0 <= j < n :: log[j] == log[..n][j];
      assert log[n].ticket == t && forall j | 0 <= j < |log| && j != n :: log[j].ticket != t;
    } else {
      LoggedOnce(log[..n], t);
      var i :| 0 <= i < n && log[..n][i].ticket == t && forall j | 0 <= j < n && j != i :: log[..n][j].ticket != t;
      assert forall j | 0 <= j < n :: log[j] == log[..n][j];
      assert log[i].ticket == t && forall j | 0 <= j < |log| && j != i :: log[j].ticket != t;
    }
  }

  lemma {:induction false} LoggedNever(log: seq<LogEntry>, t: nat)
    requires LogTickets(log)[t] == 0
    ensures forall j | 0 <= j < |log| :: log[j].ticket != t
  {
    if log != [] {
      LoggedNever(log[..|log| - 1], t);
      assert forall j | 0 <= j < |log| - 1 :: log[j] == log[..|log| - 1][j];
    }
  }

  /** Every event ever submitted, from outside or by a callback, is accepted or refused as stale exactly once. */
  lemma DecidedExactlyOnce(id: string, snapshot: Snapshot, calls: seq<Call>, ticket: nat)
    requires ticket < Run(id, snapshot, calls).tickets
    ensures var log := Run(id, snapshot, calls).log;
            exists i :: 0 <= i < |log| && log[i].ticket == ticket
                        && forall j | 0 <= j < |log| && j != i :: log[j].ticket != ticket
  {
    GovernorIsConsistent(id, snapshot, calls);
    TicketCount(Run(id, snapshot, calls).tickets, ticket);
    LoggedOnce(Run(id, snapshot, calls).log, ticket);
  }

  // ---------------------------------------------------------------- the runtime's use

  /** An event with a freshly issued id and silent callbacks is applied at once; this is how every
      snapshot patch of the runtime goes through the governor. */
  lemma FreshEventIsApplied(s: State, e: Event)
    requires Good(s) && s.queue == [] && e.whileReducing == [] && e.onApplied == []
    ensures var after := Outer(s, Enqueue(e));
            var mode := if e.unlockAfterApply then Unlocked else if e.lock.Set? then e.lock.mode else s.lockMode;
            && Good(after) && after.queue == []
            && after.lastApplied == s.nextIssued && after.nextIssued == s.nextIssued + 1
            && after.lockMode == mode
            && after.snapshot == Stamp(Reduced(e.reducer, s.snapshot), s.id, s.nextIssued, mode, 0)
            && after.id == s.id
  {
    var pushed := Nested(s, Enqueue(e));
    var q := Queued(s.tickets, e.(sequenceId := s.nextIssued));
    NestedKeepsOrder(s, Enqueue(e), multiset{});
    assert pushed.queue == [q];
    DrainStepKeepsGood(pushed);
    var popped := pushed.(queue := []);
    assert pushed.queue[1..] == [];
    assert DrainStep(pushed) == ReduceEvent(popped, q);
    assert Drain(pushed) == Drain(DrainStep(pushed)) == DrainStep(pushed);
  }

  // ---------------------------------------------------------------- the audio state

  datatype AudioState = Hold | Mute | Restore

  function GetAudioState(s: State, target: Snapshot): AudioState {
    var session := Get(target, SessionState);
    if session == Text(EXAM_EXITING) || session == Text(EXITED) then Restore
    else if s.lockMode.ExitLock? then Hold
    else if session == Text(EXAM_RUNNING_CONFIRMED) then Mute
    else if Truthy(Get(target, AudioLockActive)) || session == Text(ENTERING_KIOSK) || session == Text(EXAM_EXIT_REQUESTED)
    then Hold
    else Restore
  }

  /** Audio is muted only in a confirmed exam outside the exit flow, and always restored once exiting. */
  lemma MutedExactlyInTheExam(s: State, target: Snapshot)
    ensures GetAudioState(s, target).Mute? <==>
              Get(target, SessionState) == Text(EXAM_RUNNING_CONFIRMED) && s.lockMode.Unlocked?
    ensures Get(target, SessionState) in {Text(EXAM_EXITING), Text(EXITED)} ==> GetAudioState(s, target).Restore?
  {
    StatesDiffer();
  }
}
