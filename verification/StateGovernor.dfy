/**
 The state governor: a re-entrant event queue with sequence ids and an exit lock. Callbacks run
 while an event is applied may themselves issue ids and apply or enqueue further events; an event
 carries the calls its reducer and its `onApplied` notification make.
 */
module StateGovernor {
  import opened Snapshots

  /** `apply` throws on an id that is not a positive integer. */
  type SequenceId = n: nat | n > 0 witness 1

  datatype LockMode = Unlocked | ExitLock

  datatype LockRequest = Keep | Set(mode: LockMode)

  datatype Reducer = Reduce(f: Snapshot -> Snapshot) | ApplyPatch(patch: Patch)

  /** What a callback can do to the governor. `Enqueue` takes the next issued id. */
  datatype Call = Apply(event: Event) | Enqueue(body: Event) | Issue

  datatype Event = Event(
    sequenceId: SequenceId,
    lock: LockRequest,
    unlockAfterApply: bool,
    reducer: Reducer,
    whileReducing: seq<Call>,
    onApplied: seq<Call>)

  datatype Queued = Queued(ticket: nat, event: Event)

  datatype Outcome = Accepted | StaleSequence

  datatype LogEntry = LogEntry(ticket: nat, sequenceId: nat, outcome: Outcome)

  /** The governor's variables, and for the record a ticket per `apply` and how each ended. */
  datatype State = State(
    id: string,
    lockMode: LockMode,
    lastApplied: nat,
    nextIssued: SequenceId,
    snapshot: Snapshot,
    queue: seq<Queued>,
    tickets: nat,
    log: seq<LogEntry>)

  function LockValue(m: LockMode): Val {
    if m.ExitLock? then Text("EXIT_LOCK") else Null
  }

  /** The governor's own fields of a snapshot; normalising a complete record changes nothing else. */
  function Stamp(s: Snapshot, id: string, sequenceId: nat, m: LockMode, queueLength: nat): Snapshot {
    s[GovernorId := Text(id)][GovernorSequenceId := Num(sequenceId)]
     [GovernorLockMode := LockValue(m)][GovernorEventQueueLength := Num(queueLength)]
  }

  function Initial(id: string, s: Snapshot): State {
    State(id, Unlocked, 0, 1, Stamp(s, id, 0, Unlocked, 0), [], 0, [])
  }

  // ---------------------------------------------------------------- calls made while the queue drains

  /** `apply` while an event is being processed: refuse a stale id, otherwise only queue the event. */
  function Push(s: State, e: Event): State {
    if e.sequenceId <= s.lastApplied then
      s.(tickets := s.tickets + 1, log := s.log + [LogEntry(s.tickets, e.sequenceId, StaleSequence)])
    else
      s.(tickets := s.tickets + 1,
         nextIssued := if s.nextIssued < e.sequenceId + 1 then e.sequenceId + 1 else s.nextIssued,
         queue := s.queue + [Queued(s.tickets, e)])
  }

  function Nested(s: State, c: Call): State {
    match c
    case Apply(e) => Push(s, e)
    case Enqueue(e) => Push(s.(nextIssued := s.nextIssued + 1), e.(sequenceId := s.nextIssued))
    case Issue => s.(nextIssued := s.nextIssued + 1)
  }

  function NestedAll(s: State, calls: seq<Call>): State
    decreases |calls|
  {
    if calls == [] then s else NestedAll(Nested(s, calls[0]), calls[1..])
  }

  function Locked(s: State, e: Event): State {
    if e.lock.Set? then s.(lockMode := e.lock.mode) else s
  }

  function Reduced(r: Reducer, s: Snapshot): Snapshot {
    match r
    case Reduce(f) => f(s)
    case ApplyPatch(patch) => Merge(s, patch)
  }

  /** `reduceEvent`, for an event already taken off the queue. */
  function ReduceEvent(s: State, q: Queued): State {
    var e := q.event;
    var locked := Locked(s, e);
    var next := Reduced(e.reducer, s.snapshot);
    var called := NestedAll(locked, e.whileReducing);
    var mode := if e.unlockAfterApply then Unlocked else called.lockMode;
    var applied := called.(
      lockMode := mode,
      snapshot := Stamp(next, s.id, e.sequenceId, mode, |called.queue|),
      lastApplied := e.sequenceId,
      log := called.log + [LogEntry(q.ticket, e.sequenceId, Accepted)]);
    NestedAll(applied, e.onApplied)
  }

  // ---------------------------------------------------------------- draining terminates

  function CallSize(c: Call): nat {
    match c
    case Apply(e) => EventSize(e)
    case Enqueue(e) => EventSize(e)
    case Issue => 0
  }

  function EventSize(e: Event): (n: nat)
    ensures n > 0
  {
    1 + CallsSize(e.whileReducing) + CallsSize(e.onApplied)
  }

  function CallsSize(cs: seq<Call>): nat {
    if cs == [] then 0 else CallSize(cs[0]) + CallsSize(cs[1..])
  }

  function QueueSize(qs: seq<Queued>): nat {
    if qs == [] then 0 else EventSize(qs[0].event) + QueueSize(qs[1..])
  }

  lemma {:induction false} QueueSizeOfPush(qs: seq<Queued>, q: Queued)
    ensures QueueSize(qs + [q]) == QueueSize(qs) + EventSize(q.event)
  {
    if qs == [] {
      assert [] + [q] == [q];
    } else {
      QueueSizeOfPush(qs[1..], q);
      assert (qs + [q])[1..] == qs[1..] + [q];
    }
  }

  lemma NestedSize(s: State, c: Call)
    ensures QueueSize(Nested(s, c).queue) <= QueueSize(s.queue) + CallSize(c)
  {
    match c {
      case Apply(e) => QueueSizeOfPush(s.queue, Queued(s.tickets, e));
      case Enqueue(e) =>
        var numbered := e.(sequenceId := s.nextIssued);
        assert EventSize(numbered) == EventSize(e);
        QueueSizeOfPush(s.queue, Queued(s.tickets, numbered));
      case Issue =>
    }
  }

  lemma {:induction false} NestedAllSize(s: State, cs: seq<Call>)
    ensures QueueSize(NestedAll(s, cs).queue) <= QueueSize(s.queue) + CallsSize(cs)
    decreases |cs|
  {
    if cs != [] {
      NestedSize(s, cs[0]);
      NestedAllSize(Nested(s, cs[0]), cs[1..]);
    }
  }

  lemma ReduceEventSize(s: State, q: Queued)
    ensures QueueSize(ReduceEvent(s, q).queue) < QueueSize(s.queue) + EventSize(q.event)
  {
    var e := q.event;
    var called := NestedAll(Locked(s, e), e.whileReducing);
    NestedAllSize(Locked(s, e), e.whileReducing);
    var mode := if e.unlockAfterApply then Unlocked else called.lockMode;
    var applied := called.(
      lockMode := mode,
      snapshot := Stamp(Reduced(e.reducer, s.snapshot), s.id, e.sequenceId, mode, |called.queue|),
      lastApplied := e.sequenceId,
      log := called.log + [LogEntry(q.ticket, e.sequenceId, Accepted)]);
    NestedAllSize(applied, e.onApplied);
  }

  /** One turn of the drain loop. */
  function DrainStep(s: State): State
    requires s.queue != []
  {
    var q := s.queue[0];
    var popped := s.(queue := s.queue[1..]);
    if q.event.sequenceId <= s.lastApplied
    then popped.(log := s.log + [LogEntry(q.ticket, q.event.sequenceId, StaleSequence)])
    else ReduceEvent(popped, q)
  }

  lemma DrainStepSize(s: State)
    requires s.queue != []
    ensures QueueSize(DrainStep(s).queue) < QueueSize(s.queue)
  {
    ReduceEventSize(s.(queue := s.queue[1..]), s.queue[0]);
  }

  function Drain(s: State): State
    decreases QueueSize(s.queue)
  {
    if s.queue == [] then s
    else
      DrainStepSize(s);
      Drain(DrainStep(s))
  }

  /** `apply` from outside: queue the event and drain. */
  function Submit(s: State, e: Event): State {
    Drain(Push(s, e))
  }

  function Outer(s: State, c: Call): State {
    Drain(Nested(s, c))
  }

  // ---------------------------------------------------------------- the governor itself

  /** The `result` an event has been given so far; none while it is only queued. */
  function OutcomeOf(log: seq<LogEntry>, ticket: nat): (r: Result) {
    if log == [] then StillQueued
    else if log[|log| - 1].ticket == ticket then Decided(log[|log| - 1].outcome)
    else OutcomeOf(log[..|log| - 1], ticket)
  }

  datatype Result = StillQueued | Decided(outcome: Outcome)

  class Governor {
    const id: string
    var lockMode: LockMode
    var lastAppliedSequenceId: nat
    var nextIssuedSequenceId: SequenceId
    var processing: bool
    var snapshot: Snapshot
    var eventQueue: seq<Queued>
    var tickets: nat
    var log: seq<LogEntry>

    ghost function Abs(): State
      reads this
    {
      State(id, lockMode, lastAppliedSequenceId, nextIssuedSequenceId, snapshot, eventQueue, tickets, log)
    }

    /** Between calls from outside nothing is queued. */
    ghost predicate Ready()
      reads this
    {
      !processing && eventQueue == []
    }

    constructor (id: string, initial: Snapshot)
      ensures Ready() && Abs() == Initial(id, initial)
    {
      this.id := id;
      lockMode := Unlocked;
      lastAppliedSequenceId := 0;
      nextIssuedSequenceId := 1;
      processing := false;
      snapshot := Stamp(initial, id, 0, Unlocked, 0);
      eventQueue := [];
      tickets, log := 0, [];
    }

    method IssueSequenceId() returns (sequenceId: SequenceId)
      modifies this
      ensures sequenceId == old(nextIssuedSequenceId) && processing == old(processing)
      ensures Abs() == Nested(old(Abs()), Issue)
    {
      sequenceId := nextIssuedSequenceId;
      nextIssuedSequenceId := nextIssuedSequenceId + 1;
    }

    method Apply(e: Event) returns (result: Result)
      requires processing || eventQueue == []
      modifies this
      ensures processing == old(processing)
      ensures old(processing) ==> Abs() == Push(old(Abs()), e)
      ensures !old(processing) ==> Abs() == Submit(old(Abs()), e)
      ensures result == OutcomeOf(log, old(tickets))
      decreases if processing then 1 else 4, 0
    {
      var ticket := tickets;
      tickets := tickets + 1;
      if e.sequenceId <= lastAppliedSequenceId {
        log := log + [LogEntry(ticket, e.sequenceId, StaleSequence)];
        assert log[..|log| - 1] == old(log);
        return Decided(StaleSequence);
      }
      if nextIssuedSequenceId < e.sequenceId + 1 {
        nextIssuedSequenceId := e.sequenceId + 1;
      }
      eventQueue := eventQueue + [Queued(ticket, e)];
      DrainQueue();
      result := OutcomeOf(log, ticket);
    }

    method EnqueueEvent(e: Event) returns (result: Result)
      requires processing || eventQueue == []
      modifies this
      ensures processing == old(processing)
      ensures old(processing) ==> Abs() == Nested(old(Abs()), Enqueue(e))
      ensures !old(processing) ==> Abs() == Outer(old(Abs()), Enqueue(e))
      ensures result == OutcomeOf(log, old(tickets))
      decreases if processing then 1 else 4, 1
    {
      var sequenceId := IssueSequenceId();
      result := Apply(e.(sequenceId := sequenceId));
    }

    method DrainQueue()
      modifies this
      ensures processing == old(processing)
      ensures old(processing) ==> Abs() == old(Abs())
      ensures !old(processing) ==> Abs() == Drain(old(Abs()))
      decreases if processing then 0 else 3, 0
    {
      if processing {
        return;
      }
      processing := true;
      while eventQueue != []
        invariant processing
        invariant Drain(Abs()) == Drain(old(Abs()))
        decreases QueueSize(eventQueue)
      {
        ghost var before := Abs();
        DrainStepSize(before);
        var q := eventQueue[0];
        eventQueue := eventQueue[1..];
        if q.event.sequenceId <= lastAppliedSequenceId {
          log := log + [LogEntry(q.ticket, q.event.sequenceId, StaleSequence)];
        } else {
          ReduceAndNotify(q);
        }
        assert Abs() == DrainStep(before);
      }
      processing := false;
    }

    method ReduceAndNotify(q: Queued)
      requires processing
      modifies this
      ensures processing && Abs() == ReduceEvent(old(Abs()), q)
      decreases 2, 1
    {
      var e := q.event;
      var previousSnapshot := snapshot;
      if e.lock.Set? {
        lockMode := e.lock.mode;
      }
      MakeCalls(e.whileReducing);
      var reducedSnapshot := Reduced(e.reducer, previousSnapshot);
      if e.unlockAfterApply {
        lockMode := Unlocked;
      }
      snapshot := Stamp(reducedSnapshot, id, e.sequenceId, lockMode, |eventQueue|);
      lastAppliedSequenceId := e.sequenceId;
      log := log + [LogEntry(q.ticket, e.sequenceId, Accepted)];
      MakeCalls(e.onApplied);
    }

    /** The calls of a callback, which find the governor processing and so only queue. */
    method MakeCalls(calls: seq<Call>)
      requires processing
      modifies this
      ensures processing && Abs() == NestedAll(old(Abs()), calls)
      decreases 2, 0
    {
      for i := 0 to |calls|
        invariant processing
        invariant NestedAll(Abs(), calls[i..]) == NestedAll(old(Abs()), calls)
      {
        assert calls[i..][1..] == calls[i + 1..];
        match calls[i] {
          case Apply(e) => var _ := Apply(e);
          case Enqueue(e) => var _ := EnqueueEvent(e);
          case Issue => var _ := IssueSequenceId();
        }
      }
    }
  }
}
