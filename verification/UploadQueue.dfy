/**
 The audit upload queue over runs of appends, acknowledgements and failures, any of which may be cut off
 by an error or a crash: what it holds, and exactly when it can be read at all.
 */
module UploadQueue {
  import opened Wrappers
  import opened AuditChain
  import opened AuditLog
  import opened AuditLaws
  import opened AuditRecords
  import ReplayCache

  // ---------------------------------------------------------------- when the queue can be read

  /** The queue as it reads back, and nothing if it does not. */
  function Waiting(s: Store): seq<Pending> {
    match ReadPending(s.pending.lines)
    case Some(ps) => ps
    case None => []
  }

  predicate ReadsBack(s: Store) {
    ReadPending(s.pending.lines).Some?
  }

  /** The append gets as far as writing to the queue. */
  predicate Enqueues(s: Store, i: Input, f: Fault) {
    Writes(s, i, f) && !f.TornRecord? && !f.NoLineFeed? && !f.NoPending?
  }

  /** It writes only part of its record there, or behind a record that lacks its line feed. */
  predicate Garbles(s: Store, i: Input, f: Fault) {
    Enqueues(s, i, f) && (f.TornPending? || (!s.pending.terminated && s.pending.lines != []))
  }

  predicate NeverGarbles(digest: Digest, s: Store, events: seq<Event>)
    decreases |events|
  {
    events == []
    || ((events[0].Append? ==> !Garbles(s, events[0].input, events[0].fault))
        && NeverGarbles(digest, Step(digest, s, events[0]), events[1..]))
  }

  /** The event an append queues. */
  function QueuedBy(digest: Digest, s: Store, e: Event): seq<Record> {
    if e.Append? && Enqueues(s, e.input, e.fault) && !e.fault.TornPending?
    then [NewRecord(digest, e.input, LastHash(Lines(s.current)).lastHash)]
    else []
  }

  lemma QueueOfAppend(digest: Digest, s: Store, i: Input, f: Fault)
    ensures var after := AuditLog.Append(digest, s, i, f).store.pending;
            if !Enqueues(s, i, f) then after == s.pending
            else if f.TornPending? then after == Enqueued(s.pending, Garbled, false)
            else
              var r := NewRecord(digest, i, LastHash(Lines(s.current)).lastHash);
              after == Enqueued(s.pending, Upload(i, r), !f.NoPendingLineFeed?)
  {
  }

  lemma GarbledDoesNotRead(lines: seq<PendingLine>, k: nat)
    requires k < |lines| && lines[k].Garbled?
    ensures ReadPending(lines).None?
  {
    assert lines[k] in lines;
  }

  lemma EnqueuedReads(file: PendingFile, p: Pending, terminated: bool)
    requires file.terminated || file.lines == []
    ensures ReadPending(Enqueued(file, Queued(p), terminated).lines)
         == (match ReadPending(file.lines) case Some(ps) => Some(ps + [p]) case None => None)
  {
    var lines := file.lines + [Queued(p)];
    if ReadPending(file.lines).Some? {
      assert Uploads(lines) == Uploads(file.lines) + [p];
    } else {
      var l :| l in file.lines && l.Garbled?;
      assert l in lines;
    }
  }

  lemma EnqueuedStaysGarbled(file: PendingFile, line: PendingLine, terminated: bool)
    requires ReadPending(file.lines).None?
    ensures ReadPending(Enqueued(file, line, terminated).lines).None?
  {
    var k :| 0 <= k < |file.lines| && file.lines[k].Garbled?;
    var after := Enqueued(file, line, terminated).lines;
    GarbledDoesNotRead(after, k);
  }

  lemma EnqueuedGarbles(file: PendingFile, line: PendingLine, terminated: bool)
    requires line.Garbled? || (!file.terminated && file.lines != [])
    ensures ReadPending(Enqueued(file, line, terminated).lines).None?
  {
    var after := Enqueued(file, line, terminated).lines;
    GarbledDoesNotRead(after, |after| - 1);
  }

  lemma RewrittenReads(ps: seq<Pending>)
    ensures ReadPending(Rewritten(ps).lines) == Some(ps)
  {
    assert Uploads(Rewritten(ps).lines) == ps;
  }

  /** A queue that reads back still does after an append exactly if the append does not garble it. */
  lemma AppendReadsExactly(digest: Digest, s: Store, i: Input, f: Fault)
    requires ReadsBack(s)
    ensures var after := AuditLog.Append(digest, s, i, f).store;
            && (ReadsBack(after) <==> !Garbles(s, i, f))
            && (ReadsBack(after) ==> Events(Waiting(after)) == Events(Waiting(s)) + QueuedBy(digest, s, Append(i, f)))
  {
    QueueOfAppend(digest, s, i, f);
    if Enqueues(s, i, f) {
      var r := NewRecord(digest, i, LastHash(Lines(s.current)).lastHash);
      if Garbles(s, i, f) {
        EnqueuedGarbles(s.pending, if f.TornPending? then Garbled else Upload(i, r),
                        !f.TornPending? && !f.NoPendingLineFeed?);
      } else {
        EnqueuedReads(s.pending, Upload(i, r).upload, !f.NoPendingLineFeed?);
        assert Events(Waiting(s) + [Upload(i, r).upload]) == Events(Waiting(s)) + [r];
      }
    } else {
      assert Events(Waiting(s)) + [] == Events(Waiting(s));
    }
  }

  lemma StepStaysGarbled(digest: Digest, s: Store, e: Event)
    requires !ReadsBack(s)
    ensures !ReadsBack(Step(digest, s, e))
    ensures !e.Append? ==> Step(digest, s, e) == s
  {
    if e.Append? {
      QueueOfAppend(digest, s, e.input, e.fault);
    }
    if e.Append? && Enqueues(s, e.input, e.fault) {
      var r := NewRecord(digest, e.input, LastHash(Lines(s.current)).lastHash);
      EnqueuedStaysGarbled(s.pending, if e.fault.TornPending? then Garbled else Upload(e.input, r),
                           !e.fault.TornPending? && !e.fault.NoPendingLineFeed?);
    }
  }

  lemma {:induction false} StaysGarbled(digest: Digest, s: Store, events: seq<Event>)
    requires !ReadsBack(s)
    ensures !ReadsBack(Run(digest, s, events))
    decreases |events|
  {
    if events != [] {
      StepStaysGarbled(digest, s, events[0]);
      StaysGarbled(digest, Step(digest, s, events[0]), events[1..]);
    }
  }

  // ---------------------------------------------------------------- what a run should leave in the queue

  /** Some acknowledgement of the run that took effect names the event. */
  predicate AcknowledgedBy(events: seq<Event>, id: string) {
    exists e <- events :: e.Acknowledge? && e.rewritten && id in e.ids
  }

  /** The events of a list that no later acknowledgement names. */
  function Unacknowledged(rs: seq<Record>, events: seq<Event>): seq<Record> {
    if rs == [] then []
    else (if AcknowledgedBy(events, rs[0].content.id) then [] else [rs[0]]) + Unacknowledged(rs[1..], events)
  }

  /** The events queued in a run, in order, without those acknowledged later in it. */
  function Survivors(digest: Digest, s: Store, events: seq<Event>): seq<Record>
    decreases |events|
  {
    if events == [] then []
    else Unacknowledged(QueuedBy(digest, s, events[0]), events[1..])
         + Survivors(digest, Step(digest, s, events[0]), events[1..])
  }

  lemma {:induction false} UnacknowledgedOfConcat(a: seq<Record>, b: seq<Record>, events: seq<Event>)
    ensures Unacknowledged(a + b, events) == Unacknowledged(a, events) + Unacknowledged(b, events)
    decreases |a|
  {
    if a == [] {
      assert [] + b == b;
    } else {
      assert (a + b)[1..] == a[1..] + b;
      UnacknowledgedOfConcat(a[1..], b, events);
    }
  }

  lemma {:induction false} NothingAcknowledgedYet(rs: seq<Record>)
    ensures Unacknowledged(rs, []) == rs
  {
    if rs != [] {
      NothingAcknowledgedYet(rs[1..]);
    }
  }

  predicate Acknowledges(e: Event, id: string) {
    e.Acknowledge? && e.rewritten && id in e.ids
  }

  lemma FirstOrLater(events: seq<Event>, id: string)
    requires events != []
    ensures AcknowledgedBy(events, id) <==> Acknowledges(events[0], id) || AcknowledgedBy(events[1..], id)
  {
    assert events == [events[0]] + events[1..];
  }

  lemma {:induction false} EventsOfKept(ps: seq<Pending>, e: Event, rest: seq<Event>)
    requires e.Acknowledge? && e.rewritten
    ensures Unacknowledged(Events(Kept(ps, Ids(e.ids))), rest) == Unacknowledged(Events(ps), [e] + rest)
    decreases |ps|
  {
    if ps != [] {
      EventsOfKept(ps[1..], e, rest);
      var id := ps[0].event.content.id;
      assert ([e] + rest)[1..] == rest;
      FirstOrLater([e] + rest, id);
      assert Events(ps)[1..] == Events(ps[1..]);
      var first := if id in Ids(e.ids) then [] else [ps[0]];
      assert Events(first + Kept(ps[1..], Ids(e.ids))) == Events(first) + Events(Kept(ps[1..], Ids(e.ids)));
      UnacknowledgedOfConcat(Events(first), Events(Kept(ps[1..], Ids(e.ids))), rest);
    } else {
      assert Events(ps) == [];
    }
  }

  lemma {:induction false} IrrelevantStep(rs: seq<Record>, e: Event, rest: seq<Event>)
    requires !(e.Acknowledge? && e.rewritten)
    ensures Unacknowledged(rs, [e] + rest) == Unacknowledged(rs, rest)
    decreases |rs|
  {
    if rs != [] {
      assert ([e] + rest)[1..] == rest;
      FirstOrLater([e] + rest, rs[0].content.id);
      IrrelevantStep(rs[1..], e, rest);
    }
  }

  /** One step, seen from the end of the run. */
  lemma StepOfQueue(digest: Digest, s: Store, e: Event, rest: seq<Event>)
    requires ReadsBack(s) && (e.Append? ==> !Garbles(s, e.input, e.fault))
    ensures ReadsBack(Step(digest, s, e))
    ensures Unacknowledged(Events(Waiting(Step(digest, s, e))), rest)
         == Unacknowledged(Events(Waiting(s)), [e] + rest) + Unacknowledged(QueuedBy(digest, s, e), rest)
  {
    match e {
      case Append(i, f) =>
        IrrelevantStep(Events(Waiting(s)), e, rest);
        AppendReadsExactly(digest, s, i, f);
        UnacknowledgedOfConcat(Events(Waiting(s)), QueuedBy(digest, s, e), rest);
      case Acknowledge(ids, rewritten) =>
        if rewritten {
          RewrittenReads(Kept(Waiting(s), Ids(ids)));
          EventsOfKept(Waiting(s), e, rest);
        } else {
          IrrelevantStep(Events(Waiting(s)), e, rest);
        }
      case Failure(ids, reason, failedAt, rewritten) =>
        IrrelevantStep(Events(Waiting(s)), e, rest);
        RewrittenReads(Failing(Waiting(s), Ids(ids), reason, failedAt));
        assert Events(Failing(Waiting(s), Ids(ids), reason, failedAt)) == Events(Waiting(s));
    }
  }

  lemma Associate(a: seq<Record>, b: seq<Record>, c: seq<Record>)
    ensures (a + b) + c == a + (b + c)
  {
  }

  /** Over whole runs the queue can be read exactly if no append garbled it, and then it holds, in append
      order, exactly what was in it and what was queued, without what was acknowledged after it was queued. */
  lemma {:induction false} QueueIsConserved(digest: Digest, s: Store, events: seq<Event>)
    requires ReadsBack(s)
    ensures var after := Run(digest, s, events);
            && (ReadsBack(after) <==> NeverGarbles(digest, s, events))
            && (ReadsBack(after) ==>
                  Events(Waiting(after)) == Unacknowledged(Events(Waiting(s)), events) + Survivors(digest, s, events))
    decreases |events|
  {
    if events == [] {
      NothingAcknowledgedYet(Events(Waiting(s)));
    } else {
      var e, rest := events[0], events[1..];
      assert events == [e] + rest;
      var next := Step(digest, s, e);
      if e.Append? && Garbles(s, e.input, e.fault) {
        AppendReadsExactly(digest, s, e.input, e.fault);
        StaysGarbled(digest, next, rest);
      } else {
        StepOfQueue(digest, s, e, rest);
        QueueIsConserved(digest, next, rest);
        Associate(Unacknowledged(Events(Waiting(s)), events), Unacknowledged(QueuedBy(digest, s, e), rest),
                  Survivors(digest, next, rest));
      }
    }
  }

  // ---------------------------------------------------------------- a garbled queue and the log

  predicate SameLog(a: Store, b: Store) {
    a.current == b.current && a.sealed == b.sealed
  }

  lemma {:induction false} LogIgnoresQueue(digest: Digest, a: Store, b: Store, events: seq<Event>)
    requires SameLog(a, b)
    ensures SameLog(Run(digest, a, events), Run(digest, b, events))
    decreases |events|
  {
    if events != [] {
      LogIgnoresQueue(digest, Step(digest, a, events[0]), Step(digest, b, events[0]), events[1..]);
    }
  }

  lemma SameLogSameReport(digest: Digest, a: Store, b: Store, i: Input, f: Fault)
    requires SameLog(a, b)
    ensures AuditLog.Append(digest, a, i, f).ok == AuditLog.Append(digest, b, i, f).ok
  {
  }

  /** From the append that garbles it on the queue can never be read again, so that no drain, acknowledgement
      or failure report succeeds, while the log goes on and appends report what they would with a good queue. */
  lemma GarbledForGood(digest: Digest, s: Store, i: Input, f: Fault, events: seq<Event>, next: Input, g: Fault)
    requires ReadsBack(s) && Garbles(s, i, f)
    ensures var garbled := AuditLog.Append(digest, s, i, f).store;
            var after := Run(digest, garbled, events);
            var other := Run(digest, garbled.(pending := NO_UPLOADS), events);
            && !ReadsBack(after) && SameLog(after, other)
            && AuditLog.Append(digest, after, next, g).ok == AuditLog.Append(digest, other, next, g).ok
  {
    var garbled := AuditLog.Append(digest, s, i, f).store;
    AppendReadsExactly(digest, s, i, f);
    StaysGarbled(digest, garbled, events);
    LogIgnoresQueue(digest, garbled, garbled.(pending := NO_UPLOADS), events);
    SameLogSameReport(digest, Run(digest, garbled, events),
                      Run(digest, garbled.(pending := NO_UPLOADS), events), next, g);
  }

  // ---------------------------------------------------------------- the queue and the log

  predicate IsSubsequence(a: seq<Record>, b: seq<Record>) {
    a == [] || (b != [] && ((a[0] == b[0] && IsSubsequence(a[1..], b[1..])) || IsSubsequence(a, b[1..])))
  }

  lemma SubsequenceOfFirst(a: seq<Record>, b: seq<Record>, r: Record)
    requires IsSubsequence(a, b)
    ensures IsSubsequence(a, [r] + b) && IsSubsequence([r] + a, [r] + b)
  {
    assert ([r] + a)[1..] == a && ([r] + b)[1..] == b;
  }

  lemma EmptyIsNeutral(a: seq<Record>)
    ensures [] + a == a && a + [] == a
  {
  }

  lemma {:induction false} SubsequenceOfMore(a: seq<Record>, front: seq<Record>, b: seq<Record>)
    requires IsSubsequence(a, b)
    ensures IsSubsequence(a, front + b)
    decreases |front|
  {
    if front == [] {
      EmptyIsNeutral(b);
    } else {
      SubsequenceOfMore(a, front[1..], b);
      SubsequenceOfFirst(a, front[1..] + b, front[0]);
      assert front + b == [front[0]] + (front[1..] + b);
    }
  }

  lemma SurvivorWasWritten(digest: Digest, s: Store, e: Event, rest: seq<Event>)
    ensures Unacknowledged(QueuedBy(digest, s, e), rest) == []
         || (Unacknowledged(QueuedBy(digest, s, e), rest) == WroteBy(digest, s, e) && |WroteBy(digest, s, e)| == 1)
  {
    var queued := QueuedBy(digest, s, e);
    if queued != [] {
      assert queued[1..] == [];
    }
  }

  lemma {:induction false} SurvivorsFollowTheWrites(digest: Digest, s: Store, events: seq<Event>)
    ensures IsSubsequence(Survivors(digest, s, events), Wrote(digest, s, events))
    decreases |events|
  {
    if events != [] {
      var e, rest := events[0], events[1..];
      var next := Step(digest, s, e);
      SurvivorsFollowTheWrites(digest, next, rest);
      SurvivorWasWritten(digest, s, e, rest);
      EmptyIsNeutral(Survivors(digest, next, rest));
      EmptyIsNeutral(Wrote(digest, next, rest));
      if WroteBy(digest, s, e) != [] {
        SubsequenceOfFirst(Survivors(digest, next, rest), Wrote(digest, next, rest), WroteBy(digest, s, e)[0]);
      }
    }
  }

  /** From an empty queue on, the queue's events are some of the records written, in the same order; a crash
      between the two file appends only leaves one of them out. */
  lemma QueueFollowsTheWrites(digest: Digest, s: Store, events: seq<Event>)
    requires s.pending.lines == []
    ensures IsSubsequence(Events(Waiting(Run(digest, s, events))), Wrote(digest, s, events))
  {
    assert Uploads([]) == [];
    QueueIsConserved(digest, s, events);
    assert Events(Waiting(s)) == [] && Unacknowledged([], events) == [];
    EmptyIsNeutral(Survivors(digest, s, events));
    SurvivorsFollowTheWrites(digest, s, events);
  }

  /** And as long as no append is a losing one, they stand in the log's files in that order. */
  lemma QueueFollowsTheFiles(digest: Digest, s: Store, events: seq<Event>)
    requires s.pending.lines == [] && Filed(s) && NeverLoses(digest, s, events)
    ensures IsSubsequence(Events(Waiting(Run(digest, s, events))), All(Run(digest, s, events)))
  {
    QueueFollowsTheWrites(digest, s, events);
    NothingIsLostExactly(digest, s, events);
    SubsequenceOfMore(Events(Waiting(Run(digest, s, events))), All(s), Wrote(digest, s, events));
  }

  /** Otherwise a record may be queued that stands in no file: one written behind a line that lacks its line feed. */
  lemma QueuedButInNoFile(digest: Digest, s: Store, i: Input, next: Input)
    requires Sound(digest, s) && All(s) == [] && s.pending.lines == [] && !i.full && !next.full
    ensures var after := Run(digest, s, [Append(i, NoLineFeed), Append(next, Clean)]);
            All(after) == [] && |Events(Waiting(after))| == 1
  {
    CutLineLosesBoth(digest, s, i, next);
    CutLineIsJoined(digest, s, i, next);
    OfTwo(digest, s, Append(i, NoLineFeed), Append(next, Clean));
    var cut := AuditLog.Append(digest, s, i, NoLineFeed).store;
    QueueOfAppend(digest, s, i, NoLineFeed);
    assert Uploads([]) == [];
    AppendReadsExactly(digest, cut, next, Clean);
  }

  // ---------------------------------------------------------------- failed uploads

  /** Recording a failure keeps the events and their order, and never lets a retry come before the failure. */
  lemma FailureKeepsEvents(ps: seq<Pending>, failed: set<string>, reason: string, failedAt: ReplayCache.U64)
    ensures Events(Failing(ps, failed, reason, failedAt)) == Events(ps)
    ensures forall k | 0 <= k < |ps| && ps[k].event.content.id in failed ::
              var p := Failing(ps, failed, reason, failedAt)[k];
              && p.attempts == Min(ps[k].attempts + 1, U32_MAX)
              && failedAt <= p.nextRetryAt
              && (failedAt + 60_000 <= ReplayCache.U64_MAX ==> failedAt < p.nextRetryAt <= failedAt + 60_000)
  {
  }
}
