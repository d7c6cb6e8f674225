/** What the log's records, its segments and the queue's entries carry: the events that were passed in. */
module AuditContents {
  import opened Wrappers
  import opened AuditChain
  import opened AuditLog
  import opened AuditLaws
  import opened AuditTears
  import opened AuditRecords
  import opened UploadQueue
  import opened ReplayCache

  // ---------------------------------------------------------------- one append

  /** The record is the event's: its id and its body, linked to the last hash that was read, under its own hash. */
  predicate Carries(digest: Digest, s: Store, i: Input, r: Record) {
    && r.content.id == i.id && r.content.body == i.body && r.current == digest(r.content)
    && LastHash(Lines(s.current)) == Read(r.content.previous)
  }

  /** An append that writes its record in full on a line of its own leaves it as the last line of the log. */
  lemma WrittenRecordCarriesTheEvent(digest: Digest, s: Store, i: Input, f: Fault)
    requires Writes(s, i, f) && !f.TornRecord? && (Rotates(s, i) || !LacksLineFeed(s))
    ensures var lines := Lines(AuditLog.Append(digest, s, i, f).store.current);
            && lines != [] && lines[|lines| - 1].Entry? && Carries(digest, s, i, lines[|lines| - 1].record)
            && lines[..|lines| - 1] == if Rotates(s, i) then [] else Lines(s.current)
  {
    FilesOfAppend(digest, s, i, f);
  }

  /** And what is queued is that same record, due at once, with no attempt made. */
  lemma QueuedUploadCarriesTheEvent(digest: Digest, s: Store, i: Input, f: Fault)
    requires ReadsBack(s) && Enqueues(s, i, f) && !Garbles(s, i, f)
    ensures var after := AuditLog.Append(digest, s, i, f).store;
            && ReadsBack(after) && |Waiting(after)| == |Waiting(s)| + 1 && Waiting(after)[..|Waiting(s)|] == Waiting(s)
            && var last := Waiting(after)[|Waiting(s)|];
               && Carries(digest, s, i, last.event)
               && last.queuedAt == last.nextRetryAt == i.timestamp && last.attempts == 0 && last.lastFailure == None
  {
    QueueOfAppend(digest, s, i, f);
    var r := NewRecord(digest, i, LastHash(Lines(s.current)).lastHash);
    EnqueuedReads(s.pending, Upload(i, r).upload, !f.NoPendingLineFeed?);
  }

  /** A rotation seals the current lines under the event's timestamp, behind all segments of other timestamps. */
  lemma RotationSealsExactly(s: Store, i: Input)
    requires Rotates(s, i)
    ensures var sealed := Rotated(s, i).sealed;
            && sealed != [] && sealed[|sealed| - 1] == Segment(i.timestamp, s.current.value.lines)
            && (forall g <- sealed[..|sealed| - 1] :: g in s.sealed && g.timestamp != i.timestamp)
            && (forall g <- s.sealed :: g.timestamp != i.timestamp ==> g in sealed)
            && Rotated(s, i).current == None && Rotated(s, i).pending == s.pending
  {
    WithoutTimestampExactly(s.sealed, i.timestamp);
    var sealed := Rotated(s, i).sealed;
    assert sealed[..|sealed| - 1] == WithoutTimestamp(s.sealed, i.timestamp);
  }

  lemma {:induction false} WithoutTimestampExactly(segments: seq<Segment>, timestamp: U64)
    ensures forall g :: g in WithoutTimestamp(segments, timestamp) <==> g in segments && g.timestamp != timestamp
    decreases |segments|
  {
    if segments != [] {
      WithoutTimestampExactly(segments[..|segments| - 1], timestamp);
      assert segments == segments[..|segments| - 1] + [segments[|segments| - 1]];
    }
  }

  // ---------------------------------------------------------------- whole runs

  datatype Told = Told(id: string, body: string)

  function Tell(rs: seq<Record>): seq<Told> {
    seq(|rs|, k requires 0 <= k < |rs| => Told(rs[k].content.id, rs[k].content.body))
  }

  /** The events whose appends wrote a whole record, in order. */
  function EventsWritten(digest: Digest, s: Store, events: seq<Event>): seq<Told>
    decreases |events|
  {
    if events == [] then []
    else
      var e := events[0];
      (if e.Append? && Writes(s, e.input, e.fault) && !e.fault.TornRecord? then [Told(e.input.id, e.input.body)] else [])
      + EventsWritten(digest, Step(digest, s, e), events[1..])
  }

  lemma TellOfConcat(a: seq<Record>, b: seq<Record>)
    ensures Tell(a + b) == Tell(a) + Tell(b)
  {
  }

  lemma {:induction false} WroteTells(digest: Digest, s: Store, events: seq<Event>)
    ensures Tell(Wrote(digest, s, events)) == EventsWritten(digest, s, events)
    decreases |events|
  {
    if events != [] {
      var e := events[0];
      WroteTells(digest, Step(digest, s, e), events[1..]);
      TellOfConcat(WroteBy(digest, s, e), Wrote(digest, Step(digest, s, e), events[1..]));
      assert Tell(WroteBy(digest, s, e))
          == if e.Append? && Writes(s, e.input, e.fault) && !e.fault.TornRecord?
             then [Told(e.input.id, e.input.body)] else [];
    }
  }

  /** As long as no append is a losing one, the files tell the events that were written, each with its own id
      and body, in the order in which they came, behind what they told before. */
  lemma FilesTellTheEvents(digest: Digest, s: Store, events: seq<Event>)
    requires Filed(s) && NeverLoses(digest, s, events)
    ensures Tell(All(Run(digest, s, events))) == Tell(All(s)) + EventsWritten(digest, s, events)
  {
    NothingIsLostExactly(digest, s, events);
    WroteTells(digest, s, events);
    TellOfConcat(All(s), Wrote(digest, s, events));
  }

  // ---------------------------------------------------------------- the queue's bookkeeping

  function CountKept(ps: seq<Pending>, acknowledged: set<string>, p: Pending): nat {
    if p.event.content.id in acknowledged then 0 else multiset(ps)[p]
  }

  /** An acknowledgement takes the named uploads out, every one of them, and leaves the others as they are. */
  lemma {:induction false} AcknowledgedExactly(ps: seq<Pending>, acknowledged: set<string>)
    ensures forall p :: multiset(Kept(ps, acknowledged))[p] == CountKept(ps, acknowledged, p)
  {
    if ps != [] {
      AcknowledgedExactly(ps[1..], acknowledged);
      assert ps == [ps[0]] + ps[1..];
    }
  }

  /** A failure report changes the named uploads only: one attempt more, the reason, and the next try after a
      delay that starts at a second and doubles up to a minute. */
  lemma FailureReportedExactly(ps: seq<Pending>, failed: set<string>, reason: string, failedAt: U64)
    ensures var after := Failing(ps, failed, reason, failedAt);
            && |after| == |ps|
            && forall k | 0 <= k < |ps| ::
                 if ps[k].event.content.id in failed then
                   && after[k].event == ps[k].event && after[k].queuedAt == ps[k].queuedAt
                   && after[k].attempts == Min(ps[k].attempts + 1, U32_MAX) && after[k].lastFailure == Some(reason)
                   && after[k].nextRetryAt == Min(failedAt + Backoff(after[k].attempts), U64_MAX)
                 else after[k] == ps[k]
  {
    forall k | 0 <= k < |ps| { BackoffExactly(AfterFailure(ps[k], reason, failedAt).attempts); }
  }

  function Backoff(attempts: nat): nat {
    if attempts <= 1 then 1_000 else Min(2 * Backoff(attempts - 1), 60_000)
  }

  lemma {:induction false} BackoffExactly(attempts: U32)
    ensures RetryDelayMs(attempts) == Backoff(attempts)
  {
    if attempts > 1 {
      BackoffExactly(attempts - 1);
    }
  }
}
