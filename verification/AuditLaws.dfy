/** What runs of the audit log keep: the files verify, and when the segments form one chain. */
module AuditLaws {
  import opened Wrappers
  import opened AuditChain
  import opened AuditLog
  import opened ReplayCache

  datatype Event =
    | Append(input: Input, fault: Fault)
    | Acknowledge(ids: seq<string>, rewritten: bool)
    | Failure(ids: seq<string>, reason: string, failedAt: U64, rewritten: bool)

  function Step(digest: Digest, s: Store, e: Event): Store {
    match e
    case Append(i, f) => AuditLog.Append(digest, s, i, f).store
    case Acknowledge(ids, rewritten) => s.(pending := Acknowledged(s.pending, ids, rewritten))
    case Failure(ids, reason, failedAt, rewritten) =>
      s.(pending := Postponed(s.pending, ids, reason, failedAt, rewritten))
  }

  function Run(digest: Digest, s: Store, events: seq<Event>): Store
    decreases |events|
  {
    if events == [] then s else Run(digest, Step(digest, s, events[0]), events[1..])
  }

  /** No append was cut off in the middle of a line. */
  predicate WholeLines(events: seq<Event>) {
    forall e <- events :: e.Append? ==> !e.fault.TornRecord? && !e.fault.NoLineFeed?
  }

  // ---------------------------------------------------------------- what an append does to the files

  /** The append ends before it touches any file. */
  predicate Stops(s: Store, i: Input, f: Fault) {
    LastHash(Lines(s.current)).Failed? || f.NoParent? || (f.RenameFails? && Rotates(s, i))
  }

  /** The append gets as far as writing to the log. */
  predicate Writes(s: Store, i: Input, f: Fault) {
    !Stops(s, i, f) && !f.AfterRename? && !f.NothingWritten?
  }

  lemma FilesOfAppend(digest: Digest, s: Store, i: Input, f: Fault)
    ensures var after := AuditLog.Append(digest, s, i, f).store;
            && after.sealed == (if Stops(s, i, f) then s.sealed else Rotated(s, i).sealed)
            && (if Writes(s, i, f) then
                  var r := NewRecord(digest, i, LastHash(Lines(s.current)).lastHash);
                  after.current == Some(if f.TornRecord? then Written(Rotated(s, i).current, NotJson, false)
                                        else Written(Rotated(s, i).current, Entry(r), !f.NoLineFeed?))
                else
                  || after.current == (if Stops(s, i, f) then s.current else Rotated(s, i).current)
                  || (!Stops(s, i, f) && after.current == Some(Touched(Rotated(s, i).current))))
  {
  }

  // ---------------------------------------------------------------- every file verifies

  predicate AllEntries(lines: seq<Line>) {
    forall l <- lines :: l.Entry?
  }

  predicate WholeSegments(segments: seq<Segment>) {
    forall g <- segments :: g.lines != [] && AllEntries(g.lines)
  }

  predicate Sound(digest: Digest, s: Store) {
    && (s.current.Some? ==> s.current.value.terminated)
    && AllEntries(Lines(s.current)) && Intact(digest, Lines(s.current))
    && WholeSegments(s.sealed) && forall g <- s.sealed :: Intact(digest, g.lines)
  }

  lemma EntriesAreRecords(lines: seq<Line>)
    requires AllEntries(lines)
    ensures |Records(lines)| == |lines|
    ensures forall i | 0 <= i < |lines| :: Records(lines)[i] == lines[i].record
    ensures LastHash(lines) == Read(LastCurrent(Records(lines)))
  {
    if lines != [] {
      EntriesAreRecords(lines[..|lines| - 1]);
    }
  }

  lemma {:induction false} WithoutTimestampKeeps(segments: seq<Segment>, timestamp: U64)
    ensures forall g <- WithoutTimestamp(segments, timestamp) :: g in segments
    decreases |segments|
  {
    if segments != [] {
      WithoutTimestampKeeps(segments[..|segments| - 1], timestamp);
    }
  }

  lemma RotationKeepsSound(digest: Digest, s: Store, i: Input)
    requires Sound(digest, s)
    ensures Sound(digest, Rotated(s, i))
  {
    WithoutTimestampKeeps(s.sealed, i.timestamp);
  }

  /** A record whose previous hash is the file's last one, or the first of its file, extends an intact file. */
  lemma WriteKeepsIntact(digest: Digest, lines: seq<Line>, r: Record)
    requires AllEntries(lines) && Intact(digest, lines) && r.current == digest(r.content)
    requires lines != [] ==> Read(r.content.previous) == LastHash(lines)
    ensures AllEntries(lines + [Entry(r)]) && Intact(digest, lines + [Entry(r)])
  {
    EntriesAreRecords(lines);
    RecordsOfAppend(lines, Entry(r));
    ChainOfAppend(digest, Records(lines), r);
  }

  function WithRecord(s: Store, r: Record): Store {
    s.(current := Some(Written(s.current, Entry(r), true)))
  }

  lemma WriteKeepsSound(digest: Digest, s: Store, r: Record)
    requires Sound(digest, s) && r.current == digest(r.content)
    requires Lines(s.current) != [] ==> Read(r.content.previous) == LastHash(Lines(s.current))
    ensures Sound(digest, WithRecord(s, r))
  {
    WriteKeepsIntact(digest, Lines(s.current), r);
    assert Lines(WithRecord(s, r).current) == Lines(s.current) + [Entry(r)];
  }

  lemma TouchKeepsSound(digest: Digest, s: Store)
    requires Sound(digest, s)
    ensures Sound(digest, s.(current := Some(Touched(s.current))))
  {
  }

  /** A file without torn lines can always be appended to. */
  lemma SoundIsReadable(digest: Digest, s: Store)
    requires Sound(digest, s)
    ensures LastHash(Lines(s.current)).Read?
  {
    EntriesAreRecords(Lines(s.current));
  }

  lemma TearingLeavesUnsound(digest: Digest, s: Store, i: Input, f: Fault)
    requires LastHash(Lines(s.current)).Read? && (f.TornRecord? || f.NoLineFeed?)
    ensures var after := AuditLog.Append(digest, s, i, f).store; after.current.Some? && !after.current.value.terminated
  {
  }

  lemma SameFilesAreSound(digest: Digest, a: Store, b: Store)
    requires a.sealed == b.sealed && a.current == b.current && Sound(digest, b)
    ensures Sound(digest, a)
  {
  }

  lemma AppendKeepsSound(digest: Digest, s: Store, i: Input, f: Fault)
    requires Sound(digest, s) && !f.TornRecord? && !f.NoLineFeed?
    ensures Sound(digest, AuditLog.Append(digest, s, i, f).store)
  {
    SoundIsReadable(digest, s);
    RotationKeepsSound(digest, s, i);
    FilesOfAppend(digest, s, i, f);
    var after, rotated := AuditLog.Append(digest, s, i, f).store, Rotated(s, i);
    if Writes(s, i, f) {
      var r := NewRecord(digest, i, LastHash(Lines(s.current)).lastHash);
      WriteKeepsSound(digest, rotated, r);
      SameFilesAreSound(digest, after, WithRecord(rotated, r));
    } else if Stops(s, i, f) {
      SameFilesAreSound(digest, after, s);
    } else {
      TouchKeepsSound(digest, rotated);
      SameFilesAreSound(digest, after, rotated.(current := after.current));
    }
  }

  /** After any run of appends, rotations, failures and crashes that cut off no line, the current file
      and every sealed segment verify. */
  lemma {:induction false} FilesAlwaysVerify(digest: Digest, s: Store, events: seq<Event>)
    requires Sound(digest, s) && WholeLines(events)
    ensures Sound(digest, Run(digest, s, events))
    decreases |events|
  {
    if events != [] {
      match events[0] {
        case Append(i, f) => AppendKeepsSound(digest, s, i, f);
        case _ =>
      }
      FilesAlwaysVerify(digest, Step(digest, s, events[0]), events[1..]);
    }
  }

  predicate EndsUnreadably(s: Store) {
    s.current.Some? && s.current.value.lines != [] && s.current.value.lines[|s.current.value.lines| - 1].NotJson?
  }

  /** An unreadable last line wedges the log: nothing is appended ever after. */
  lemma {:induction false} UnreadableLineWedges(digest: Digest, s: Store, events: seq<Event>)
    requires EndsUnreadably(s)
    ensures Run(digest, s, events).current == s.current
    ensures forall k, e | 0 <= k < |events| && events[k] == e && e.Append? ::
              !AuditLog.Append(digest, Run(digest, s, events[..k]), e.input, e.fault).ok
    decreases |events|
  {
    if events != [] {
      var next := Step(digest, s, events[0]);
      assert next.current == s.current;
      UnreadableLineWedges(digest, next, events[1..]);
      forall k, e | 0 <= k < |events| && events[k] == e && e.Append?
        ensures !AuditLog.Append(digest, Run(digest, s, events[..k]), e.input, e.fault).ok
      {
        if k > 0 {
          assert events[1..][k - 1] == e;
          assert events[..k][0] == events[0] && events[..k][1..] == events[1..][..k - 1];
        }
      }
    }
  }

  /** A record cut off in the middle leaves such a line, whatever the log held before. */
  lemma TornRecordWedges(digest: Digest, s: Store, i: Input, events: seq<Event>)
    requires LastHash(Lines(s.current)).Read?
    ensures var torn := AuditLog.Append(digest, s, i, TornRecord).store;
            && !AuditLog.Append(digest, s, i, TornRecord).ok && EndsUnreadably(torn)
            && Run(digest, torn, events).current == torn.current
            && forall k, e | 0 <= k < |events| && events[k] == e && e.Append? ::
                 !AuditLog.Append(digest, Run(digest, torn, events[..k]), e.input, e.fault).ok
  {
    UnreadableLineWedges(digest, AuditLog.Append(digest, s, i, TornRecord).store, events);
  }

  // ---------------------------------------------------------------- one chain over all segments

  function SealedRecords(segments: seq<Segment>): seq<Record> {
    if segments == [] then []
    else SealedRecords(segments[..|segments| - 1]) + Records(segments[|segments| - 1].lines)
  }

  /** All records on disk, in the order of sealing. */
  function All(s: Store): seq<Record> {
    SealedRecords(s.sealed) + Records(Lines(s.current))
  }

  /** The segments and the current file form one chain from null, and the next append will extend it. */
  predicate Continuous(digest: Digest, s: Store) {
    && Sound(digest, s)
    && Chain(digest, All(s)) && FromNull(All(s))
    && LastHash(Lines(s.current)) == Read(LastCurrent(All(s)))
  }

  predicate TimestampUsed(segments: seq<Segment>, timestamp: U64) {
    exists g <- segments :: g.timestamp == timestamp
  }

  /** An append that rotates but leaves no record in the new file, or whose rotation replaces a segment. */
  predicate Gaps(s: Store, i: Input, f: Fault) {
    && Rotates(s, i) && !f.NoParent? && !f.RenameFails?
    && (f.AfterRename? || f.NothingWritten? || TimestampUsed(s.sealed, i.timestamp))
  }

  lemma {:induction false} WithoutUnused(segments: seq<Segment>, timestamp: U64)
    ensures !TimestampUsed(segments, timestamp) ==> WithoutTimestamp(segments, timestamp) == segments
    decreases |segments|
  {
    if segments != [] {
      var init := segments[..|segments| - 1];
      WithoutUnused(init, timestamp);
      assert segments == init + [segments[|segments| - 1]];
      if !TimestampUsed(segments, timestamp) {
        assert segments[|segments| - 1] in segments;
        assert forall g <- init :: g in segments;
      }
    }
  }

  lemma {:induction false} ReplacingLosesRecords(segments: seq<Segment>, timestamp: U64)
    requires WholeSegments(segments)
    ensures |SealedRecords(WithoutTimestamp(segments, timestamp))| <= |SealedRecords(segments)|
    ensures TimestampUsed(segments, timestamp) ==>
              |SealedRecords(WithoutTimestamp(segments, timestamp))| < |SealedRecords(segments)|
    decreases |segments|
  {
    if segments != [] {
      var init, last := segments[..|segments| - 1], segments[|segments| - 1];
      assert segments == init + [last];
      ReplacingLosesRecords(init, timestamp);
      EntriesAreRecords(last.lines);
      SealedOfAppend(WithoutTimestamp(init, timestamp), last);
      if last.timestamp == timestamp {
        assert WithoutTimestamp(segments, timestamp) == WithoutTimestamp(init, timestamp);
      } else if TimestampUsed(segments, timestamp) {
        var g :| g in segments && g.timestamp == timestamp;
        assert g in init;
      }
    }
  }

  lemma SealedOfAppend(segments: seq<Segment>, g: Segment)
    ensures SealedRecords(segments + [g]) == SealedRecords(segments) + Records(g.lines)
  {
    assert (segments + [g])[..|segments|] == segments;
  }

  lemma Regroup(a: seq<Record>, b: seq<Record>, c: seq<Record>)
    ensures (a + b) + c == a + (b + c) && b + [] == b && [] + b == b
  {
  }

  /** Rotation moves the current records behind the sealed ones. */
  lemma RotationOfAll(s: Store, i: Input)
    requires WholeSegments(s.sealed) && Rotates(s, i)
    ensures All(Rotated(s, i)) == SealedRecords(WithoutTimestamp(s.sealed, i.timestamp)) + Records(Lines(s.current))
    ensures !TimestampUsed(s.sealed, i.timestamp) ==> All(Rotated(s, i)) == All(s)
    ensures TimestampUsed(s.sealed, i.timestamp) ==> |All(Rotated(s, i))| < |All(s)|
  {
    var others := WithoutTimestamp(s.sealed, i.timestamp);
    SealedOfAppend(others, Segment(i.timestamp, s.current.value.lines));
    WithoutUnused(s.sealed, i.timestamp);
    ReplacingLosesRecords(s.sealed, i.timestamp);
  }

  /** A record written after the last one of a continuous store. */
  lemma WriteOfAll(s: Store, r: Record)
    requires s.current.Some? ==> s.current.value.terminated
    ensures All(WithRecord(s, r)) == All(s) + [r]
  {
    RecordsOfAppend(Lines(s.current), Entry(r));
    Regroup(SealedRecords(s.sealed), Records(Lines(s.current)), [r]);
  }

  lemma LastHashOfWrite(file: Option<File>, r: Record)
    requires file.Some? ==> file.value.terminated
    ensures LastHash(Written(file, Entry(r), true).lines) == Read(Some(r.current))
  {
  }

  lemma SameBeforeLast(a: seq<Record>, b: seq<Record>, r: Record)
    requires a + [r] == b + [r]
    ensures a == b
  {
    assert a == (a + [r])[..|a|] && b == (b + [r])[..|b|];
  }

  /** Only the records of `all` itself make, with the record that follows them, a chain from null again. */
  lemma OnlyOwnRecordsContinue(digest: Digest, others: seq<Record>, all: seq<Record>, r: Record)
    requires Injective(digest) && Chain(digest, all) && FromNull(all)
    requires r.current == digest(r.content) && r.content.previous == LastCurrent(all)
    ensures Chain(digest, all + [r]) && FromNull(all + [r])
    ensures Chain(digest, others + [r]) && FromNull(others + [r]) ==> others == all
  {
    ChainOfAppend(digest, all, r);
    if Chain(digest, others + [r]) && FromNull(others + [r]) {
      LastHashDeterminesAll(digest, others + [r], all + [r]);
      SameBeforeLast(others, all, r);
    }
  }

  /** Writing a record whose previous hash is the last one of a chain from null keeps exactly chains from null. */
  lemma WriteContinues(digest: Digest, s: Store, all: seq<Record>, r: Record)
    requires Sound(digest, s) && Injective(digest)
    requires Chain(digest, all) && FromNull(all) && r.current == digest(r.content) && r.content.previous == LastCurrent(all)
    requires Lines(s.current) != [] ==> LastHash(Lines(s.current)) == Read(LastCurrent(all))
    ensures Continuous(digest, WithRecord(s, r)) <==> All(s) == all
  {
    WriteOfAll(s, r);
    LastHashOfWrite(s.current, r);
    WriteKeepsSound(digest, s, r);
    OnlyOwnRecordsContinue(digest, All(s), all, r);
  }

  /** Stores with the same files form the same chain. */
  lemma SameFilesContinue(digest: Digest, a: Store, b: Store)
    requires a.sealed == b.sealed && Lines(a.current) == Lines(b.current)
    requires a.current.Some? ==> a.current.value.terminated
    requires Continuous(digest, b)
    ensures Continuous(digest, a)
  {
    assert All(a) == All(b);
  }

  /** With records sealed and none in the current file, the next append cannot link to them. */
  lemma NothingToLinkTo(digest: Digest, s: Store)
    requires Lines(s.current) == [] && All(s) != []
    ensures !Continuous(digest, s)
  {
  }

  lemma RotationSeals(digest: Digest, s: Store, i: Input)
    requires Sound(digest, s) && Rotates(s, i)
    ensures Lines(Rotated(s, i).current) == [] && All(Rotated(s, i)) != []
    ensures All(Rotated(s, i)) == All(s) <==> !TimestampUsed(s.sealed, i.timestamp)
  {
    RotationOfAll(s, i);
    EntriesAreRecords(Lines(s.current));
  }

  lemma UnwrittenAppendContinues(digest: Digest, s: Store, i: Input, f: Fault)
    requires Continuous(digest, s) && (f.AfterRename? || f.NothingWritten?)
    ensures Continuous(digest, AuditLog.Append(digest, s, i, f).store) <==> !Rotates(s, i)
  {
    SoundIsReadable(digest, s);
    var after := AuditLog.Append(digest, s, i, f).store;
    if Rotates(s, i) {
      RotationSeals(digest, s, i);
      assert All(after) == All(Rotated(s, i));
      NothingToLinkTo(digest, after);
    } else {
      SameFilesContinue(digest, after, s);
    }
  }

  lemma WrittenAppendContinues(digest: Digest, s: Store, i: Input, f: Fault)
    requires Continuous(digest, s) && Injective(digest)
    requires Writes(s, i, f) && !f.TornRecord? && !f.NoLineFeed?
    ensures Continuous(digest, AuditLog.Append(digest, s, i, f).store) <==> All(Rotated(s, i)) == All(s)
  {
    SoundIsReadable(digest, s);
    RotationKeepsSound(digest, s, i);
    var after := AuditLog.Append(digest, s, i, f).store;
    var written := WithRecord(Rotated(s, i), NewRecord(digest, i, LastCurrent(All(s))));
    WriteContinues(digest, Rotated(s, i), All(s), NewRecord(digest, i, LastCurrent(All(s))));
    FilesOfAppend(digest, s, i, f);
    assert after.sealed == written.sealed && after.current == written.current;
    if Continuous(digest, written) {
      SameFilesContinue(digest, after, written);
    }
    if Continuous(digest, after) {
      SameFilesContinue(digest, written, after);
    }
  }

  /** An append keeps the one chain exactly if it does not gap and is not cut off in a line. */
  lemma AppendContinuesExactly(digest: Digest, s: Store, i: Input, f: Fault)
    requires Continuous(digest, s) && Injective(digest)
    ensures Continuous(digest, AuditLog.Append(digest, s, i, f).store)
       <==> !Gaps(s, i, f) && !f.TornRecord? && !f.NoLineFeed?
  {
    SoundIsReadable(digest, s);
    if f.TornRecord? || f.NoLineFeed? {
      TearingLeavesUnsound(digest, s, i, f);
    } else if Stops(s, i, f) {
      assert AuditLog.Append(digest, s, i, f).store == s;
    } else if f.AfterRename? || f.NothingWritten? {
      UnwrittenAppendContinues(digest, s, i, f);
    } else {
      WrittenAppendContinues(digest, s, i, f);
      if Rotates(s, i) {
        RotationSeals(digest, s, i);
      }
    }
  }

  predicate NeverGaps(digest: Digest, s: Store, events: seq<Event>)
    decreases |events|
  {
    events == []
    || ((events[0].Append? ==> !Gaps(s, events[0].input, events[0].fault))
        && NeverGaps(digest, Step(digest, s, events[0]), events[1..]))
  }

  predicate AlwaysContinuous(digest: Digest, s: Store, events: seq<Event>)
    decreases |events|
  {
    Continuous(digest, s) && (events == [] || AlwaysContinuous(digest, Step(digest, s, events[0]), events[1..]))
  }

  /** Over a whole run the segments and the current file stay one chain from null exactly if no append
      fails after its rename or is cut off in a line and no rotation reuses a timestamp. */
  lemma {:induction false} OneChainExactly(digest: Digest, s: Store, events: seq<Event>)
    requires Continuous(digest, s) && Injective(digest)
    ensures AlwaysContinuous(digest, s, events) <==> NeverGaps(digest, s, events) && WholeLines(events)
    decreases |events|
  {
    if events != [] {
      assert events == [events[0]] + events[1..];
      var next := Step(digest, s, events[0]);
      match events[0] {
        case Append(i, f) => AppendContinuesExactly(digest, s, i, f);
        case _ => assert All(next) == All(s);
      }
      if Continuous(digest, next) {
        OneChainExactly(digest, next, events[1..]);
      }
    }
  }

  /** After an append that failed behind its rename, the next record written does not link to the sealed ones. */
  lemma FailedRotationBreaksTheChain(digest: Digest, s: Store, i: Input, next: Input)
    requires Continuous(digest, s) && Rotates(s, i)
    ensures var gap := AuditLog.Append(digest, s, i, AfterRename).store;
            var after := AuditLog.Append(digest, gap, next, Clean).store;
            AuditLog.Append(digest, gap, next, Clean).ok && !Chain(digest, All(after))
  {
    GapLeavesNoLastHash(digest, s, i);
    FreshFileBreaksTheChain(digest, AuditLog.Append(digest, s, i, AfterRename).store, next);
  }

  lemma FreshFileBreaksTheChain(digest: Digest, gap: Store, next: Input)
    requires gap.current.None? && All(gap) != []
    ensures var after := AuditLog.Append(digest, gap, next, Clean);
            after.ok && !Chain(digest, All(after.store))
  {
    var r := NewRecord(digest, next, None);
    var after := AuditLog.Append(digest, gap, next, Clean).store;
    FilesOfAppend(digest, gap, next, Clean);
    assert All(after) == All(WithRecord(gap, r));
    WriteOfAll(gap, r);
    ChainOfAppend(digest, All(gap), r);
  }

  lemma GapLeavesNoLastHash(digest: Digest, s: Store, i: Input)
    requires Continuous(digest, s) && Rotates(s, i)
    ensures var gap := AuditLog.Append(digest, s, i, AfterRename).store;
            gap.current.None? && All(gap) != [] && Sound(digest, gap)
  {
    SoundIsReadable(digest, s);
    RotationOfAll(s, i);
    EntriesAreRecords(Lines(s.current));
    RotationKeepsSound(digest, s, i);
  }

  /** A log that starts empty is one chain from null, and so stays whenever no append gaps. */
  lemma LogFormsOneChain(digest: Digest, events: seq<Event>)
    requires Injective(digest) && WholeLines(events) && NeverGaps(digest, EMPTY, events)
    ensures Continuous(digest, Run(digest, EMPTY, events))
  {
    OneChainExactly(digest, EMPTY, events);
    EndsContinuous(digest, EMPTY, events);
  }

  lemma {:induction false} EndsContinuous(digest: Digest, s: Store, events: seq<Event>)
    requires AlwaysContinuous(digest, s, events)
    ensures Continuous(digest, Run(digest, s, events))
    decreases |events|
  {
    if events != [] {
      EndsContinuous(digest, Step(digest, s, events[0]), events[1..]);
    }
  }

  lemma CutRecord(digest: Digest, s: Store, i: Input, r: Record)
    requires LastHash(Lines(s.current)).Read? && (s.current.Some? ==> s.current.value.terminated)
    requires r == NewRecord(digest, i, LastHash(Lines(s.current)).lastHash)
    ensures AuditLog.Append(digest, s, i, NoLineFeed).store.current
         == Some(File(Lines(Rotated(s, i).current) + [Entry(r)], false))
  {
  }

  lemma AppendToCut(digest: Digest, cut: Store, lines: seq<Line>, r: Record, next: Input)
    requires cut.current == Some(File(lines + [Entry(r)], false)) && !next.full
    ensures var after := AuditLog.Append(digest, cut, next, Clean);
            after.ok && Lines(after.store.current) == lines + [NotJson]
  {
    assert (lines + [Entry(r)])[..|lines|] == lines;
  }

  lemma EndsUnreadable(digest: Digest, lines: seq<Line>)
    ensures LastHash(lines + [NotJson]).Failed? && !Intact(digest, lines + [NotJson])
  {
    assert (lines + [NotJson])[|lines|] == NotJson;
    assert NotJson in lines + [NotJson];
  }

  /** A record written without its line feed still verifies, but the next append, which reports success,
      makes one unreadable line of both: the file no longer verifies and can never be appended to again. */
  lemma MissingLineFeedRuinsTheNext(digest: Digest, s: Store, i: Input, next: Input)
    requires Sound(digest, s) && !next.full
    ensures var cut := AuditLog.Append(digest, s, i, NoLineFeed).store;
            var after := AuditLog.Append(digest, cut, next, Clean);
            && Intact(digest, Lines(cut.current))
            && after.ok && !Intact(digest, Lines(after.store.current)) && LastHash(Lines(after.store.current)).Failed?
  {
    SoundIsReadable(digest, s);
    RotationKeepsSound(digest, s, i);
    var lines := Lines(Rotated(s, i).current);
    var r := NewRecord(digest, i, LastHash(Lines(s.current)).lastHash);
    WriteKeepsSound(digest, Rotated(s, i), r);
    CutRecord(digest, s, i, r);
    AppendToCut(digest, AuditLog.Append(digest, s, i, NoLineFeed).store, lines, r, next);
    EndsUnreadable(digest, lines);
  }
}
