/** What the audit log's files keep of the records written to them, over runs with every kind of failed write. */
module AuditRecords {
  import opened Wrappers
  import opened AuditChain
  import opened AuditLog
  import opened AuditLaws
  import opened AuditTears

  /** The record an append writes out in full, with or without its line feed. */
  function WroteBy(digest: Digest, s: Store, e: Event): seq<Record> {
    if e.Append? && Writes(s, e.input, e.fault) && !e.fault.TornRecord?
    then [NewRecord(digest, e.input, LastHash(Lines(s.current)).lastHash)]
    else []
  }

  function Wrote(digest: Digest, s: Store, events: seq<Event>): seq<Record>
    decreases |events|
  {
    if events == [] then []
    else WroteBy(digest, s, events[0]) + Wrote(digest, Step(digest, s, events[0]), events[1..])
  }

  /** The segments hold whole records, and so does the current file unless its last line is unreadable. */
  predicate Filed(s: Store) {
    WholeSegments(s.sealed) && (AllEntries(Lines(s.current)) || EndsUnreadably(s))
  }

  /** The append's rotation replaces a sealed segment, or what it writes joins a record that lacks its line feed. */
  predicate Loses(s: Store, i: Input, f: Fault) {
    || (!Stops(s, i, f) && Rotates(s, i) && TimestampUsed(s.sealed, i.timestamp))
    || (Writes(s, i, f) && LacksLineFeed(s) && !Rotates(s, i))
  }

  // ---------------------------------------------------------------- one append

  lemma WriteAdds(file: Option<File>, line: Line, terminated: bool)
    requires file.Some? && !file.value.terminated ==> file.value.lines == []
    ensures Records(Written(file, line, terminated).lines)
         == Records(Lines(file)) + if line.Entry? then [line.record] else []
  {
    RecordsOfAppend(Lines(file), line);
  }

  lemma WriteJoins(s: Store, line: Line, terminated: bool)
    requires LacksLineFeed(s) && AllEntries(Lines(s.current))
    ensures |Records(Written(s.current, line, terminated).lines)| == |Records(Lines(s.current))| - 1
  {
    var lines := Lines(s.current);
    var init := lines[..|lines| - 1];
    assert lines == init + [lines[|lines| - 1]];
    RecordsOfAppend(init, lines[|lines| - 1]);
    RecordsOfAppend(init, NotJson);
    assert Records(init) + [] == Records(init);
  }

  lemma WrittenIsFiled(file: Option<File>, line: Line, terminated: bool)
    requires AllEntries(Lines(file)) && (line.Entry? || line.NotJson?)
    ensures var lines := Written(file, line, terminated).lines;
            AllEntries(lines) || (lines != [] && lines[|lines| - 1].NotJson?)
  {
  }

  lemma RotationIsFiled(s: Store, i: Input)
    requires WholeSegments(s.sealed) && AllEntries(Lines(s.current))
    ensures WholeSegments(Rotated(s, i).sealed) && AllEntries(Lines(Rotated(s, i).current))
  {
    WithoutTimestampKeeps(s.sealed, i.timestamp);
  }

  lemma UnreadableStops(s: Store, i: Input, f: Fault)
    requires EndsUnreadably(s)
    ensures Stops(s, i, f)
  {
  }

  lemma AppendIsFiled(digest: Digest, s: Store, i: Input, f: Fault)
    requires Filed(s)
    ensures Filed(AuditLog.Append(digest, s, i, f).store)
  {
    FilesOfAppend(digest, s, i, f);
    if !Stops(s, i, f) {
      if EndsUnreadably(s) {
        UnreadableStops(s, i, f);
      }
      RotationIsFiled(s, i);
      var r := NewRecord(digest, i, LastHash(Lines(s.current)).lastHash);
      WrittenIsFiled(Rotated(s, i).current, if f.TornRecord? then NotJson else Entry(r),
                     !f.TornRecord? && !f.NoLineFeed?);
    }
  }

  lemma SameFilesSameRecords(a: Store, b: Store)
    requires a.sealed == b.sealed && Lines(a.current) == Lines(b.current)
    ensures All(a) == All(b)
  {
  }

  /** Rotating keeps all records exactly if it replaces no segment. */
  lemma RotationKeepsRecords(s: Store, i: Input)
    requires WholeSegments(s.sealed)
    ensures if Rotates(s, i) && TimestampUsed(s.sealed, i.timestamp) then |All(Rotated(s, i))| < |All(s)|
            else All(Rotated(s, i)) == All(s)
  {
    if Rotates(s, i) {
      RotationOfAll(s, i);
    }
  }

  /** Writing onto a line that lacks its line feed loses that line's record and the new one. */
  lemma WriteOntoCutLine(rotated: Store, after: Store, line: Line, terminated: bool)
    requires LacksLineFeed(rotated) && AllEntries(Lines(rotated.current))
    requires after.sealed == rotated.sealed && after.current == Some(Written(rotated.current, line, terminated))
    ensures |All(after)| < |All(rotated)|
  {
    WriteJoins(rotated, line, terminated);
  }

  lemma WriteOnOwnLine(rotated: Store, after: Store, line: Line, terminated: bool)
    requires !LacksLineFeed(rotated)
    requires after.sealed == rotated.sealed && after.current == Some(Written(rotated.current, line, terminated))
    ensures All(after) == All(rotated) + if line.Entry? then [line.record] else []
  {
    WriteAdds(rotated.current, line, terminated);
    Regroup(SealedRecords(rotated.sealed), Records(Lines(rotated.current)), if line.Entry? then [line.record] else []);
  }

  lemma WriteKeepsExactly(rotated: Store, after: Store, line: Line, terminated: bool)
    requires AllEntries(Lines(rotated.current))
    requires after.sealed == rotated.sealed && after.current == Some(Written(rotated.current, line, terminated))
    ensures if LacksLineFeed(rotated) then |All(after)| < |All(rotated)|
            else All(after) == All(rotated) + if line.Entry? then [line.record] else []
  {
    if LacksLineFeed(rotated) {
      WriteOntoCutLine(rotated, after, line, terminated);
    } else {
      WriteOnOwnLine(rotated, after, line, terminated);
    }
  }

  /** An append keeps all the records, its own included, exactly if it is not a losing one. */
  lemma AppendOfAll(digest: Digest, s: Store, i: Input, f: Fault)
    requires Filed(s)
    ensures var after := AuditLog.Append(digest, s, i, f).store;
            var wrote := WroteBy(digest, s, Append(i, f));
            if Loses(s, i, f) then |All(after)| < |All(s)| + |wrote| else All(after) == All(s) + wrote
  {
    var after, rotated := AuditLog.Append(digest, s, i, f).store, Rotated(s, i);
    FilesOfAppend(digest, s, i, f);
    Regroup([], All(s), []);
    if Stops(s, i, f) {
      SameFilesSameRecords(after, s);
    } else {
      RotationKeepsRecords(s, i);
      if Writes(s, i, f) {
        WritingAppend(digest, s, i, f);
      } else {
        SameFilesSameRecords(after, rotated);
      }
    }
  }

  lemma WritingAppend(digest: Digest, s: Store, i: Input, f: Fault)
    requires Filed(s) && Writes(s, i, f)
    ensures var after, rotated := AuditLog.Append(digest, s, i, f).store, Rotated(s, i);
            if LacksLineFeed(s) && !Rotates(s, i) then |All(after)| < |All(rotated)|
            else All(after) == All(rotated) + WroteBy(digest, s, Append(i, f))
  {
    var after, rotated := AuditLog.Append(digest, s, i, f).store, Rotated(s, i);
    FilesOfAppend(digest, s, i, f);
    if EndsUnreadably(s) {
      UnreadableStops(s, i, f);
    }
    var line := if f.TornRecord? then NotJson else Entry(NewRecord(digest, i, LastHash(Lines(s.current)).lastHash));
    WriteKeepsExactly(rotated, after, line, !f.TornRecord? && !f.NoLineFeed?);
  }

  // ---------------------------------------------------------------- whole runs

  predicate NeverLoses(digest: Digest, s: Store, events: seq<Event>)
    decreases |events|
  {
    events == []
    || ((events[0].Append? ==> !Loses(s, events[0].input, events[0].fault))
        && NeverLoses(digest, Step(digest, s, events[0]), events[1..]))
  }

  lemma StepOfAll(digest: Digest, s: Store, e: Event)
    requires Filed(s)
    ensures Filed(Step(digest, s, e))
    ensures var after := All(Step(digest, s, e));
            if e.Append? && Loses(s, e.input, e.fault) then |after| < |All(s)| + |WroteBy(digest, s, e)|
            else after == All(s) + WroteBy(digest, s, e)
  {
    if e.Append? {
      AppendIsFiled(digest, s, e.input, e.fault);
      AppendOfAll(digest, s, e.input, e.fault);
    } else {
      SameFilesSameRecords(Step(digest, s, e), s);
      Regroup([], All(s), []);
    }
  }

  lemma {:induction false} NothingIsInvented(digest: Digest, s: Store, events: seq<Event>)
    requires Filed(s)
    ensures |All(Run(digest, s, events))| <= |All(s)| + |Wrote(digest, s, events)|
    decreases |events|
  {
    if events != [] {
      StepOfAll(digest, s, events[0]);
      NothingIsInvented(digest, Step(digest, s, events[0]), events[1..]);
    }
  }

  /** Over whole runs, whatever fails in them: the files hold all they held and every record written, in
      order, exactly if no append of the run was a losing one. */
  lemma {:induction false} NothingIsLostExactly(digest: Digest, s: Store, events: seq<Event>)
    requires Filed(s)
    ensures All(Run(digest, s, events)) == All(s) + Wrote(digest, s, events) <==> NeverLoses(digest, s, events)
    decreases |events|
  {
    if events == [] {
      Regroup([], All(s), []);
    } else {
      var e, rest := events[0], events[1..];
      var next := Step(digest, s, e);
      StepOfAll(digest, s, e);
      if e.Append? && Loses(s, e.input, e.fault) {
        NothingIsInvented(digest, next, rest);
      } else {
        NothingIsLostExactly(digest, next, rest);
        RestExactly(All(s), WroteBy(digest, s, e), Wrote(digest, next, rest), All(Run(digest, next, rest)));
      }
    }
  }

  lemma RestExactly(a: seq<Record>, b: seq<Record>, c: seq<Record>, all: seq<Record>)
    ensures all == (a + b) + c <==> all == a + (b + c)
  {
    Regroup(a, b, c);
  }

  lemma OfTwo(digest: Digest, s: Store, a: Event, b: Event)
    ensures Run(digest, s, [a, b]) == Step(digest, Step(digest, s, a), b)
    ensures Wrote(digest, s, [a, b]) == WroteBy(digest, s, a) + WroteBy(digest, Step(digest, s, a), b)
  {
    var events := [a, b];
    assert events[1..] == [b] && [b][1..] == [];
    assert Run(digest, Step(digest, s, a), [b]) == Step(digest, Step(digest, s, a), b);
    assert Wrote(digest, Step(digest, s, a), [b]) == WroteBy(digest, Step(digest, s, a), b) + [];
  }

  lemma CutLineIsJoined(digest: Digest, s: Store, i: Input, next: Input)
    requires Sound(digest, s) && !i.full && !next.full
    ensures var cut := AuditLog.Append(digest, s, i, NoLineFeed).store;
            var after := AuditLog.Append(digest, cut, next, Clean);
            && after.ok && Writes(s, i, NoLineFeed) && Writes(cut, next, Clean)
            && after.store.sealed == s.sealed && Lines(after.store.current) == Lines(s.current) + [NotJson]
  {
    SoundIsReadable(digest, s);
    var r := NewRecord(digest, i, LastHash(Lines(s.current)).lastHash);
    CutRecord(digest, s, i, r);
    AppendToCut(digest, AuditLog.Append(digest, s, i, NoLineFeed).store, Lines(s.current), r, next);
  }

  lemma UnreadableHoldsNoRecord(s: Store, after: Store)
    requires after.sealed == s.sealed && Lines(after.current) == Lines(s.current) + [NotJson]
    ensures All(after) == All(s)
  {
    RecordsOfAppend(Lines(s.current), NotJson);
    Regroup([], Records(Lines(s.current)), []);
  }

  /** A record without its line feed and the next one, whose append reports success, stand in no file. */
  lemma CutLineLosesBoth(digest: Digest, s: Store, i: Input, next: Input)
    requires Sound(digest, s) && !i.full && !next.full
    ensures var events := [Append(i, NoLineFeed), Append(next, Clean)];
            && AuditLog.Append(digest, Step(digest, s, events[0]), next, Clean).ok
            && |Wrote(digest, s, events)| == 2
            && All(Run(digest, s, events)) == All(s)
  {
    CutLineIsJoined(digest, s, i, next);
    OfTwo(digest, s, Append(i, NoLineFeed), Append(next, Clean));
    var cut := AuditLog.Append(digest, s, i, NoLineFeed).store;
    UnreadableHoldsNoRecord(s, AuditLog.Append(digest, cut, next, Clean).store);
  }
}
