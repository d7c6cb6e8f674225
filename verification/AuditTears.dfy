/** Appends cut off in the middle of a line: exactly when the log's files stay whole. */
module AuditTears {
  import opened Wrappers
  import opened AuditChain
  import opened AuditLog
  import opened AuditLaws

  // ---------------------------------------------------------------- sound stores

  /** An append keeps every file whole, intact and terminated exactly if it is not cut off in a line. */
  lemma AppendSoundExactly(digest: Digest, s: Store, i: Input, f: Fault)
    requires Sound(digest, s)
    ensures Sound(digest, AuditLog.Append(digest, s, i, f).store) <==> !f.TornRecord? && !f.NoLineFeed?
  {
    SoundIsReadable(digest, s);
    if f.TornRecord? || f.NoLineFeed? {
      TearingLeavesUnsound(digest, s, i, f);
    } else {
      AppendKeepsSound(digest, s, i, f);
    }
  }

  predicate AlwaysSound(digest: Digest, s: Store, events: seq<Event>)
    decreases |events|
  {
    Sound(digest, s) && (events == [] || AlwaysSound(digest, Step(digest, s, events[0]), events[1..]))
  }

  /** Over whole runs: every file stays whole exactly if no append is cut off in a line. */
  lemma {:induction false} SoundExactly(digest: Digest, s: Store, events: seq<Event>)
    requires Sound(digest, s)
    ensures AlwaysSound(digest, s, events) <==> WholeLines(events)
    decreases |events|
  {
    if events != [] {
      var e, rest := events[0], events[1..];
      var next := Step(digest, s, e);
      assert events == [e] + rest;
      match e {
        case Append(i, f) => AppendSoundExactly(digest, s, i, f);
        case _ =>
      }
      if Sound(digest, next) {
        SoundExactly(digest, next, rest);
      }
    }
  }

  // ---------------------------------------------------------------- the current file

  /** All files are intact; the current one may lack its last line feed. */
  predicate Tidy(digest: Digest, s: Store) {
    AllEntries(Lines(s.current)) && Intact(digest, Lines(s.current))
  }

  /** The current file ends in a record without line feed. */
  predicate LacksLineFeed(s: Store) {
    s.current.Some? && !s.current.value.terminated && s.current.value.lines != []
  }

  /** The append writes only part of its record, or onto a line that lacks its line feed. */
  predicate Ruins(s: Store, i: Input, f: Fault) {
    Writes(s, i, f) && (f.TornRecord? || (LacksLineFeed(s) && !Rotates(s, i)))
  }

  lemma TidyIsReadable(digest: Digest, s: Store)
    requires Tidy(digest, s)
    ensures LastHash(Lines(s.current)).Read?
  {
    EntriesAreRecords(Lines(s.current));
  }

  lemma RuinEndsUnreadably(digest: Digest, s: Store, i: Input, f: Fault)
    requires Ruins(s, i, f)
    ensures EndsUnreadably(AuditLog.Append(digest, s, i, f).store)
  {
  }

  lemma UnreadableIsNotIntact(digest: Digest, s: Store)
    requires EndsUnreadably(s)
    ensures !Intact(digest, Lines(s.current)) && LastHash(Lines(s.current)).Failed?
  {
    var lines := Lines(s.current);
    assert lines[|lines| - 1] in lines;
  }

  /** Otherwise the file is left alone, started afresh, or gains the whole record. */
  lemma OtherAppends(digest: Digest, s: Store, i: Input, f: Fault)
    requires LastHash(Lines(s.current)).Read? && !Ruins(s, i, f)
    ensures var after := Lines(AuditLog.Append(digest, s, i, f).store.current);
            var r := NewRecord(digest, i, LastHash(Lines(s.current)).lastHash);
            || after == Lines(s.current) || after == Lines(Rotated(s, i).current)
            || after == Lines(Rotated(s, i).current) + [Entry(r)]
  {
  }

  /** An append leaves the current file intact exactly if it does not ruin its last line. */
  lemma AppendIntactExactly(digest: Digest, s: Store, i: Input, f: Fault)
    requires Tidy(digest, s)
    ensures var after := AuditLog.Append(digest, s, i, f).store;
            && (Intact(digest, Lines(after.current)) <==> !Ruins(s, i, f))
            && (if Ruins(s, i, f) then EndsUnreadably(after) else Tidy(digest, after))
  {
    TidyIsReadable(digest, s);
    if Ruins(s, i, f) {
      RuinEndsUnreadably(digest, s, i, f);
      UnreadableIsNotIntact(digest, AuditLog.Append(digest, s, i, f).store);
    } else {
      OtherAppendsAreTidy(digest, s, i, f);
    }
  }

  lemma OtherAppendsAreTidy(digest: Digest, s: Store, i: Input, f: Fault)
    requires Tidy(digest, s) && LastHash(Lines(s.current)).Read? && !Ruins(s, i, f)
    ensures Tidy(digest, AuditLog.Append(digest, s, i, f).store)
  {
    OtherAppends(digest, s, i, f);
    var lines := Lines(Rotated(s, i).current);
    var r := NewRecord(digest, i, LastHash(Lines(s.current)).lastHash);
    assert lines == Lines(s.current) || lines == [];
    WriteKeepsIntact(digest, lines, r);
  }

  predicate NeverRuins(digest: Digest, s: Store, events: seq<Event>)
    decreases |events|
  {
    events == []
    || ((events[0].Append? ==> !Ruins(s, events[0].input, events[0].fault))
        && NeverRuins(digest, Step(digest, s, events[0]), events[1..]))
  }

  /** Over whole runs: the current file verifies, and can be appended to, exactly if no append of the run
      ruined a line; after one that did neither is ever true again. */
  lemma {:induction false} IntactExactly(digest: Digest, s: Store, events: seq<Event>)
    requires Tidy(digest, s)
    ensures var lines := Lines(Run(digest, s, events).current);
            && (Intact(digest, lines) <==> NeverRuins(digest, s, events))
            && (LastHash(lines).Read? <==> NeverRuins(digest, s, events))
    decreases |events|
  {
    if events == [] {
      TidyIsReadable(digest, s);
    } else {
      var e, rest := events[0], events[1..];
      var next := Step(digest, s, e);
      if e.Append? {
        AppendIntactExactly(digest, s, e.input, e.fault);
      }
      if EndsUnreadably(next) {
        UnreadableLineWedges(digest, next, rest);
        UnreadableIsNotIntact(digest, Run(digest, next, rest));
        UnreadableIsNotIntact(digest, next);
      } else {
        IntactExactly(digest, next, rest);
      }
    }
  }

  // ---------------------------------------------------------------- the sealed segments

  predicate SegmentsVerify(digest: Digest, s: Store) {
    forall g <- s.sealed :: Intact(digest, g.lines)
  }

  predicate TidyOrUnreadable(digest: Digest, s: Store) {
    Tidy(digest, s) || EndsUnreadably(s)
  }

  lemma AppendSealsVerified(digest: Digest, s: Store, i: Input, f: Fault)
    requires SegmentsVerify(digest, s) && TidyOrUnreadable(digest, s)
    ensures SegmentsVerify(digest, AuditLog.Append(digest, s, i, f).store)
    ensures TidyOrUnreadable(digest, AuditLog.Append(digest, s, i, f).store)
  {
    FilesOfAppend(digest, s, i, f);
    if EndsUnreadably(s) {
      UnreadableIsNotIntact(digest, s);
    } else {
      AppendIntactExactly(digest, s, i, f);
      WithoutTimestampKeeps(s.sealed, i.timestamp);
    }
  }

  /** Sealed segments verify after every run, lines cut off included: a ruined file is never rotated. */
  lemma {:induction false} SegmentsAlwaysVerify(digest: Digest, s: Store, events: seq<Event>)
    requires SegmentsVerify(digest, s) && TidyOrUnreadable(digest, s)
    ensures SegmentsVerify(digest, Run(digest, s, events)) && TidyOrUnreadable(digest, Run(digest, s, events))
    decreases |events|
  {
    if events != [] {
      var e := events[0];
      if e.Append? {
        AppendSealsVerified(digest, s, e.input, e.fault);
      }
      SegmentsAlwaysVerify(digest, Step(digest, s, e), events[1..]);
    }
  }
}
