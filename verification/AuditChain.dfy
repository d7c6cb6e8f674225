/** The hash chain of an audit log file: reading it, verifying it, and what a verified chain proves. */
module AuditChain {
  import opened Wrappers

  type Hash = string

  /** What a record's hash covers. `body` is the canonical text of all the fields not named here. */
  datatype Content = Content(id: string, body: string, previous: Option<Hash>)

  datatype Record = Record(content: Content, current: Hash)

  /** One line of a log file. Other JSON may carry a string `currentHash` or not. */
  datatype Line = Blank | NotJson | OtherJson(currentHash: Option<Hash>) | Entry(record: Record)

  type Digest = Content -> Hash

  ghost predicate Injective(digest: Digest) {
    forall x, y :: digest(x) == digest(y) ==> x == y
  }

  function Sealed(digest: Digest, c: Content): Record {
    Record(c, digest(c))
  }

  // ---------------------------------------------------------------- chains

  predicate Chain(digest: Digest, rs: seq<Record>) {
    && (forall i | 0 <= i < |rs| :: rs[i].current == digest(rs[i].content))
    && (forall i, j | 0 <= i < |rs| && 0 <= j < |rs| && j == i + 1 :: rs[j].content.previous == Some(rs[i].current))
  }

  predicate FromNull(rs: seq<Record>) {
    rs != [] ==> rs[0].content.previous == None
  }

  function LastCurrent(rs: seq<Record>): Option<Hash> {
    if rs == [] then None else Some(rs[|rs| - 1].current)
  }

  predicate Readable(l: Line) {
    l.Blank? || l.Entry?
  }

  function Records(lines: seq<Line>): seq<Record> {
    if lines == [] then []
    else
      var last := lines[|lines| - 1];
      Records(lines[..|lines| - 1]) + if last.Entry? then [last.record] else []
  }

  predicate Intact(digest: Digest, lines: seq<Line>) {
    (forall l <- lines :: Readable(l)) && Chain(digest, Records(lines))
  }

  lemma RecordsOfAppend(lines: seq<Line>, l: Line)
    ensures Records(lines + [l]) == Records(lines) + if l.Entry? then [l.record] else []
  {
    assert (lines + [l])[..|lines|] == lines;
  }

  lemma ChainOfAppend(digest: Digest, rs: seq<Record>, r: Record)
    ensures Chain(digest, rs + [r]) <==>
              && Chain(digest, rs) && r.current == digest(r.content)
              && (rs != [] ==> r.content.previous == LastCurrent(rs))
  {
    var all := rs + [r];
    if Chain(digest, all) {
      assert forall i | 0 <= i < |rs| :: all[i] == rs[i];
      assert all[|rs|] == r;
    }
  }

  lemma {:induction false} ChainPrefix(digest: Digest, lines: seq<Line>, k: nat)
    requires k <= |lines| && Intact(digest, lines)
    ensures Intact(digest, lines[..k])
    decreases |lines| - k
  {
    if k == |lines| {
      assert lines[..k] == lines;
    } else {
      var init := lines[..|lines| - 1];
      assert lines == init + [lines[|lines| - 1]];
      RecordsOfAppend(init, lines[|lines| - 1]);
      if lines[|lines| - 1].Entry? {
        ChainOfAppend(digest, Records(init), lines[|lines| - 1].record);
      } else {
        assert Records(init) + [] == Records(init);
      }
      ChainPrefix(digest, init, k);
      assert init[..k] == lines[..k];
    }
  }

  // ---------------------------------------------------------------- verification

  datatype Verdict =
    | Unreadable
    | Verdict(valid: bool, eventCount: nat, brokenAt: Option<string>, lastHash: Option<Hash>)

  /** The record of line k is the first that does not fit: everything before it is a valid chain. */
  ghost predicate FirstBadRecord(digest: Digest, lines: seq<Line>, k: nat, v: Verdict)
    requires v.Verdict?
  {
    && k < |lines| && lines[k].Entry?
    && Intact(digest, lines[..k]) && !Intact(digest, lines[..k + 1])
    && v.brokenAt == Some(lines[k].record.content.id)
    && v.eventCount == |Records(lines[..k])| + 1
    && v.lastHash == LastCurrent(Records(lines[..k]))
  }

  method VerifyChain(digest: Digest, lines: seq<Line>) returns (v: Verdict)
    ensures v.Unreadable? ==> exists k: nat | k < |lines| :: !Readable(lines[k]) && Intact(digest, lines[..k])
    ensures v.Verdict? && v.valid ==>
              v.eventCount == |Records(lines)| && v.brokenAt.None? && v.lastHash == LastCurrent(Records(lines))
    ensures v.Verdict? && !v.valid ==> exists k: nat :: FirstBadRecord(digest, lines, k, v)
    ensures v.Verdict? && v.valid <==> Intact(digest, lines)
  {
    var previousSeen: Option<Hash> := None;
    var count := 0;
    for i := 0 to |lines|
      invariant Intact(digest, lines[..i])
      invariant count == |Records(lines[..i])| && previousSeen == LastCurrent(Records(lines[..i]))
    {
      assert lines[..i + 1] == lines[..i] + [lines[i]];
      RecordsOfAppend(lines[..i], lines[i]);
      match lines[i] {
        case Blank =>
        case Entry(event) =>
          ChainOfAppend(digest, Records(lines[..i]), event);
          if (count > 0 && event.content.previous != previousSeen) || digest(event.content) != event.current {
            v := Verdict(false, count + 1, Some(event.content.id), previousSeen);
            if Intact(digest, lines) {
              ChainPrefix(digest, lines, i + 1);
            }
            assert FirstBadRecord(digest, lines, i, v);
            return;
          }
          previousSeen := Some(event.current);
          count := count + 1;
        case _ =>
          return Unreadable;
      }
    }
    assert lines[..|lines|] == lines;
    v := Verdict(true, count, None, previousSeen);
  }

  // ---------------------------------------------------------------- tamper evidence

  predicate IsSuffix(a: seq<Record>, b: seq<Record>) {
    |a| <= |b| && b[|b| - |a|..] == a
  }

  /** Counted from the end, chains with the same last hash hold the same records. */
  lemma {:induction false} AgreeFromTheEnd(digest: Digest, a: seq<Record>, b: seq<Record>, back: nat)
    requires Injective(digest) && Chain(digest, a) && Chain(digest, b) && LastCurrent(a) == LastCurrent(b)
    requires back < |a| && back < |b|
    ensures a[|a| - 1 - back] == b[|b| - 1 - back]
    decreases back
  {
    var x, y := a[|a| - 1 - back], b[|b| - 1 - back];
    if back > 0 {
      AgreeFromTheEnd(digest, a, b, back - 1);
      assert a[|a| - back].content.previous == Some(x.current);
      assert b[|b| - back].content.previous == Some(y.current);
    }
    assert x.current == y.current;
    assert digest(x.content) == digest(y.content);
  }

  /** Two chains that report the same last hash agree record for record as far back as both go. */
  lemma SameLastHashSameRecords(digest: Digest, a: seq<Record>, b: seq<Record>)
    requires Injective(digest) && Chain(digest, a) && Chain(digest, b) && LastCurrent(a) == LastCurrent(b)
    requires |a| <= |b|
    ensures IsSuffix(a, b)
  {
    forall i | 0 <= i < |a| ensures a[i] == b[|b| - |a| + i] {
      AgreeFromTheEnd(digest, a, b, |a| - 1 - i);
    }
  }

  /** Two log files that both verify and report the same last hash. */
  lemma TamperEvidence(digest: Digest, a: seq<Line>, b: seq<Line>)
    requires Injective(digest) && Intact(digest, a) && Intact(digest, b)
    requires LastCurrent(Records(a)) == LastCurrent(Records(b))
    ensures IsSuffix(Records(a), Records(b)) || IsSuffix(Records(b), Records(a))
    ensures |Records(a)| == |Records(b)| ==> Records(a) == Records(b)
  {
    if |Records(a)| <= |Records(b)| {
      SameLastHashSameRecords(digest, Records(a), Records(b));
    } else {
      SameLastHashSameRecords(digest, Records(b), Records(a));
    }
  }

  /** Chains that start from a null previous hash are determined by their last hash alone. */
  lemma LastHashDeterminesAll(digest: Digest, a: seq<Record>, b: seq<Record>)
    requires Injective(digest) && Chain(digest, a) && Chain(digest, b) && FromNull(a) && FromNull(b)
    requires LastCurrent(a) == LastCurrent(b)
    ensures a == b
  {
    if |a| <= |b| {
      SameLastHashSameRecords(digest, a, b);
      FullSuffix(digest, a, b);
    } else {
      SameLastHashSameRecords(digest, b, a);
      FullSuffix(digest, b, a);
    }
  }

  lemma LinkedAt(digest: Digest, rs: seq<Record>, k: nat)
    requires Chain(digest, rs) && 0 < k < |rs|
    ensures rs[k].content.previous == Some(rs[k - 1].current)
  {
  }

  lemma FullSuffix(digest: Digest, a: seq<Record>, b: seq<Record>)
    requires Chain(digest, b) && FromNull(a) && LastCurrent(a) == LastCurrent(b) && IsSuffix(a, b)
    ensures a == b
  {
    var k := |b| - |a|;
    if k > 0 && a != [] {
      LinkedAt(digest, b, k);
    }
  }
}
