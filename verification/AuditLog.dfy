/**
 The audit log on disk: the current file, the segments sealed by rotation and the upload queue. An
 append may fail at any of its file operations; a crash there leaves the same files behind.
 */
module AuditLog {
  import opened Wrappers
  import opened AuditChain
  import opened ReplayCache

  /** The last line may lack its line feed. */
  datatype File = File(lines: seq<Line>, terminated: bool)

  datatype Segment = Segment(timestamp: U64, lines: seq<Line>)

  const U32_MAX: nat := 0xFFFF_FFFF
  type U32 = n: nat | n <= U32_MAX

  datatype Pending = Pending(queuedAt: U64, attempts: U32, nextRetryAt: U64, lastFailure: Option<string>, event: Record)

  datatype PendingLine = Queued(upload: Pending) | Garbled

  datatype PendingFile = PendingFile(lines: seq<PendingLine>, terminated: bool)

  const NO_UPLOADS: PendingFile := PendingFile([], true)

  datatype Store = Store(current: Option<File>, sealed: seq<Segment>, pending: PendingFile)

  /** A new event; `full` says whether the current file has reached its maximum size. */
  datatype Input = Input(id: string, body: string, timestamp: U64, full: bool)

  datatype Fault =
    | Clean
    | NoParent
    | RenameFails
    | AfterRename // no identifier, or the log cannot be opened
    | NothingWritten
    | TornRecord
    | NoLineFeed
    | NoPending
    | TornPending
    | NoPendingLineFeed

  datatype Reading = Failed | Read(lastHash: Option<Hash>)

  const EMPTY: Store := Store(None, [], NO_UPLOADS)

  // ---------------------------------------------------------------- appending

  function Lines(file: Option<File>): seq<Line> {
    if file.None? then [] else file.value.lines
  }

  /** `read_last_audit_hash`: only the last line that is not blank is looked at. */
  function LastHash(lines: seq<Line>): Reading {
    if lines == [] then Read(None)
    else match lines[|lines| - 1]
      case Blank => LastHash(lines[..|lines| - 1])
      case NotJson => Failed
      case OtherJson(h) => Read(h)
      case Entry(r) => Read(Some(r.current))
  }

  predicate Rotates(s: Store, i: Input) {
    s.current.Some? && s.current.value.lines != [] && i.full
  }

  function WithoutTimestamp(segments: seq<Segment>, timestamp: U64): seq<Segment> {
    if segments == [] then []
    else
      var init, last := segments[..|segments| - 1], segments[|segments| - 1];
      WithoutTimestamp(init, timestamp) + if last.timestamp == timestamp then [] else [last]
  }

  /** The rename takes the place of a segment sealed under the same timestamp. */
  function Rotated(s: Store, i: Input): Store {
    if Rotates(s, i) then
      s.(current := None,
         sealed := WithoutTimestamp(s.sealed, i.timestamp) + [Segment(i.timestamp, s.current.value.lines)])
    else s
  }

  /** Text appended to a last line without line feed makes one line of both. */
  function Written(file: Option<File>, line: Line, terminated: bool): File {
    var lines := Lines(file);
    if file.Some? && !file.value.terminated && lines != []
    then File(lines[..|lines| - 1] + [NotJson], terminated)
    else File(lines + [line], terminated)
  }

  function Touched(file: Option<File>): File {
    if file.Some? then file.value else File([], true)
  }

  datatype Appended = Appended(store: Store, ok: bool)

  function NewRecord(digest: Digest, i: Input, previous: Option<Hash>): Record {
    Sealed(digest, Content(i.id, i.body, previous))
  }

  /** The same for the upload queue: a record behind a line without line feed garbles both. */
  function Enqueued(file: PendingFile, line: PendingLine, terminated: bool): PendingFile {
    if !file.terminated && file.lines != []
    then PendingFile(file.lines[..|file.lines| - 1] + [Garbled], terminated)
    else PendingFile(file.lines + [line], terminated)
  }

  function Upload(i: Input, r: Record): PendingLine {
    Queued(Pending(i.timestamp, 0, i.timestamp, None, r))
  }

  function Queue(s: Store, i: Input, f: Fault, r: Record): Appended {
    match f
    case NoPending => Appended(s, false)
    case TornPending => Appended(s.(pending := Enqueued(s.pending, Garbled, false)), false)
    case NoPendingLineFeed => Appended(s.(pending := Enqueued(s.pending, Upload(i, r), false)), false)
    case _ => Appended(s.(pending := Enqueued(s.pending, Upload(i, r), true)), true)
  }

  function Log(s: Store, i: Input, f: Fault, r: Record): Appended {
    match f
    case NothingWritten => Appended(s.(current := Some(Touched(s.current))), false)
    case TornRecord => Appended(s.(current := Some(Written(s.current, NotJson, false))), false)
    case NoLineFeed => Appended(s.(current := Some(Written(s.current, Entry(r), false))), false)
    case _ => Queue(s.(current := Some(Written(s.current, Entry(r), true))), i, f, r)
  }

  /** `append_audit_event_v2` */
  function Append(digest: Digest, s: Store, i: Input, f: Fault): Appended {
    var reading := LastHash(Lines(s.current));
    if f.NoParent? || reading.Failed? || (f.RenameFails? && Rotates(s, i)) then Appended(s, false)
    else if f.AfterRename? then Appended(Rotated(s, i), false)
    else Log(Rotated(s, i), i, f, NewRecord(digest, i, reading.lastHash))
  }

  // ---------------------------------------------------------------- the upload queue

  const DEFAULT_AUDIT_BATCH_LIMIT: nat := 100

  function Clamp(n: nat, low: nat, high: nat): nat
    requires low <= high
  {
    if n < low then low else if n > high then high else n
  }

  function Min(a: nat, b: nat): nat {
    if a <= b then a else b
  }

  /** `read_pending_records`: a single unreadable line fails the whole reading. */
  function ReadPending(lines: seq<PendingLine>): Option<seq<Pending>> {
    if forall l <- lines :: l.Queued?
    then Some(Uploads(lines))
    else None
  }

  function Uploads(lines: seq<PendingLine>): (ps: seq<Pending>)
    requires forall l <- lines :: l.Queued?
  {
    seq(|lines|, i requires 0 <= i < |lines| => assert lines[i] in lines; lines[i].upload)
  }

  /** `rewrite_pending_records` writes every record on a line of its own. */
  function Rewritten(ps: seq<Pending>): PendingFile {
    PendingFile(seq(|ps|, i requires 0 <= i < |ps| => Queued(ps[i])), true)
  }

  function Events(ps: seq<Pending>): seq<Record> {
    seq(|ps|, i requires 0 <= i < |ps| => ps[i].event)
  }

  function Ids(ids: seq<string>): set<string> {
    set id | id in ids
  }

  function Kept(ps: seq<Pending>, acknowledged: set<string>): seq<Pending> {
    if ps == [] then []
    else (if ps[0].event.content.id in acknowledged then [] else [ps[0]]) + Kept(ps[1..], acknowledged)
  }

  lemma KeptStep(taken: seq<Pending>, ps: seq<Pending>, i: nat, acknowledged: set<string>, all: seq<Pending>)
    requires i < |ps| && taken + Kept(ps[i..], acknowledged) == all
    ensures (if ps[i].event.content.id in acknowledged then taken else taken + [ps[i]]) + Kept(ps[i + 1..], acknowledged)
         == all
  {
    assert ps[i..][1..] == ps[i + 1..];
    var rest := Kept(ps[i + 1..], acknowledged);
    AppendInFront(taken, ps[i], rest);
    assert [] + rest == rest;
  }

  lemma AppendInFront(taken: seq<Pending>, p: Pending, rest: seq<Pending>)
    ensures (taken + [p]) + rest == taken + ([p] + rest)
  {
  }

  /** How writing the last-upload marker ends; cut off, it can no longer be read. */
  datatype MarkerWrite = MarkerWritten | MarkerKept | MarkerTorn

  function Marked(last: Option<U64>, uploadedAt: U64, w: MarkerWrite): Option<U64> {
    match w
    case MarkerWritten => Some(uploadedAt)
    case MarkerKept => last
    case MarkerTorn => None
  }

  function RetryDelayMs(attempts: U32): U64 {
    match attempts
    case 0 => 1_000
    case 1 => 1_000
    case 2 => 2_000
    case 3 => 4_000
    case 4 => 8_000
    case 5 => 16_000
    case 6 => 32_000
    case _ => 60_000
  }

  function AfterFailure(p: Pending, reason: string, failedAt: U64): Pending {
    var attempts: U32 := if p.attempts < U32_MAX then p.attempts + 1 else U32_MAX;
    p.(attempts := attempts, nextRetryAt := SaturatingAdd(failedAt, RetryDelayMs(attempts)), lastFailure := Some(reason))
  }

  function Failing(ps: seq<Pending>, failed: set<string>, reason: string, failedAt: U64): seq<Pending> {
    seq(|ps|, i requires 0 <= i < |ps| =>
      if ps[i].event.content.id in failed then AfterFailure(ps[i], reason, failedAt) else ps[i])
  }

  /** How many records of the queue a list of ids names. */
  function Named(ps: seq<Pending>, ids: seq<string>): nat {
    |set k | 0 <= k < |ps| && ps[k].event.content.id in ids|
  }

  /** `ack_audit_upload_batch` on the queue's file. */
  function Acknowledged(file: PendingFile, ids: seq<string>, rewritten: bool): PendingFile {
    match ReadPending(file.lines)
    case Some(ps) => if rewritten then Rewritten(Kept(ps, Ids(ids))) else file
    case None => file
  }

  /** `record_audit_upload_failure` on the queue's file. */
  function Postponed(file: PendingFile, ids: seq<string>, reason: string, failedAt: U64, rewritten: bool): PendingFile {
    match ReadPending(file.lines)
    case Some(ps) => if rewritten then Rewritten(Failing(ps, Ids(ids), reason, failedAt)) else file
    case None => file
  }

  /** What a drain reports: the depth of the queue and its first events. */
  datatype Batch = Batch(depth: nat, events: seq<Record>)

  // ---------------------------------------------------------------- the operations step by step

  class AuditFiles {
    var current: Option<File>
    var sealed: seq<Segment>
    var pending: PendingFile
    var lastUpload: Option<U64>

    ghost function State(): Store
      reads this
    {
      Store(current, sealed, pending)
    }

    constructor ()
      ensures State() == EMPTY && lastUpload == None
    {
      current, sealed, pending, lastUpload := None, [], NO_UPLOADS, None;
    }

    method ReadLastAuditHash() returns (reading: Reading)
      ensures reading == LastHash(Lines(current))
    {
      if current.None? {
        return Read(None);
      }
      var lines := current.value.lines;
      var lastLine: Option<Line> := None;
      for i := 0 to |lines|
        invariant lastLine.None? ==> LastHash(lines[..i]) == Read(None)
        invariant lastLine.Some? ==> !lastLine.value.Blank? && LastHash(lines[..i]) == LastHash([lastLine.value])
      {
        assert lines[..i + 1][..i] == lines[..i];
        if !lines[i].Blank? {
          lastLine := Some(lines[i]);
        }
      }
      assert lines[..|lines|] == lines;
      match lastLine {
        case None => return Read(None);
        case Some(NotJson) => return Failed;
        case Some(OtherJson(h)) => return Read(h);
        case Some(Entry(r)) => return Read(Some(r.current));
      }
    }

    method RotateIfNeeded(i: Input, renameFails: bool) returns (ok: bool)
      modifies this
      ensures ok == !(renameFails && Rotates(old(State()), i))
      ensures State() == if ok then Rotated(old(State()), i) else old(State())
    {
      if current.None? || current.value.lines == [] || !i.full {
        return true;
      }
      if renameFails {
        return false;
      }
      sealed := WithoutTimestamp(sealed, i.timestamp) + [Segment(i.timestamp, current.value.lines)];
      current := None;
      return true;
    }

    method AppendEvent(digest: Digest, i: Input, f: Fault) returns (ok: bool)
      modifies this
      ensures var a := Append(digest, old(State()), i, f);
              State() == a.store && ok == a.ok
    {
      if f.NoParent? {
        return false;
      }
      var reading := ReadLastAuditHash();
      if reading.Failed? {
        return false;
      }
      var rotated := RotateIfNeeded(i, f.RenameFails?);
      if !rotated || f.AfterRename? {
        return false;
      }
      var record := NewRecord(digest, i, reading.lastHash);
      if f.NothingWritten? {
        current := Some(Touched(current));
        return false;
      }
      if f.TornRecord? {
        current := Some(Written(current, NotJson, false));
        return false;
      }
      current := Some(Written(current, Entry(record), !f.NoLineFeed?));
      if f.NoLineFeed? || f.NoPending? {
        return false;
      }
      if f.TornPending? {
        pending := Enqueued(pending, Garbled, false);
        return false;
      }
      pending := Enqueued(pending, Upload(i, record), !f.NoPendingLineFeed?);
      return !f.NoPendingLineFeed?;
    }

    method ReadPendingRecords() returns (records: Option<seq<Pending>>)
      ensures records == ReadPending(pending.lines)
    {
      var lines := pending.lines;
      var read: seq<Pending> := [];
      for i := 0 to |lines|
        invariant |read| == i
        invariant forall k | 0 <= k < i :: lines[k] == Queued(read[k])
      {
        if lines[i].Garbled? {
          assert lines[i] in lines;
          return None;
        }
        read := read + [lines[i].upload];
      }
      assert read == Uploads(lines);
      return Some(read);
    }

    /** A batch is a prefix of the queue, and draining removes nothing. */
    method DrainBatch(limit: nat) returns (batch: Option<Batch>)
      ensures batch.None? <==> ReadPending(pending.lines).None?
      ensures batch.Some? ==>
                var ps := ReadPending(pending.lines).value;
                && batch.value.depth == |ps|
                && |batch.value.events| == Min(Clamp(limit, 1, DEFAULT_AUDIT_BATCH_LIMIT), |ps|)
                && batch.value.events <= Events(ps)
    {
      var records := ReadPendingRecords();
      if records.None? {
        return None;
      }
      var count := Min(Clamp(limit, 1, DEFAULT_AUDIT_BATCH_LIMIT), |records.value|);
      return Some(Batch(|records.value|, Events(records.value[..count])));
    }

    /** The count is returned only if the queue was read and rewritten and the marker written; a marker
        that failed leaves the queue rewritten. */
    method AcknowledgeBatch(ids: seq<string>, uploadedAt: U64, rewritten: bool, marker: MarkerWrite)
      returns (removed: Option<nat>)
      modifies `pending, `lastUpload
      ensures pending == Acknowledged(old(pending), ids, rewritten)
      ensures var before := ReadPending(old(pending).lines);
              && lastUpload == (if rewritten && before.Some? then Marked(old(lastUpload), uploadedAt, marker)
                                else old(lastUpload))
              && (removed.Some? <==> rewritten && before.Some? && marker.MarkerWritten?)
              && (removed.Some? ==> removed.value + |pending.lines| == |before.value|)
    {
      var records := ReadPendingRecords();
      if records.None? {
        return None;
      }
      var remaining := WithoutAcknowledged(records.value, Ids(ids));
      if !rewritten {
        return None;
      }
      pending := Rewritten(remaining);
      lastUpload := Marked(lastUpload, uploadedAt, marker);
      if !marker.MarkerWritten? {
        return None;
      }
      return Some(|records.value| - |remaining|);
    }

    method WithoutAcknowledged(records: seq<Pending>, acknowledged: set<string>) returns (remaining: seq<Pending>)
      ensures remaining == Kept(records, acknowledged) && |remaining| <= |records|
    {
      remaining := [];
      assert records[0..] == records && [] + Kept(records, acknowledged) == Kept(records, acknowledged);
      for i := 0 to |records|
        invariant |remaining| <= i
        invariant remaining + Kept(records[i..], acknowledged) == Kept(records, acknowledged)
      {
        KeptStep(remaining, records, i, acknowledged, Kept(records, acknowledged));
        if records[i].event.content.id !in acknowledged {
          remaining := remaining + [records[i]];
        }
      }
      assert remaining + [] == remaining && records[|records|..] == [];
    }

    /** An unreadable queue and a failed rewrite are errors and change nothing. */
    method RecordUploadFailure(ids: seq<string>, reason: string, failedAt: U64, rewritten: bool)
      returns (result: Option<nat>)
      modifies `pending
      ensures pending == Postponed(old(pending), ids, reason, failedAt, rewritten)
      ensures var before := ReadPending(old(pending).lines);
              && (result.Some? <==> rewritten && before.Some?)
              && (result.Some? ==> result.value == Named(before.value, ids))
    {
      var read := ReadPendingRecords();
      if read.None? {
        return None;
      }
      var records, touched := WithFailure(read.value, ids, reason, failedAt);
      if !rewritten {
        return None;
      }
      pending := Rewritten(records);
      return Some(touched);
    }

    method WithFailure(queue: seq<Pending>, ids: seq<string>, reason: string, failedAt: U64)
      returns (records: seq<Pending>, touched: nat)
      ensures records == Failing(queue, Ids(ids), reason, failedAt) && touched == Named(queue, ids)
    {
      var failed := Ids(ids);
      records, touched := queue, 0;
      ghost var hit: set<int> := {};
      for i := 0 to |records|
        invariant |records| == |queue|
        invariant forall k | 0 <= k < i :: records[k] == Failing(queue, failed, reason, failedAt)[k]
        invariant forall k | i <= k < |records| :: records[k] == queue[k]
        invariant hit == (set k | 0 <= k < i && queue[k].event.content.id in ids) && touched == |hit|
      {
        if records[i].event.content.id in failed {
          touched := touched + 1;
          hit := hit + {i};
          records := records[i := AfterFailure(records[i], reason, failedAt)];
        }
      }
    }
  }
}
