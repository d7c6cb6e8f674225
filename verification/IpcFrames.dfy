/**
 Authenticated IPC frames: the content the MAC covers, its canonical text, and what that text binds.
 */
module IpcFrames {
  import opened Text
  import opened ReplayCache
  import opened Wrappers
  import opened JsonNumbers
  import opened CanonicalJson
  import opened CanonicalOrder

  const FRAME_VERSION: nat := 1
  const FRAME_VERSION_V2: nat := 2

  datatype Frame = Frame(
    version: nat,
    kind: Str,
    nonce: Str,
    timestampMs: U64,
    sequence: Option<nat>,
    payload: Value,
    mac: Str)

  const REQUEST: Str := Ascii("request")
  const RESPONSE: Str := Ascii("response")

  const KEY_VERSION: Str := Ascii("version")
  const KEY_KIND: Str := Ascii("kind")
  const KEY_NONCE: Str := Ascii("nonce")
  const KEY_TIMESTAMP: Str := Ascii("timestampMs")
  const KEY_PAYLOAD: Str := Ascii("payload")
  const KEY_SEQUENCE: Str := Ascii("sequence")

  /** The members of the MAC content in the order the sender inserts them; v2 adds the sequence. */
  function MacMembers(f: Frame): seq<Member> {
    [ Member(KEY_VERSION, Num(FromNat(f.version))),
      Member(KEY_KIND, String(f.kind)),
      Member(KEY_NONCE, String(f.nonce)),
      Member(KEY_TIMESTAMP, Num(FromNat(f.timestampMs))),
      Member(KEY_PAYLOAD, f.payload) ]
    + if f.version == FRAME_VERSION_V2
      then [Member(KEY_SEQUENCE, Num(FromNat(if f.sequence.Some? then f.sequence.value else 0)))]
      else []
  }

  function MacContent(f: Frame): Value {
    Obj(MacMembers(f))
  }

  /** What two frames share when one MAC covers both. */
  predicate SameContent(f: Frame, g: Frame) {
    && f.version == g.version && f.kind == g.kind && f.nonce == g.nonce && f.timestampMs == g.timestampMs
    && Normal(f.payload) == Normal(g.payload)
    && (f.version == FRAME_VERSION_V2 && f.sequence.Some? && g.sequence.Some? ==> f.sequence == g.sequence)
  }

  lemma KeysDiffer()
    ensures KEY_VERSION[0] == 'v' as int && KEY_KIND[0] == 'k' as int && KEY_NONCE[0] == 'n' as int
    ensures KEY_TIMESTAMP[0] == 't' as int && KEY_PAYLOAD[0] == 'p' as int && KEY_SEQUENCE[0] == 's' as int
  {
  }

  lemma MacMembersAreDistinct(f: Frame)
    ensures DistinctKeys(MacMembers(f))
  {
    KeysDiffer();
    MacMembersAt(f);
    var ms := MacMembers(f);
    assert |ms| > 5 ==> ms[5].key == KEY_SEQUENCE;
    forall i, j | 0 <= i < j < |ms| ensures ms[i].key != ms[j].key {
      assert ms[i].key[0] != ms[j].key[0];
    }
  }

  lemma {:induction false} MemberOfMap(ms: seq<Member>, i: nat)
    requires DistinctKeys(ms) && i < |ms|
    ensures ms[i].key in AsMap(ms) && AsMap(ms)[ms[i].key] == ms[i].value
  {
    if i > 0 {
      MemberOfMap(ms[1..], i - 1);
      assert ms[1..][i - 1] == ms[i];
    }
  }

  lemma SameMemberValue(a: seq<Member>, b: seq<Member>, i: nat)
    requires DistinctKeys(a) && DistinctKeys(b) && i < |a| && i < |b| && a[i].key == b[i].key
    requires AsMap(NormalEach(a)) == AsMap(NormalEach(b))
    ensures Normal(a[i].value) == Normal(b[i].value)
  {
    MemberOfMap(NormalEach(a), i);
    MemberOfMap(NormalEach(b), i);
  }

  lemma SameTextSameMember(f: Frame, g: Frame, i: nat)
    requires Canonicalize(MacContent(f)).Ok? && Canonicalize(MacContent(f)) == Canonicalize(MacContent(g))
    requires i < |MacMembers(f)| && i < |MacMembers(g)| && MacMembers(f)[i].key == MacMembers(g)[i].key
    ensures Normal(MacMembers(f)[i].value) == Normal(MacMembers(g)[i].value)
  {
    PrintableExactly(MacContent(f));
    PrintableExactly(MacContent(g));
    MacMembersAreDistinct(f);
    MacMembersAreDistinct(g);
    ObjectsAreMaps(MacMembers(f), MacMembers(g));
    SameMemberValue(MacMembers(f), MacMembers(g), i);
  }

  lemma NormalOfScalar(n: nat, s: Str)
    ensures Normal(Num(FromNat(n))) == Num(FromNat(n)) && Normal(String(s)) == String(s)
  {
  }

  lemma MacMembersAt(f: Frame)
    ensures var ms := MacMembers(f);
            && |ms| >= 5
            && ms[0] == Member(KEY_VERSION, Num(FromNat(f.version)))
            && ms[1] == Member(KEY_KIND, String(f.kind))
            && ms[2] == Member(KEY_NONCE, String(f.nonce))
            && ms[3] == Member(KEY_TIMESTAMP, Num(FromNat(f.timestampMs)))
            && ms[4] == Member(KEY_PAYLOAD, f.payload)
  {
  }

  lemma BoundVersion(f: Frame, g: Frame)
    requires Canonicalize(MacContent(f)).Ok? && Canonicalize(MacContent(f)) == Canonicalize(MacContent(g))
    ensures f.version == g.version && f.timestampMs == g.timestampMs
  {
    MacMembersAt(f);
    MacMembersAt(g);
    SameTextSameMember(f, g, 0);
    NormalOfScalar(f.version, []);
    NormalOfScalar(g.version, []);
    FromNatIsInjective(f.version, g.version);
    SameTextSameMember(f, g, 3);
    NormalOfScalar(f.timestampMs, []);
    NormalOfScalar(g.timestampMs, []);
    FromNatIsInjective(f.timestampMs, g.timestampMs);
  }

  lemma BoundSequence(f: Frame, g: Frame)
    requires Canonicalize(MacContent(f)).Ok? && Canonicalize(MacContent(f)) == Canonicalize(MacContent(g))
    requires f.version == g.version == FRAME_VERSION_V2 && f.sequence.Some? && g.sequence.Some?
    ensures f.sequence == g.sequence
  {
    SameTextSameMember(f, g, 5);
    NormalOfScalar(f.sequence.value, []);
    NormalOfScalar(g.sequence.value, []);
    FromNatIsInjective(f.sequence.value, g.sequence.value);
  }

  lemma BoundTexts(f: Frame, g: Frame)
    requires Canonicalize(MacContent(f)).Ok? && Canonicalize(MacContent(f)) == Canonicalize(MacContent(g))
    ensures f.kind == g.kind && f.nonce == g.nonce && Normal(f.payload) == Normal(g.payload)
  {
    MacMembersAt(f);
    MacMembersAt(g);
    SameTextSameMember(f, g, 1);
    SameTextSameMember(f, g, 2);
    SameTextSameMember(f, g, 4);
    NormalOfScalar(0, f.kind);
    NormalOfScalar(0, g.kind);
    NormalOfScalar(0, f.nonce);
    NormalOfScalar(0, g.nonce);
  }

  /** The canonical text of the MAC content determines every authenticated field. */
  lemma MacBindsContent(f: Frame, g: Frame)
    requires Canonicalize(MacContent(f)).Ok? && Canonicalize(MacContent(f)) == Canonicalize(MacContent(g))
    ensures SameContent(f, g)
  {
    BoundVersion(f, g);
    BoundTexts(f, g);
    if f.version == FRAME_VERSION_V2 && f.sequence.Some? && g.sequence.Some? {
      BoundSequence(f, g);
    }
  }

  function UsesOf(frames: seq<Frame>): (uses: seq<Use>)
    ensures |uses| == |frames| && forall i | 0 <= i < |frames| :: uses[i] == Use(frames[i].nonce, frames[i].timestampMs)
  {
    seq(|frames|, i requires 0 <= i < |frames| => Use(frames[i].nonce, frames[i].timestampMs))
  }

  lemma ContentIsPrintable(f: Frame)
    ensures Canonicalize(MacContent(f)).Ok? <==> Printable(f.payload)
  {
    PrintableExactly(MacContent(f));
    MacMembersAt(f);
    if Printable(f.payload) {
      ScalarMembersArePrintable(f);
    } else {
      assert !Printable(MacMembers(f)[4].value);
    }
  }

  lemma ScalarMembersArePrintable(f: Frame)
    requires Printable(f.payload)
    ensures Printable(MacContent(f))
  {
    var ms := MacMembers(f);
    MacMembersAt(f);
    forall i | 0 <= i < |ms| ensures Printable(ms[i].value) {
      if i >= 5 {
        assert ms[i].value.Num? && !ms[i].value.number.NonFinite?;
      }
    }
  }

  // ---------------------------------------------------------------- accepted sequences

  /** The last sequence is the greatest of the accepted v2 frames', if there is one. */
  predicate LastIsGreatest(accepted: seq<Frame>, last: Option<nat>) {
    && (forall g <- accepted | g.version == FRAME_VERSION_V2 ::
          g.sequence.Some? && last.Some? && g.sequence.value <= last.value)
    && (last.Some? ==> exists g <- accepted :: g.version == FRAME_VERSION_V2 && g.sequence == last)
  }

  /** A v2 frame comes after every accepted v2 frame. */
  predicate AfterAllAccepted(accepted: seq<Frame>, f: Frame) {
    f.version == FRAME_VERSION_V2 ==>
      f.sequence.Some?
      && forall g <- accepted | g.version == FRAME_VERSION_V2 :: g.sequence.Some? && g.sequence.value < f.sequence.value
  }

  lemma AfterTheLast(accepted: seq<Frame>, last: Option<nat>, f: Frame)
    requires LastIsGreatest(accepted, last) && (f.version == FRAME_VERSION_V2 ==> f.sequence.Some?)
    ensures AfterAllAccepted(accepted, f)
       <==> (f.version == FRAME_VERSION_V2 && last.Some? ==> last.value < f.sequence.value)
  {
    if last.Some? {
      var g :| g in accepted && g.version == FRAME_VERSION_V2 && g.sequence == last;
    }
  }

  lemma LastOfMore(accepted: seq<Frame>, last: Option<nat>, f: Frame)
    requires LastIsGreatest(accepted, last) && AfterAllAccepted(accepted, f)
    ensures LastIsGreatest(accepted + [f], if f.version == FRAME_VERSION_V2 then f.sequence else last)
  {
    assert f in accepted + [f];
    if f.version == FRAME_VERSION_V2 {
    } else if last.Some? {
      var g :| g in accepted && g.version == FRAME_VERSION_V2 && g.sequence == last;
      assert g in accepted + [f];
    }
  }
}
