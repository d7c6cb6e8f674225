/** The text a MAC is taken over, written out: which members, in which order, in which form. */
module IpcText {
  import opened Text
  import opened Wrappers
  import opened ReplayCache
  import opened JsonNumbers
  import opened JsonStrings
  import opened JsonLayout
  import opened CanonicalJson
  import opened CanonicalOrder
  import opened IpcFrames

  /** `"name":text` */
  function Named(name: string, text: Str): Str
    requires forall i | 0 <= i < |name| :: name[i] as int < 0x80
  {
    Ascii("\"") + Ascii(name) + Ascii("\":") + text
  }

  function Plain(n: nat): Str {
    DigitText(DecimalDigits(n))
  }

  /** A member of the content: its name, its value and how the value is written. */
  datatype Part = Part(name: string, value: Value, text: Str)

  function NumberPart(name: string, n: nat): Part {
    Part(name, Num(FromNat(n)), Plain(n))
  }

  function SequenceOf(f: Frame): nat {
    if f.sequence.Some? then f.sequence.value else 0
  }

  /** The members by ascending key. */
  function Parts(f: Frame, payload: Str): seq<Part> {
    [Part("kind", String(f.kind), StringText(f.kind)), Part("nonce", String(f.nonce), StringText(f.nonce)),
     Part("payload", f.payload, payload)]
    + (if f.version == FRAME_VERSION_V2 then [NumberPart("sequence", SequenceOf(f))] else [])
    + [NumberPart("timestampMs", f.timestampMs), NumberPart("version", f.version)]
  }

  predicate IsPlainName(name: string) {
    forall i | 0 <= i < |name| :: 0x20 <= name[i] as int < 0x80 && name[i] != '"' && name[i] != '\\'
  }

  predicate PlainNames(parts: seq<Part>) {
    forall i | 0 <= i < |parts| :: IsPlainName(parts[i].name)
  }

  lemma PartsHavePlainNames(f: Frame, payload: Str)
    ensures PlainNames(Parts(f, payload))
  {
    NamesArePlain();
    var front := [Part("kind", String(f.kind), StringText(f.kind)), Part("nonce", String(f.nonce), StringText(f.nonce)),
                  Part("payload", f.payload, payload)];
    var middle := if f.version == FRAME_VERSION_V2 then [NumberPart("sequence", SequenceOf(f))] else [];
    var back := [NumberPart("timestampMs", f.timestampMs), NumberPart("version", f.version)];
    assert PlainNames(front) && PlainNames(middle) && PlainNames(back);
    PlainNamesOfConcat(front, middle);
    PlainNamesOfConcat(front + middle, back);
  }

  lemma NamesArePlain()
    ensures IsPlainName("kind") && IsPlainName("nonce") && IsPlainName("payload")
    ensures IsPlainName("sequence") && IsPlainName("timestampMs") && IsPlainName("version")
  {
  }

  lemma PlainNamesOfConcat(a: seq<Part>, b: seq<Part>)
    requires PlainNames(a) && PlainNames(b)
    ensures PlainNames(a + b)
  {
  }

  function MembersOf(parts: seq<Part>): seq<Member>
    requires PlainNames(parts)
  {
    seq(|parts|, i requires 0 <= i < |parts| => Member(Ascii(parts[i].name), parts[i].value))
  }

  function TextsOf(parts: seq<Part>): seq<Str>
    requires PlainNames(parts)
  {
    seq(|parts|, i requires 0 <= i < |parts| => Named(parts[i].name, parts[i].text))
  }

  function SortedMembers(f: Frame): seq<Member> {
    [ Member(KEY_KIND, String(f.kind)), Member(KEY_NONCE, String(f.nonce)), Member(KEY_PAYLOAD, f.payload) ]
    + (if f.version == FRAME_VERSION_V2 then [Member(KEY_SEQUENCE, Num(FromNat(SequenceOf(f))))] else [])
    + [ Member(KEY_TIMESTAMP, Num(FromNat(f.timestampMs))), Member(KEY_VERSION, Num(FromNat(f.version))) ]
  }

  lemma PartsAreTheMembers(f: Frame, payload: Str)
    ensures PlainNames(Parts(f, payload)) && MembersOf(Parts(f, payload)) == SortedMembers(f)
  {
    PartsHavePlainNames(f, payload);
  }

  /** No key starts before the given unit. */
  predicate StartFrom(ms: seq<Member>, u: nat) {
    forall x <- ms :: x.key != [] && u <= x.key[0]
  }

  lemma InFront(m: Member, ms: seq<Member>, u: nat)
    requires m.key != [] && m.key[0] == u && KeysStrictlyAscend(ms) && StartFrom(ms, u + 1)
    ensures KeysStrictlyAscend([m] + ms) && StartFrom([m] + ms, u)
  {
    StrictlyInFront(m, ms);
  }

  lemma SortedMembersAscend(f: Frame)
    ensures KeysStrictlyAscend(SortedMembers(f))
  {
    KeysDiffer();
    var last := [Member(KEY_VERSION, Num(FromNat(f.version)))];
    var timed := [Member(KEY_TIMESTAMP, Num(FromNat(f.timestampMs)))] + last;
    InFront(timed[0], last, 't' as nat);
    var numbered := if f.version == FRAME_VERSION_V2 then [Member(KEY_SEQUENCE, Num(FromNat(SequenceOf(f))))] + timed else timed;
    if f.version == FRAME_VERSION_V2 {
      InFront(numbered[0], timed, 's' as nat);
    }
    FrontAscends(f, numbered);
    assert SortedMembers(f) == [ Member(KEY_KIND, String(f.kind)), Member(KEY_NONCE, String(f.nonce)),
                                 Member(KEY_PAYLOAD, f.payload) ] + numbered;
  }

  lemma FrontAscends(f: Frame, rest: seq<Member>)
    requires KeysStrictlyAscend(rest) && StartFrom(rest, 's' as nat)
    ensures KeysStrictlyAscend([ Member(KEY_KIND, String(f.kind)), Member(KEY_NONCE, String(f.nonce)),
                                 Member(KEY_PAYLOAD, f.payload) ] + rest)
  {
    KeysDiffer();
    var k, n, p := Member(KEY_KIND, String(f.kind)), Member(KEY_NONCE, String(f.nonce)), Member(KEY_PAYLOAD, f.payload);
    InFront(p, rest, 'p' as nat);
    InFront(n, [p] + rest, 'n' as nat);
    InFront(k, [n] + ([p] + rest), 'k' as nat);
    assert [k, n, p] + rest == [k] + ([n] + ([p] + rest));
  }

  lemma SameMembers(f: Frame)
    ensures multiset(SortedMembers(f)) == multiset(MacMembers(f))
  {
  }

  lemma SortOfMacMembers(f: Frame)
    ensures SortMembers(MacMembers(f)) == SortedMembers(f)
  {
    SortedMembersAscend(f);
    MacMembersAreDistinct(f);
    SortOfDistinctAscends(MacMembers(f));
    SameMembers(f);
    AscendingIsUnique(SortMembers(MacMembers(f)), SortedMembers(f));
  }

  /** There is only one strictly ascending order of some members. */
  lemma {:induction false} AscendingIsUnique(a: seq<Member>, b: seq<Member>)
    requires KeysStrictlyAscend(a) && KeysStrictlyAscend(b) && multiset(a) == multiset(b)
    ensures a == b
  {
    if a == [] {
      assert |multiset(b)| == 0;
    } else {
      assert a[0] in multiset(b) && b != [];
      FirstIsShared(a, b);
      assert a == [a[0]] + a[1..] && b == [b[0]] + b[1..];
      assert multiset(a[1..]) == multiset(a) - multiset{a[0]};
      assert multiset(b[1..]) == multiset(b) - multiset{b[0]};
      AscendingIsUnique(a[1..], b[1..]);
    }
  }

  lemma FirstIsShared(a: seq<Member>, b: seq<Member>)
    requires KeysStrictlyAscend(a) && KeysStrictlyAscend(b) && a != [] && b != [] && multiset(a) == multiset(b)
    ensures a[0] == b[0]
  {
    assert a[0] in multiset(b) && b[0] in multiset(a);
    var i :| 0 <= i < |b| && b[i] == a[0];
    var j :| 0 <= j < |a| && a[j] == b[0];
    if i > 0 && j > 0 {
      assert Less(b[0].key, b[i].key) && Less(a[0].key, a[j].key);
      LessIsAsymmetric(a[0].key, b[0].key);
    }
  }

  lemma {:induction false} MemberTextsAt(ms: seq<Member>, texts: seq<Str>, i: nat)
    requires |ms| == |texts| && i < |ms|
    ensures MemberTexts(ms, texts)[i] == MemberText(ms[i].key, texts[i])
  {
    if i > 0 {
      MemberTextsAt(ms[1..], texts[1..], i - 1);
    }
  }

  lemma {:induction false} NoSurrogates(s: Str)
    requires forall u <- s :: u < 0x80
    ensures !HasLoneSurrogate(s)
    decreases |s|
  {
    if s != [] {
      assert s[0] in s && forall u <- s[1..] :: u in s;
      NoSurrogates(s[1..]);
    }
  }

  lemma TextOfName(name: string, text: Str)
    requires IsPlainName(name)
    ensures MemberText(Ascii(name), text) == Named(name, text)
  {
    var key := Ascii(name);
    assert forall u <- key :: 0x20 <= u < 0x80 && !MustEscape(u);
    NoSurrogates(key);
    WrittenAsItIsExactly(key);
    QuotedName(name);
    assert Ascii("\"") == [QUOTE] && Ascii("\":") == [QUOTE, COLON];
    assert [QUOTE] + key + [QUOTE] + [COLON] + text == [QUOTE] + key + [QUOTE, COLON] + text;
  }

  lemma QuotedName(name: string)
    requires IsPlainName(name) && StringBody(Ascii(name)) == Ascii(name)
    ensures StringText(Ascii(name)) == [QUOTE] + Ascii(name) + [QUOTE]
  {
  }

  predicate InPlainRange(f: Frame) {
    f.version < TEN_TO_21 && SequenceOf(f) < TEN_TO_21
  }

  predicate IsWritten(p: Part) {
    Canonicalize(p.value) == Ok(p.text)
  }

  lemma NumberIsWritten(name: string, n: nat)
    requires n < TEN_TO_21
    ensures IsWritten(NumberPart(name, n))
  {
    IntegersArePlain(n);
  }

  lemma PartsAreWritten(f: Frame, payload: Str)
    requires InPlainRange(f) && Canonicalize(f.payload) == Ok(payload)
    ensures AllWritten(Parts(f, payload))
  {
    TextIsWritten("kind", f.kind);
    TextIsWritten("nonce", f.nonce);
    NumberIsWritten("sequence", SequenceOf(f));
    NumberIsWritten("timestampMs", f.timestampMs);
    NumberIsWritten("version", f.version);
    var kind, nonce := Part("kind", String(f.kind), StringText(f.kind)), Part("nonce", String(f.nonce), StringText(f.nonce));
    ThreeWritten(kind, nonce, Part("payload", f.payload, payload));
    var middle := if f.version == FRAME_VERSION_V2 then [NumberPart("sequence", SequenceOf(f))] else [];
    OneMoreWritten([], NumberPart("sequence", SequenceOf(f)));
    OneMoreWritten([], NumberPart("timestampMs", f.timestampMs));
    OneMoreWritten([NumberPart("timestampMs", f.timestampMs)], NumberPart("version", f.version));
    WrittenOfConcat([kind, nonce, Part("payload", f.payload, payload)], middle,
                    [NumberPart("timestampMs", f.timestampMs), NumberPart("version", f.version)]);
  }

  predicate AllWritten(parts: seq<Part>) {
    forall p <- parts :: IsWritten(p)
  }

  lemma ThreeWritten(a: Part, b: Part, c: Part)
    requires IsWritten(a) && IsWritten(b) && IsWritten(c)
    ensures AllWritten([a, b, c])
  {
  }

  lemma OneMoreWritten(parts: seq<Part>, p: Part)
    requires AllWritten(parts) && IsWritten(p)
    ensures AllWritten(parts + [p]) && AllWritten([p])
  {
  }

  lemma WrittenOfConcat(a: seq<Part>, b: seq<Part>, c: seq<Part>)
    requires AllWritten(a) && AllWritten(b) && AllWritten(c)
    ensures AllWritten(a + b + c)
  {
  }

  lemma TextIsWritten(name: string, text: Str)
    ensures IsWritten(Part(name, String(text), StringText(text)))
  {
  }

  lemma TextsOfParts(parts: seq<Part>, texts: seq<Str>)
    requires PlainNames(parts) && |texts| == |parts| && AllWritten(parts)
    requires forall i | 0 <= i < |parts| :: Canonicalize(parts[i].value) == Ok(texts[i])
    ensures MemberTexts(MembersOf(parts), texts) == TextsOf(parts)
  {
    forall i | 0 <= i < |parts| ensures MemberTexts(MembersOf(parts), texts)[i] == TextsOf(parts)[i] {
      MemberTextsAt(MembersOf(parts), texts, i);
      assert IsWritten(parts[i]);
      TextOfName(parts[i].name, texts[i]);
    }
  }

  lemma TextsOfMembers(f: Frame, payload: Str) returns (texts: seq<Str>)
    requires Canonicalize(MacContent(f)).Ok?
    ensures var parts := Parts(f, payload);
            && PlainNames(parts) && |texts| == |parts|
            && (forall i | 0 <= i < |parts| :: Canonicalize(parts[i].value) == Ok(texts[i]))
            && Canonicalize(MacContent(f)).value == [LEFT_BRACE] + Join(MemberTexts(MembersOf(parts), texts)) + [RIGHT_BRACE]
  {
    var parts := Parts(f, payload);
    texts := TextOfSorted(f);
    PartsAreTheMembers(f, payload);
    forall i | 0 <= i < |parts| ensures Canonicalize(parts[i].value) == Ok(texts[i]) {
      assert MembersOf(parts)[i].value == parts[i].value;
    }
  }

  lemma TextOfSorted(f: Frame) returns (texts: seq<Str>)
    requires Canonicalize(MacContent(f)).Ok?
    ensures |texts| == |SortedMembers(f)|
    ensures forall i | 0 <= i < |texts| :: Canonicalize(SortedMembers(f)[i].value) == Ok(texts[i])
    ensures Canonicalize(MacContent(f)).value
         == [LEFT_BRACE] + Join(MemberTexts(SortedMembers(f), texts)) + [RIGHT_BRACE]
  {
    texts := TextOfObject(MacContent(f));
    assert MacContent(f).members == MacMembers(f);
    ValuesAreWritten(SortMembers(MacMembers(f)), texts);
    SortOfMacMembers(f);
  }

  lemma ValuesAreWritten(ms: seq<Member>, texts: seq<Str>)
    requires |texts| == |ms|
    requires Collect(seq(|ms|, i requires 0 <= i < |ms| => Canonicalize(ms[i].value))) == Ok(texts)
    ensures forall i | 0 <= i < |ms| :: Canonicalize(ms[i].value) == Ok(texts[i])
  {
    var parts := seq(|ms|, i requires 0 <= i < |ms| => Canonicalize(ms[i].value));
    forall i | 0 <= i < |ms| ensures Canonicalize(ms[i].value) == Ok(texts[i]) {
      assert parts[i] == Canonicalize(ms[i].value);
    }
  }

  /** The members' texts in their order. */
  function WrittenMembers(f: Frame, payload: Str): seq<Str> {
    [Named("kind", StringText(f.kind)), Named("nonce", StringText(f.nonce)), Named("payload", payload)]
    + (if f.version == FRAME_VERSION_V2 then [Named("sequence", Plain(SequenceOf(f)))] else [])
    + [Named("timestampMs", Plain(f.timestampMs)), Named("version", Plain(f.version))]
  }

  lemma WrittenParts(f: Frame, payload: Str)
    ensures PlainNames(Parts(f, payload)) && TextsOf(Parts(f, payload)) == WrittenMembers(f, payload)
  {
    PartsHavePlainNames(f, payload);
  }

  /** The MAC of every frame with a printable payload is taken over exactly this text: six members for v2 and
      five for v1, by ascending key, without blanks, with plain decimal numbers. */
  lemma MacTextExactly(f: Frame)
    requires Printable(f.payload) && InPlainRange(f)
    ensures Canonicalize(f.payload).Ok?
    ensures Canonicalize(MacContent(f))
         == Ok(Ascii("{") + Join(WrittenMembers(f, Canonicalize(f.payload).value)) + Ascii("}"))
  {
    PrintableExactly(f.payload);
    ContentIsPrintable(f);
    var payload := Canonicalize(f.payload).value;
    var texts := TextsOfMembers(f, payload);
    PartsAreWritten(f, payload);
    TextsOfParts(Parts(f, payload), texts);
    WrittenParts(f, payload);
    assert Ascii("{") == [LEFT_BRACE] && Ascii("}") == [RIGHT_BRACE];
  }
}
