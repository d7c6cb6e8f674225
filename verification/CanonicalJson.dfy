/**
 The canonical JSON writer of the IPC layer (section 3.2 of RFC 8785) and a JSON reader that
 undoes it. An object is its members in insertion order, as a JavaScript object holds them.
 */
module CanonicalJson {
  import opened Text
  import opened JsonNumbers
  import opened JsonStrings

  type JsNumber = n: Number | WellFormed(n) witness Zero(false)

  /** `Unsupported` stands for `undefined`, functions, symbols and big integers. */
  datatype Value =
    | Null
    | Boolean(truth: bool)
    | Num(number: JsNumber)
    | String(text: Str)
    | Arr(items: seq<Value>)
    | Obj(members: seq<Member>)
    | Unsupported

  datatype Member = Member(key: Str, value: Value)

  datatype CanonicalError = NonFiniteNumber | UnsupportedType
  datatype Outcome<T> = Ok(value: T) | Err(error: CanonicalError)

  const COMMA: Unit := 0x2C
  const COLON: Unit := 0x3A
  const LEFT_BRACKET: Unit := 0x5B
  const RIGHT_BRACKET: Unit := 0x5D
  const LEFT_BRACE: Unit := 0x7B
  const RIGHT_BRACE: Unit := 0x7D
  const NULL_TEXT: Str := [0x6E, 0x75, 0x6C, 0x6C]
  const TRUE_TEXT: Str := [0x74, 0x72, 0x75, 0x65]
  const FALSE_TEXT: Str := [0x66, 0x61, 0x6C, 0x73, 0x65]

  // ---------------------------------------------------------------- writing

  function Insert(m: Member, ms: seq<Member>): (r: seq<Member>)
    ensures multiset(r) == multiset(ms) + multiset{m}
  {
    if ms == [] then [m]
    else if Less(ms[0].key, m.key) then
      assert ms == [ms[0]] + ms[1..];
      [ms[0]] + Insert(m, ms[1..])
    else [m] + ms
  }

  /** `Object.keys(value).sort()` with the value of each key. */
  function SortMembers(ms: seq<Member>): (r: seq<Member>)
    ensures multiset(r) == multiset(ms)
  {
    if ms == [] then []
    else
      assert ms == [ms[0]] + ms[1..];
      Insert(ms[0], SortMembers(ms[1..]))
  }

  function Collect<T>(parts: seq<Outcome<T>>): (r: Outcome<seq<T>>)
    ensures r.Ok? <==> forall i | 0 <= i < |parts| :: parts[i].Ok?
    ensures r.Ok? ==> |r.value| == |parts| && forall i | 0 <= i < |parts| :: r.value[i] == parts[i].value
  {
    if parts == [] then Ok([])
    else if parts[0].Err? then Err(parts[0].error)
    else
      var rest := Collect(parts[1..]);
      if rest.Err? then rest else Ok([parts[0].value] + rest.value)
  }

  function Join(texts: seq<Str>): Str {
    if texts == [] then []
    else if |texts| == 1 then texts[0]
    else texts[0] + [COMMA] + Join(texts[1..])
  }

  function MemberTexts(ms: seq<Member>, texts: seq<Str>): (r: seq<Str>)
    requires |ms| == |texts|
    ensures |r| == |ms|
  {
    if ms == [] then [] else [MemberText(ms[0].key, texts[0])] + MemberTexts(ms[1..], texts[1..])
  }

  function MemberText(key: Str, text: Str): Str {
    StringText(key) + [COLON] + text
  }

  lemma SortedMembersAreMembers(ms: seq<Member>)
    ensures |SortMembers(ms)| == |ms|
    ensures forall i | 0 <= i < |ms| :: SortMembers(ms)[i] in ms
  {
    var s := SortMembers(ms);
    assert |s| == |multiset(s)| == |multiset(ms)|;
    forall i | 0 <= i < |s| ensures s[i] in ms {
      assert s[i] in multiset(s);
    }
  }

  function ObjectText(ms: seq<Member>, outcomes: seq<Outcome<Str>>): Outcome<Str>
    requires |ms| == |outcomes|
  {
    var parts := Collect(outcomes);
    if parts.Err? then Err(parts.error) else Ok([LEFT_BRACE] + Join(MemberTexts(ms, parts.value)) + [RIGHT_BRACE])
  }

  function Canonicalize(v: Value): Outcome<Str> {
    match v
    case Null => Ok(NULL_TEXT)
    case Boolean(truth) => Ok(if truth then TRUE_TEXT else FALSE_TEXT)
    case Num(n) => if n.NonFinite? then Err(NonFiniteNumber) else Ok(NumberText(n))
    case String(text) => Ok(StringText(text))
    case Arr(items) =>
      var parts := Collect(seq(|items|, i requires 0 <= i < |items| => Canonicalize(items[i])));
      if parts.Err? then Err(parts.error) else Ok([LEFT_BRACKET] + Join(parts.value) + [RIGHT_BRACKET])
    case Obj(members) =>
      var sorted := SortMembers(members);
      SortedMembersAreMembers(members);
      ObjectText(sorted, seq(|sorted|, i requires 0 <= i < |sorted| => Canonicalize(sorted[i].value)))
    case Unsupported => Err(UnsupportedType)
  }

  // ---------------------------------------------------------------- reading

  function ReadValue(t: Str): (r: Read<Value>)
    ensures r.Got? ==> |r.rest| < |t|
    decreases |t|, 1
  {
    if t == [] then Fail
    else if NULL_TEXT <= t then Got(Null, t[4..])
    else if TRUE_TEXT <= t then Got(Boolean(true), t[4..])
    else if FALSE_TEXT <= t then Got(Boolean(false), t[5..])
    else if t[0] == QUOTE then
      var r := ReadString(t);
      if r.Got? then Got(String(r.value), r.rest) else Fail
    else if t[0] == LEFT_BRACKET then
      var r := if |t| > 1 && t[1] == RIGHT_BRACKET then Got([], t[2..]) else ReadItems(t[1..]);
      if r.Got? then Got(Arr(r.value), r.rest) else Fail
    else if t[0] == LEFT_BRACE then
      var r := if |t| > 1 && t[1] == RIGHT_BRACE then Got([], t[2..]) else ReadMembers(t[1..]);
      if r.Got? then Got(Obj(r.value), r.rest) else Fail
    else if t[0] == MINUS || StartsWithDigit(t) then
      var r := ReadNumber(t);
      if WellFormed(r.0) then Got(Num(r.0), r.1) else Fail
    else Fail
  }

  function ReadItems(t: Str): (r: Read<seq<Value>>)
    ensures r.Got? ==> |r.rest| < |t|
    decreases |t|, 2
  {
    var first := ReadValue(t);
    if first.Fail? || first.rest == [] then Fail
    else if first.rest[0] == RIGHT_BRACKET then Got([first.value], first.rest[1..])
    else if first.rest[0] == COMMA then
      var others := ReadItems(first.rest[1..]);
      if others.Fail? then Fail else Got([first.value] + others.value, others.rest)
    else Fail
  }

  function ReadMember(t: Str): (r: Read<Member>)
    ensures r.Got? ==> |r.rest| < |t|
    decreases |t|, 2
  {
    var key := ReadString(t);
    if key.Fail? || key.rest == [] || key.rest[0] != COLON then Fail
    else
      var value := ReadValue(key.rest[1..]);
      if value.Fail? then Fail else Got(Member(key.value, value.value), value.rest)
  }

  function ReadMembers(t: Str): (r: Read<seq<Member>>)
    ensures r.Got? ==> |r.rest| < |t|
    decreases |t|, 3
  {
    var first := ReadMember(t);
    if first.Fail? || first.rest == [] then Fail
    else if first.rest[0] == RIGHT_BRACE then Got([first.value], first.rest[1..])
    else if first.rest[0] == COMMA then
      var others := ReadMembers(first.rest[1..]);
      if others.Fail? then Fail else Got([first.value] + others.value, others.rest)
    else Fail
  }

  // ---------------------------------------------------------------- what a text can tell

  /** A value up to what its canonical text leaves out: the sign of zero and the order of members. */
  function Normal(v: Value): Value {
    match v
    case Num(n) => Num(Unsigned(n))
    case Arr(items) => Arr(seq(|items|, i requires 0 <= i < |items| => Normal(items[i])))
    case Obj(members) =>
      var sorted := SortMembers(members);
      SortedMembersAreMembers(members);
      Obj(seq(|sorted|, i requires 0 <= i < |sorted| => Member(sorted[i].key, Normal(sorted[i].value))))
    case _ => v
  }

  // ---------------------------------------------------------------- reading undoes writing

  /** `text` is read as `value` wherever it may stand. */
  ghost predicate Reads(text: Str, value: Value) {
    forall tail | EndsNumber(tail) :: ReadValue(text + tail) == Got(value, tail)
  }

  ghost predicate ReadsMember(text: Str, m: Member) {
    forall tail | EndsNumber(tail) :: ReadMember(text + tail) == Got(m, tail)
  }

  lemma ReadsIsNotEmpty(text: Str, value: Value)
    requires Reads(text, value)
    ensures text != [] && text[0] != RIGHT_BRACKET
  {
    assert text + [] == text;
    assert EndsNumber([]);
  }

  lemma ReadsMemberIsNotEmpty(text: Str, m: Member)
    requires ReadsMember(text, m)
    ensures text != [] && text[0] != RIGHT_BRACE
  {
    assert text + [] == text;
    assert EndsNumber([]);
  }

  lemma ReadItemsStep(text: Str, value: Value, after: Str)
    requires Reads(text, value) && after != [] && (after[0] == COMMA || after[0] == RIGHT_BRACKET)
    ensures after[0] == RIGHT_BRACKET ==> ReadItems(text + after) == Got([value], after[1..])
    ensures after[0] == COMMA && ReadItems(after[1..]).Got? ==>
              ReadItems(text + after) == Got([value] + ReadItems(after[1..]).value, ReadItems(after[1..]).rest)
  {
    assert EndsNumber(after);
  }

  lemma JoinWithEnd(texts: seq<Str>, end: Str)
    requires texts != []
    ensures Join(texts) + end
         == if |texts| == 1 then texts[0] + end else texts[0] + ([COMMA] + (Join(texts[1..]) + end))
  {
    if |texts| > 1 {
      Regroup(texts[0], [COMMA], Join(texts[1..]), end);
    }
  }

  lemma ReadItemsOfLast(texts: seq<Str>, values: seq<Value>, tail: Str)
    requires |texts| == |values| == 1 && Reads(texts[0], values[0])
    ensures ReadItems(Join(texts) + ([RIGHT_BRACKET] + tail)) == Got(values, tail)
  {
    var end := [RIGHT_BRACKET] + tail;
    assert end[1..] == tail;
    ReadItemsStep(texts[0], values[0], end);
    assert values == [values[0]];
  }

  lemma ReadItemsOfMore(texts: seq<Str>, values: seq<Value>, end: Str, tail: Str)
    requires |texts| == |values| > 1 && Reads(texts[0], values[0])
    requires ReadItems(Join(texts[1..]) + end) == Got(values[1..], tail)
    ensures ReadItems(Join(texts) + end) == Got(values, tail)
  {
    JoinWithEnd(texts, end);
    ReadItemsCons(texts[0], values[0], Join(texts[1..]) + end, values[1..], tail);
    assert values == [values[0]] + values[1..];
  }

  lemma {:induction false} ReadItemsOfTexts(texts: seq<Str>, values: seq<Value>, tail: Str)
    requires |texts| == |values| > 0
    requires forall i | 0 <= i < |texts| :: Reads(texts[i], values[i])
    ensures ReadItems(Join(texts) + ([RIGHT_BRACKET] + tail)) == Got(values, tail)
  {
    if |texts| == 1 {
      ReadItemsOfLast(texts, values, tail);
    } else {
      ReadItemsOfTexts(texts[1..], values[1..], tail);
      ReadItemsOfMore(texts, values, [RIGHT_BRACKET] + tail, tail);
    }
  }

  lemma ReadItemsCons(text: Str, value: Value, others: Str, values: seq<Value>, tail: Str)
    requires Reads(text, value) && ReadItems(others) == Got(values, tail)
    ensures ReadItems(text + ([COMMA] + others)) == Got([value] + values, tail)
  {
    var after := [COMMA] + others;
    assert after[1..] == others;
    ReadItemsStep(text, value, after);
  }

  lemma ReadMembersStep(text: Str, m: Member, after: Str)
    requires ReadsMember(text, m) && after != [] && (after[0] == COMMA || after[0] == RIGHT_BRACE)
    ensures after[0] == RIGHT_BRACE ==> ReadMembers(text + after) == Got([m], after[1..])
    ensures after[0] == COMMA && ReadMembers(after[1..]).Got? ==>
              ReadMembers(text + after) == Got([m] + ReadMembers(after[1..]).value, ReadMembers(after[1..]).rest)
  {
    assert EndsNumber(after);
  }

  lemma ReadMembersOfLast(texts: seq<Str>, ms: seq<Member>, tail: Str)
    requires |texts| == |ms| == 1 && ReadsMember(texts[0], ms[0])
    ensures ReadMembers(Join(texts) + ([RIGHT_BRACE] + tail)) == Got(ms, tail)
  {
    var end := [RIGHT_BRACE] + tail;
    assert end[1..] == tail;
    ReadMembersStep(texts[0], ms[0], end);
    assert ms == [ms[0]];
  }

  lemma ReadMembersOfMore(texts: seq<Str>, ms: seq<Member>, end: Str, tail: Str)
    requires |texts| == |ms| > 1 && ReadsMember(texts[0], ms[0])
    requires ReadMembers(Join(texts[1..]) + end) == Got(ms[1..], tail)
    ensures ReadMembers(Join(texts) + end) == Got(ms, tail)
  {
    JoinWithEnd(texts, end);
    ReadMembersCons(texts[0], ms[0], Join(texts[1..]) + end, ms[1..], tail);
    assert ms == [ms[0]] + ms[1..];
  }

  lemma {:induction false} ReadMembersOfTexts(texts: seq<Str>, ms: seq<Member>, tail: Str)
    requires |texts| == |ms| > 0
    requires forall i | 0 <= i < |texts| :: ReadsMember(texts[i], ms[i])
    ensures ReadMembers(Join(texts) + ([RIGHT_BRACE] + tail)) == Got(ms, tail)
  {
    if |texts| == 1 {
      ReadMembersOfLast(texts, ms, tail);
    } else {
      ReadMembersOfTexts(texts[1..], ms[1..], tail);
      ReadMembersOfMore(texts, ms, [RIGHT_BRACE] + tail, tail);
    }
  }

  lemma ReadMembersCons(text: Str, m: Member, others: Str, ms: seq<Member>, tail: Str)
    requires ReadsMember(text, m) && ReadMembers(others) == Got(ms, tail)
    ensures ReadMembers(text + ([COMMA] + others)) == Got([m] + ms, tail)
  {
    var after := [COMMA] + others;
    assert after[1..] == others;
    ReadMembersStep(text, m, after);
  }

  lemma ReadValueOfArray(body: Str, values: seq<Value>, tail: Str)
    requires body != [] && body[0] != RIGHT_BRACKET
    requires ReadItems(body) == Got(values, tail)
    ensures ReadValue([LEFT_BRACKET] + body) == Got(Arr(values), tail)
  {
    assert ([LEFT_BRACKET] + body)[1..] == body;
    NoLiteral([LEFT_BRACKET] + body);
  }

  lemma ReadValueOfObject(body: Str, ms: seq<Member>, tail: Str)
    requires body != [] && body[0] != RIGHT_BRACE
    requires ReadMembers(body) == Got(ms, tail)
    ensures ReadValue([LEFT_BRACE] + body) == Got(Obj(ms), tail)
  {
    assert ([LEFT_BRACE] + body)[1..] == body;
    NoLiteral([LEFT_BRACE] + body);
  }

  lemma ReadValueOfEmpty(tail: Str)
    ensures ReadValue([LEFT_BRACKET, RIGHT_BRACKET] + tail) == Got(Arr([]), tail)
    ensures ReadValue([LEFT_BRACE, RIGHT_BRACE] + tail) == Got(Obj([]), tail)
  {
    assert ([LEFT_BRACKET, RIGHT_BRACKET] + tail)[2..] == tail;
    assert ([LEFT_BRACE, RIGHT_BRACE] + tail)[2..] == tail;
    NoLiteral([LEFT_BRACKET, RIGHT_BRACKET] + tail);
    NoLiteral([LEFT_BRACE, RIGHT_BRACE] + tail);
  }

  lemma JoinStartsWithFirst(texts: seq<Str>)
    requires texts != [] && texts[0] != []
    ensures Join(texts) != [] && Join(texts)[0] == texts[0][0]
  {
  }

  lemma ReadsArray(texts: seq<Str>, values: seq<Value>)
    requires |texts| == |values|
    requires forall i | 0 <= i < |texts| :: Reads(texts[i], values[i])
    ensures Reads([LEFT_BRACKET] + Join(texts) + [RIGHT_BRACKET], Arr(values))
  {
    var body := Join(texts);
    forall tail | EndsNumber(tail)
      ensures ReadValue([LEFT_BRACKET] + body + [RIGHT_BRACKET] + tail) == Got(Arr(values), tail)
    {
      if texts == [] {
        ReadValueOfEmpty(tail);
        assert [LEFT_BRACKET] + body + [RIGHT_BRACKET] == [LEFT_BRACKET, RIGHT_BRACKET];
      } else {
        ReadsIsNotEmpty(texts[0], values[0]);
        JoinStartsWithFirst(texts);
        ReadItemsOfTexts(texts, values, tail);
        ReadValueOfArray(body + ([RIGHT_BRACKET] + tail), values, tail);
        Regroup([LEFT_BRACKET], body, [RIGHT_BRACKET], tail);
      }
    }
  }

  lemma ReadsObject(texts: seq<Str>, ms: seq<Member>)
    requires |texts| == |ms|
    requires forall i | 0 <= i < |texts| :: ReadsMember(texts[i], ms[i])
    ensures Reads([LEFT_BRACE] + Join(texts) + [RIGHT_BRACE], Obj(ms))
  {
    var body := Join(texts);
    forall tail | EndsNumber(tail)
      ensures ReadValue([LEFT_BRACE] + body + [RIGHT_BRACE] + tail) == Got(Obj(ms), tail)
    {
      if texts == [] {
        ReadValueOfEmpty(tail);
        assert [LEFT_BRACE] + body + [RIGHT_BRACE] == [LEFT_BRACE, RIGHT_BRACE];
      } else {
        ReadsMemberIsNotEmpty(texts[0], ms[0]);
        JoinStartsWithFirst(texts);
        ReadMembersOfTexts(texts, ms, tail);
        ReadValueOfObject(body + ([RIGHT_BRACE] + tail), ms, tail);
        Regroup([LEFT_BRACE], body, [RIGHT_BRACE], tail);
      }
    }
  }

  lemma ReadMemberOf(key: Str, t: Str, body: Str, value: Value, tail: Str)
    requires ReadString(t) == Got(key, [COLON] + body)
    requires ReadValue(body) == Got(value, tail)
    ensures ReadMember(t) == Got(Member(key, value), tail)
  {
    assert ([COLON] + body)[1..] == body;
  }

  lemma ReadsMemberText(key: Str, text: Str, value: Value)
    requires Reads(text, value)
    ensures ReadsMember(MemberText(key, text), Member(key, value))
  {
    var quoted := StringText(key);
    forall tail | EndsNumber(tail)
      ensures ReadMember(quoted + [COLON] + text + tail) == Got(Member(key, value), tail)
    {
      Regroup(quoted, [COLON], text, tail);
      ReadStringOfText(key, [COLON] + (text + tail));
      ReadMemberOf(key, quoted + ([COLON] + (text + tail)), text + tail, value, tail);
    }
  }

  lemma {:induction false} ReadsMemberTexts(ms: seq<Member>, texts: seq<Str>, read: seq<Member>)
    requires |ms| == |texts| == |read|
    requires forall i | 0 <= i < |ms| :: read[i].key == ms[i].key && Reads(texts[i], read[i].value)
    ensures forall i | 0 <= i < |ms| :: ReadsMember(MemberTexts(ms, texts)[i], read[i])
  {
    if ms != [] {
      ReadsMemberText(ms[0].key, texts[0], read[0].value);
      ReadsMemberTexts(ms[1..], texts[1..], read[1..]);
      var all := MemberTexts(ms, texts);
      forall i | 0 <= i < |ms| ensures ReadsMember(all[i], read[i]) {
        if i > 0 {
          assert all[i] == MemberTexts(ms[1..], texts[1..])[i - 1] && read[i] == read[1..][i - 1];
        }
      }
    }
  }

  lemma ReadsLiterals()
    ensures Reads(NULL_TEXT, Null) && Reads(TRUE_TEXT, Boolean(true)) && Reads(FALSE_TEXT, Boolean(false))
  {
    forall tail
      ensures ReadValue(NULL_TEXT + tail) == Got(Null, tail)
    {
      assert (NULL_TEXT + tail)[4..] == tail;
    }
    forall tail
      ensures ReadValue(TRUE_TEXT + tail) == Got(Boolean(true), tail)
    {
      assert (TRUE_TEXT + tail)[0] == TRUE_TEXT[0] != NULL_TEXT[0];
      assert (TRUE_TEXT + tail)[4..] == tail;
    }
    forall tail
      ensures ReadValue(FALSE_TEXT + tail) == Got(Boolean(false), tail)
    {
      assert (FALSE_TEXT + tail)[0] == FALSE_TEXT[0];
      assert (FALSE_TEXT + tail)[5..] == tail;
    }
  }

  /** The first unit decides between a literal word and everything else. */
  lemma NoLiteral(t: Str)
    requires t != [] && t[0] != NULL_TEXT[0] && t[0] != TRUE_TEXT[0] && t[0] != FALSE_TEXT[0]
    ensures !(NULL_TEXT <= t) && !(TRUE_TEXT <= t) && !(FALSE_TEXT <= t)
  {
  }

  lemma ReadValueOfNumber(text: Str, tail: Str)
    requires text != [] && (text[0] == MINUS || StartsWithDigit(text)) && WellFormed(ReadNumber(text + tail).0)
    ensures ReadValue(text + tail) == Got(Num(ReadNumber(text + tail).0), ReadNumber(text + tail).1)
  {
    assert (text + tail)[0] == text[0];
    NoLiteral(text + tail);
  }

  lemma ReadsNumber(n: JsNumber)
    requires !n.NonFinite?
    ensures Reads(NumberText(n), Num(Unsigned(n)))
  {
    forall tail | EndsNumber(tail)
      ensures ReadValue(NumberText(n) + tail) == Got(Num(Unsigned(n)), tail)
    {
      ReadNumberOfText(n, tail);
      ReadValueOfNumber(NumberText(n), tail);
    }
  }

  lemma ReadsString(s: Str)
    ensures Reads(StringText(s), String(s))
  {
    forall tail | EndsNumber(tail)
      ensures ReadValue(StringText(s) + tail) == Got(String(s), tail)
    {
      ReadStringOfText(s, tail);
      NoLiteral(StringText(s) + tail);
    }
  }

  /** Every value with a canonical text is read back from it, wherever the text stands. */
  lemma {:induction false} CanonicalIsInvertible(v: Value)
    requires Canonicalize(v).Ok?
    ensures Reads(Canonicalize(v).value, Normal(v))
    decreases v, 2
  {
    match v
    case Null => ReadsLiterals();
    case Boolean(_) => ReadsLiterals();
    case Num(n) => ReadsNumber(n);
    case String(s) => ReadsString(s);
    case Arr(_) => ArrayIsInvertible(v);
    case Obj(_) => ObjectIsInvertible(v);
    case Unsupported => assert false;
  }

  lemma {:induction false} ArrayIsInvertible(v: Value)
    requires v.Arr? && Canonicalize(v).Ok?
    ensures Reads(Canonicalize(v).value, Normal(v))
    decreases v, 0
  {
    var items := v.items;
    var parts := seq(|items|, i requires 0 <= i < |items| => Canonicalize(items[i]));
    var texts := Collect(parts).value;
    forall i | 0 <= i < |items| ensures Reads(texts[i], Normal(items[i])) {
      assert parts[i] == Canonicalize(items[i]);
      CanonicalIsInvertible(items[i]);
    }
    ReadsArray(texts, Normal(v).items);
  }

  lemma {:induction false} ObjectIsInvertible(v: Value)
    requires v.Obj? && Canonicalize(v).Ok?
    ensures Reads(Canonicalize(v).value, Normal(v))
    decreases v, 1
  {
    var texts := TextOfObject(v);
    MembersAreInvertible(v, texts);
    NormalObject(v);
    ReadsMembers(SortMembers(v.members), texts, Normal(v).members);
  }

  lemma TextOfObject(v: Value) returns (texts: seq<Str>)
    requires v.Obj? && Canonicalize(v).Ok?
    ensures var sorted := SortMembers(v.members);
            && (forall i | 0 <= i < |sorted| :: sorted[i] in v.members)
            && Collect(seq(|sorted|, i requires 0 <= i < |sorted| => Canonicalize(sorted[i].value))) == Ok(texts)
            && |texts| == |sorted|
            && Canonicalize(v).value == [LEFT_BRACE] + Join(MemberTexts(sorted, texts)) + [RIGHT_BRACE]
  {
    var sorted := SortMembers(v.members);
    SortedMembersAreMembers(v.members);
    var parts := seq(|sorted|, i requires 0 <= i < |sorted| => Canonicalize(sorted[i].value));
    assert Canonicalize(v) == ObjectText(sorted, parts);
    texts := Collect(parts).value;
  }

  lemma NormalObject(v: Value)
    requires v.Obj?
    ensures var sorted := SortMembers(v.members);
            && Normal(v) == Obj(Normal(v).members) && |Normal(v).members| == |sorted|
            && forall i | 0 <= i < |sorted| ::
                 Normal(v).members[i].key == sorted[i].key && Normal(v).members[i].value == Normal(sorted[i].value)
  {
    SortedMembersAreMembers(v.members);
  }

  lemma ReadsMembers(ms: seq<Member>, texts: seq<Str>, read: seq<Member>)
    requires |ms| == |texts| == |read|
    requires forall i | 0 <= i < |ms| :: read[i].key == ms[i].key && Reads(texts[i], read[i].value)
    ensures Reads([LEFT_BRACE] + Join(MemberTexts(ms, texts)) + [RIGHT_BRACE], Obj(read))
  {
    ReadsMemberTexts(ms, texts, read);
    ReadsObject(MemberTexts(ms, texts), read);
  }

  lemma {:induction false} MembersAreInvertible(v: Value, texts: seq<Str>)
    requires v.Obj?
    requires var sorted := SortMembers(v.members);
             && (forall i | 0 <= i < |sorted| :: sorted[i] in v.members)
             && Collect(seq(|sorted|, i requires 0 <= i < |sorted| => Canonicalize(sorted[i].value))) == Ok(texts)
    ensures var sorted := SortMembers(v.members);
            |texts| == |sorted| && forall i | 0 <= i < |sorted| :: Reads(texts[i], Normal(sorted[i].value))
    decreases v, 0
  {
    var sorted := SortMembers(v.members);
    var parts := seq(|sorted|, i requires 0 <= i < |sorted| => Canonicalize(sorted[i].value));
    forall i | 0 <= i < |sorted| ensures Reads(texts[i], Normal(sorted[i].value)) {
      assert parts[i] == Canonicalize(sorted[i].value);
      CanonicalIsInvertible(sorted[i].value);
    }
  }

  /** Equal texts mean equal values, up to the sign of zero and the order of members. */
  lemma CanonicalIsInjective(v: Value, w: Value)
    requires Canonicalize(v).Ok? && Canonicalize(v) == Canonicalize(w)
    ensures Normal(v) == Normal(w)
  {
    CanonicalIsInvertible(v);
    CanonicalIsInvertible(w);
    var t := Canonicalize(v).value;
    assert EndsNumber([]);
    assert ReadValue(t + []) == Got(Normal(v), []) && ReadValue(t + []) == Got(Normal(w), []);
  }
}
