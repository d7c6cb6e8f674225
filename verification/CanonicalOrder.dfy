/**
 What a canonical text does not depend on: the order in which members were inserted. Together with
 `CanonicalIsInvertible` this gives the law the IPC authentication rests on: two values have the same
 canonical text exactly when they are the same JSON value.
 */
module CanonicalOrder {
  import opened Text
  import opened JsonNumbers
  import opened CanonicalJson

  // ---------------------------------------------------------------- when there is a text at all

  predicate Printable(v: Value) {
    match v
    case Num(n) => !n.NonFinite?
    case Arr(items) => forall i | 0 <= i < |items| :: Printable(items[i])
    case Obj(members) => forall i | 0 <= i < |members| :: Printable(members[i].value)
    case Unsupported => false
    case _ => true
  }

  lemma {:induction false} PrintableExactly(v: Value)
    ensures Canonicalize(v).Ok? <==> Printable(v)
    decreases v, 1
  {
    match v
    case Arr(items) =>
      var parts := seq(|items|, i requires 0 <= i < |items| => Canonicalize(items[i]));
      forall i | 0 <= i < |items| ensures parts[i].Ok? <==> Printable(items[i]) {
        PrintableExactly(items[i]);
      }
    case Obj(members) =>
      var sorted := SortMembers(members);
      SortedMembersAreMembers(members);
      PrintableMembers(sorted, v);
      CanonicalOfObject(members);
      PrintableWhenSorted(members);
    case _ =>
  }

  lemma PrintableWhenSorted(ms: seq<Member>)
    ensures Printable(Obj(ms)) <==> forall i | 0 <= i < |SortMembers(ms)| :: Printable(SortMembers(ms)[i].value)
  {
    SortedMembersAreMembers(ms);
    MembersAreSortedMembers(ms);
  }

  lemma {:induction false} PrintableMembers(ms: seq<Member>, whole: Value)
    requires whole.Obj? && forall i | 0 <= i < |ms| :: ms[i] in whole.members
    ensures forall i | 0 <= i < |ms| :: MemberOutcomes(ms)[i].Ok? <==> Printable(ms[i].value)
    decreases whole, 0
  {
    forall i | 0 <= i < |ms| ensures MemberOutcomes(ms)[i].Ok? <==> Printable(ms[i].value) {
      PrintableExactly(ms[i].value);
    }
  }

  lemma MembersAreSortedMembers(ms: seq<Member>)
    ensures forall i | 0 <= i < |ms| :: ms[i] in SortMembers(ms)
  {
    var s := SortMembers(ms);
    forall i | 0 <= i < |ms| ensures ms[i] in s {
      assert ms[i] in multiset(ms);
      assert ms[i] in multiset(s);
    }
  }

  // ---------------------------------------------------------------- sorting by key

  predicate KeysAscend(ms: seq<Member>) {
    forall i, j | 0 <= i < j < |ms| :: AtMost(ms[i].key, ms[j].key)
  }

  predicate KeysStrictlyAscend(ms: seq<Member>) {
    forall i, j | 0 <= i < j < |ms| :: Less(ms[i].key, ms[j].key)
  }

  predicate DistinctKeys(ms: seq<Member>) {
    forall i, j | 0 <= i < j < |ms| :: ms[i].key != ms[j].key
  }

  lemma AtMostIsTransitive(a: Str, b: Str, c: Str)
    requires AtMost(a, b) && AtMost(b, c)
    ensures AtMost(a, c)
  {
    if Less(a, b) && Less(b, c) {
      LessIsTransitive(a, b, c);
    }
  }

  lemma {:induction false} InsertAscends(m: Member, ms: seq<Member>)
    requires KeysAscend(ms)
    ensures KeysAscend(Insert(m, ms))
    ensures forall x | x in Insert(m, ms) :: x == m || x in ms
  {
    if ms == [] {
    } else if Less(ms[0].key, m.key) {
      InsertAscends(m, ms[1..]);
      var r := Insert(m, ms[1..]);
      forall j | 0 <= j < |r| ensures AtMost(ms[0].key, r[j].key) {
        assert r[j] in r;
        if r[j] != m {
          assert r[j] in ms[1..];
        }
      }
    } else {
      LessIsTotal(ms[0].key, m.key);
      forall j | 0 <= j < |ms| ensures AtMost(m.key, ms[j].key) {
        AtMostIsTransitive(m.key, ms[0].key, ms[j].key);
      }
    }
  }

  /** The members are written in ascending order of their keys' code units. */
  lemma {:induction false} SortAscends(ms: seq<Member>)
    ensures KeysAscend(SortMembers(ms))
  {
    if ms != [] {
      SortAscends(ms[1..]);
      InsertAscends(ms[0], SortMembers(ms[1..]));
    }
  }

  lemma InsertBeforeAll(m: Member, ms: seq<Member>)
    requires ms != [] ==> AtMost(m.key, ms[0].key)
    ensures Insert(m, ms) == [m] + ms
  {
    if ms != [] && Less(ms[0].key, m.key) {
      LessIsAsymmetric(ms[0].key, m.key);
    }
  }

  lemma {:induction false} SortOfAscending(ms: seq<Member>)
    requires KeysAscend(ms)
    ensures SortMembers(ms) == ms
  {
    if ms != [] {
      SortOfAscending(ms[1..]);
      if |ms| > 1 {
        assert ms[1..][0] == ms[1];
      }
      InsertBeforeAll(ms[0], ms[1..]);
      assert ms == [ms[0]] + ms[1..];
    }
  }

  // ---------------------------------------------------------------- normal forms

  function NormalEach(ms: seq<Member>): (r: seq<Member>)
    ensures |r| == |ms| && forall i | 0 <= i < |ms| :: r[i] == Member(ms[i].key, Normal(ms[i].value))
  {
    if ms == [] then [] else [Member(ms[0].key, Normal(ms[0].value))] + NormalEach(ms[1..])
  }

  lemma {:induction false} NormalEachOfInsert(m: Member, ms: seq<Member>)
    ensures NormalEach(Insert(m, ms)) == Insert(Member(m.key, Normal(m.value)), NormalEach(ms))
  {
    if ms != [] && Less(ms[0].key, m.key) {
      NormalEachOfInsert(m, ms[1..]);
      assert Insert(m, ms)[1..] == Insert(m, ms[1..]);
      assert NormalEach(ms)[1..] == NormalEach(ms[1..]);
    } else {
      assert ([m] + ms)[1..] == ms;
    }
  }

  lemma {:induction false} NormalEachOfSort(ms: seq<Member>)
    ensures NormalEach(SortMembers(ms)) == SortMembers(NormalEach(ms))
  {
    if ms != [] {
      NormalEachOfSort(ms[1..]);
      NormalEachOfInsert(ms[0], SortMembers(ms[1..]));
      assert NormalEach(ms)[1..] == NormalEach(ms[1..]);
    }
  }

  lemma NormalMembers(ms: seq<Member>)
    ensures Normal(Obj(ms)) == Obj(NormalEach(SortMembers(ms)))
  {
    var sorted := SortMembers(ms);
    var n := Normal(Obj(ms)).members;
    assert |n| == |sorted|;
    assert forall i | 0 <= i < |sorted| :: n[i] == Member(sorted[i].key, Normal(sorted[i].value));
    assert n == NormalEach(sorted);
  }

  lemma NormalOfObject(ms: seq<Member>)
    ensures Normal(Obj(ms)) == Obj(NormalEach(SortMembers(ms))) == Obj(SortMembers(NormalEach(ms)))
  {
    NormalMembers(ms);
    NormalEachOfSort(ms);
  }

  function MemberOutcomes(ms: seq<Member>): (r: seq<Outcome<Str>>)
    ensures |r| == |ms| && forall i | 0 <= i < |ms| :: r[i] == Canonicalize(ms[i].value)
  {
    seq(|ms|, i requires 0 <= i < |ms| => Canonicalize(ms[i].value))
  }

  lemma CanonicalOfObject(ms: seq<Member>)
    ensures Canonicalize(Obj(ms)) == ObjectText(SortMembers(ms), MemberOutcomes(SortMembers(ms)))
  {
    var sorted := SortMembers(ms);
    var outcomes := seq(|sorted|, i requires 0 <= i < |sorted| => Canonicalize(sorted[i].value));
    assert outcomes == MemberOutcomes(sorted);
  }

  /** Objects whose members in key order have the same keys and the same texts have the same text. */
  lemma SameMembersSameText(a: seq<Member>, b: seq<Member>)
    requires var x, y := SortMembers(a), SortMembers(b);
             && |x| == |y|
             && forall i | 0 <= i < |x| :: x[i].key == y[i].key && Canonicalize(x[i].value) == Canonicalize(y[i].value)
    ensures Canonicalize(Obj(a)) == Canonicalize(Obj(b))
  {
    var x, y := SortMembers(a), SortMembers(b);
    CanonicalOfObject(a);
    CanonicalOfObject(b);
    assert MemberOutcomes(x) == MemberOutcomes(y);
    var parts := Collect(MemberOutcomes(x));
    if parts.Ok? {
      MemberTextsDependOnKeys(x, y, parts.value);
    }
  }

  lemma SameItemsSameText(a: seq<Value>, b: seq<Value>)
    requires |a| == |b| && forall i | 0 <= i < |a| :: Canonicalize(a[i]) == Canonicalize(b[i])
    ensures Canonicalize(Arr(a)) == Canonicalize(Arr(b))
  {
    var x := seq(|a|, i requires 0 <= i < |a| => Canonicalize(a[i]));
    var y := seq(|b|, i requires 0 <= i < |b| => Canonicalize(b[i]));
    assert x == y;
  }

  lemma SameSortedMembersSameText(ms: seq<Member>, normal: seq<Member>)
    requires normal == NormalEach(SortMembers(ms))
    requires forall i | 0 <= i < |normal| ::
               Canonicalize(normal[i].value) == Canonicalize(SortMembers(ms)[i].value)
    ensures Canonicalize(Obj(normal)) == Canonicalize(Obj(ms))
  {
    SortAscends(ms);
    SortOfAscending(normal);
    SameMembersSameText(normal, ms);
  }

  /** The canonical text of a value is that of its normal form. */
  lemma {:induction false} CanonicalOfNormal(v: Value)
    ensures Canonicalize(Normal(v)) == Canonicalize(v)
    decreases v, 1
  {
    match v
    case Arr(items) => CanonicalOfNormalItems(items, v);
    case Obj(members) =>
      NormalMembers(members);
      SortedMembersAreMembers(members);
      CanonicalOfNormalMembers(SortMembers(members), v);
      SameSortedMembersSameText(members, NormalEach(SortMembers(members)));
    case _ =>
  }

  lemma {:induction false} CanonicalOfNormalItems(items: seq<Value>, whole: Value)
    requires whole == Arr(items)
    ensures Canonicalize(Normal(Arr(items))) == Canonicalize(Arr(items))
    decreases whole, 0
  {
    var normal := Normal(Arr(items)).items;
    forall i | 0 <= i < |items| ensures Canonicalize(normal[i]) == Canonicalize(items[i]) {
      CanonicalOfNormal(items[i]);
    }
    SameItemsSameText(normal, items);
  }

  lemma {:induction false} CanonicalOfNormalMembers(ms: seq<Member>, whole: Value)
    requires whole.Obj? && forall i | 0 <= i < |ms| :: ms[i] in whole.members
    ensures forall i | 0 <= i < |ms| :: Canonicalize(NormalEach(ms)[i].value) == Canonicalize(ms[i].value)
    decreases whole, 0
  {
    forall i | 0 <= i < |ms| ensures Canonicalize(NormalEach(ms)[i].value) == Canonicalize(ms[i].value) {
      CanonicalOfNormal(ms[i].value);
    }
  }

  lemma {:induction false} MemberTextsDependOnKeys(a: seq<Member>, b: seq<Member>, texts: seq<Str>)
    requires |a| == |b| == |texts|
    requires forall i | 0 <= i < |a| :: a[i].key == b[i].key
    ensures MemberTexts(a, texts) == MemberTexts(b, texts)
  {
    if a != [] {
      MemberTextsDependOnKeys(a[1..], b[1..], texts[1..]);
    }
  }

  /** The law of the canonical writer: same text exactly for the same normal form. */
  lemma SameTextExactly(v: Value, w: Value)
    requires Printable(v) && Printable(w)
    ensures Canonicalize(v).Ok? && Canonicalize(w).Ok?
    ensures Canonicalize(v) == Canonicalize(w) <==> Normal(v) == Normal(w)
  {
    PrintableExactly(v);
    PrintableExactly(w);
    if Canonicalize(v) == Canonicalize(w) {
      CanonicalIsInjective(v, w);
    }
    CanonicalOfNormal(v);
    CanonicalOfNormal(w);
  }

  /** -0 and 0 are different values with one text: the only loss besides the order of members. */
  lemma NegativeZeroIsLost()
    ensures Num(Zero(true)) != Num(Zero(false))
    ensures Canonicalize(Num(Zero(true))) == Canonicalize(Num(Zero(false)))
  {
    SameTextExactly(Num(Zero(true)), Num(Zero(false)));
  }

  // ---------------------------------------------------------------- objects as maps

  function AsMap(ms: seq<Member>): map<Str, Value> {
    if ms == [] then map[] else AsMap(ms[1..])[ms[0].key := ms[0].value]
  }

  lemma {:induction false} AsMapKeys(ms: seq<Member>)
    ensures forall k :: k in AsMap(ms) <==> exists i | 0 <= i < |ms| :: ms[i].key == k
  {
    if ms != [] {
      AsMapKeys(ms[1..]);
      forall k ensures k in AsMap(ms) <==> exists i | 0 <= i < |ms| :: ms[i].key == k {
        if k in AsMap(ms[1..]) {
          var i :| 0 <= i < |ms[1..]| && ms[1..][i].key == k;
          assert ms[i + 1].key == k;
        }
        if i :| 0 <= i < |ms| && ms[i].key == k && i > 0 {
          assert ms[1..][i - 1].key == k;
        }
      }
    }
  }

  lemma UpdatesCommute(m: map<Str, Value>, k: Str, v: Value, l: Str, w: Value)
    requires k != l
    ensures m[k := v][l := w] == m[l := w][k := v]
  {
  }

  lemma {:induction false} AsMapOfInsert(m: Member, ms: seq<Member>)
    requires m.key !in AsMap(ms)
    ensures AsMap(Insert(m, ms)) == AsMap(ms)[m.key := m.value]
  {
    if ms != [] && Less(ms[0].key, m.key) {
      AsMapOfInsert(m, ms[1..]);
      assert Insert(m, ms)[1..] == Insert(m, ms[1..]);
      UpdatesCommute(AsMap(ms[1..]), m.key, m.value, ms[0].key, ms[0].value);
    } else {
      assert ([m] + ms)[1..] == ms;
    }
  }

  lemma StrictlyInFront(m: Member, ms: seq<Member>)
    requires KeysStrictlyAscend(ms) && forall x <- ms :: Less(m.key, x.key)
    ensures KeysStrictlyAscend([m] + ms)
  {
  }

  lemma FirstIsLess(ms: seq<Member>)
    requires KeysStrictlyAscend(ms) && ms != []
    ensures KeysStrictlyAscend(ms[1..]) && forall x <- ms[1..] :: Less(ms[0].key, x.key)
  {
  }

  lemma InsertedOrThere(m: Member, ms: seq<Member>)
    ensures forall x <- Insert(m, ms) :: x == m || x in ms
  {
    forall x | x in Insert(m, ms) ensures x == m || x in ms {
      assert multiset(Insert(m, ms))[x] > 0;
    }
  }

  lemma {:induction false} InsertStrictlyAscends(m: Member, ms: seq<Member>)
    requires KeysStrictlyAscend(ms) && forall x <- ms :: x.key != m.key
    ensures KeysStrictlyAscend(Insert(m, ms))
  {
    if ms == [] {
    } else if Less(ms[0].key, m.key) {
      FirstIsLess(ms);
      InsertStrictlyAscends(m, ms[1..]);
      InsertedOrThere(m, ms[1..]);
      StrictlyInFront(ms[0], Insert(m, ms[1..]));
    } else {
      LessIsTotal(ms[0].key, m.key);
      FirstIsLess(ms);
      forall x | x in ms ensures Less(m.key, x.key) {
        if x != ms[0] {
          assert x in ms[1..];
          LessIsTransitive(m.key, ms[0].key, x.key);
        }
      }
      StrictlyInFront(m, ms);
    }
  }

  /** No member that comes after the first, sorted or not, has its key. */
  lemma FirstKeyIsFree(ms: seq<Member>)
    requires DistinctKeys(ms) && ms != []
    ensures forall x <- SortMembers(ms[1..]) :: x.key != ms[0].key
  {
    var sorted := SortMembers(ms[1..]);
    forall x | x in sorted ensures x.key != ms[0].key {
      assert multiset(ms[1..])[x] > 0;
      assert x in ms[1..];
    }
  }

  lemma {:induction false} SortOfDistinctAscends(ms: seq<Member>)
    requires DistinctKeys(ms)
    ensures KeysStrictlyAscend(SortMembers(ms))
  {
    if ms != [] {
      SortOfDistinctAscends(ms[1..]);
      FirstKeyIsFree(ms);
      InsertStrictlyAscends(ms[0], SortMembers(ms[1..]));
    }
  }

  lemma {:induction false} SortOfDistinct(ms: seq<Member>)
    requires DistinctKeys(ms)
    ensures AsMap(SortMembers(ms)) == AsMap(ms)
  {
    if ms != [] {
      SortOfDistinct(ms[1..]);
      FirstKeyIsFree(ms);
      AsMapKeys(SortMembers(ms[1..]));
      AsMapOfInsert(ms[0], SortMembers(ms[1..]));
    }
  }

  lemma SameFirstKey(a: seq<Member>, b: seq<Member>)
    requires KeysStrictlyAscend(a) && KeysStrictlyAscend(b) && AsMap(a) == AsMap(b) && a != [] && b != []
    ensures a[0].key == b[0].key
  {
    AsMapKeys(a);
    AsMapKeys(b);
    assert a[0].key in AsMap(b) && b[0].key in AsMap(a);
    var i :| 0 <= i < |b| && b[i].key == a[0].key;
    var j :| 0 <= j < |a| && a[j].key == b[0].key;
    if i > 0 && j > 0 {
      LessIsAsymmetric(b[0].key, b[i].key);
    }
  }

  /** In strictly ascending order the members are determined by the map. */
  lemma {:induction false} AscendingIsDetermined(a: seq<Member>, b: seq<Member>)
    requires KeysStrictlyAscend(a) && KeysStrictlyAscend(b)
    requires AsMap(a) == AsMap(b)
    ensures a == b
  {
    AsMapKeys(a);
    AsMapKeys(b);
    assert a == [] <==> AsMap(a) == map[] by {
      AsMapIsEmpty(a);
    }
    assert b == [] <==> AsMap(b) == map[] by {
      AsMapIsEmpty(b);
    }
    if a == [] {
    } else {
      SameFirstKey(a, b);
      RestOfAscending(a);
      RestOfAscending(b);
      assert AsMap(a[1..]) == AsMap(a) - {a[0].key} == AsMap(b[1..]);
      AscendingIsDetermined(a[1..], b[1..]);
      assert a == [a[0]] + a[1..] && b == [b[0]] + b[1..];
    }
  }

  lemma AsMapIsEmpty(ms: seq<Member>)
    ensures ms == [] <==> AsMap(ms) == map[]
  {
    if ms != [] {
      assert ms[0].key in AsMap(ms);
    }
  }

  lemma RemoveAdded(m: map<Str, Value>, k: Str, v: Value)
    requires k !in m
    ensures m[k := v] - {k} == m
  {
  }

  lemma RestOfAscending(ms: seq<Member>)
    requires KeysStrictlyAscend(ms) && ms != []
    ensures AsMap(ms[1..]) == AsMap(ms) - {ms[0].key}
    ensures AsMap(ms)[ms[0].key] == ms[0].value
  {
    var k := ms[0].key;
    assert k !in AsMap(ms[1..]) by {
      AsMapKeys(ms[1..]);
      LessIsIrreflexive(k);
      assert forall i | 0 <= i < |ms[1..]| :: ms[1..][i] == ms[i + 1];
    }
    RemoveAdded(AsMap(ms[1..]), k, ms[0].value);
  }

  /** Objects have the same text exactly when they map the same keys to the same values, whatever
      the order in which the members were inserted. */
  lemma ObjectsAreMaps(a: seq<Member>, b: seq<Member>)
    requires Printable(Obj(a)) && Printable(Obj(b))
    requires DistinctKeys(a) && DistinctKeys(b)
    ensures Canonicalize(Obj(a)) == Canonicalize(Obj(b)) <==> AsMap(NormalEach(a)) == AsMap(NormalEach(b))
  {
    SameTextExactly(Obj(a), Obj(b));
    NormalOfObject(a);
    NormalOfObject(b);
    var x, y := NormalEach(a), NormalEach(b);
    SortOfDistinct(x);
    SortOfDistinct(y);
    SortOfDistinctAscends(x);
    SortOfDistinctAscends(y);
    if AsMap(x) == AsMap(y) {
      AscendingIsDetermined(SortMembers(x), SortMembers(y));
    }
  }
}
