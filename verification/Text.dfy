/** Strings as the repository's JSON layer sees them: sequences of UTF-16 code units, ordered unit by unit. */
module Text {

  type Unit = u: nat | u < 0x1_0000
  type Str = seq<Unit>

  function Ascii(s: string): (t: Str)
    requires forall i | 0 <= i < |s| :: s[i] as int < 0x80
    ensures |t| == |s| && forall i | 0 <= i < |s| :: t[i] == s[i] as int
  {
    seq(|s|, i requires 0 <= i < |s| => s[i] as int)
  }

  /** Rust's `char::is_whitespace`: the Unicode White_Space property. */
  predicate IsWhitespace(u: nat) {
    || 0x9 <= u <= 0xD || u == 0x20 || u == 0x85 || u == 0xA0 || u == 0x1680
    || 0x2000 <= u <= 0x200A || u == 0x2028 || u == 0x2029 || u == 0x202F || u == 0x205F || u == 0x3000
  }

  /** Code-unit order, as `Array.prototype.sort` without a comparator and section 3.2.3 of RFC 8785 use it. */
  predicate Less(a: Str, b: Str) {
    if b == [] then false
    else if a == [] then true
    else a[0] < b[0] || (a[0] == b[0] && Less(a[1..], b[1..]))
  }

  predicate AtMost(a: Str, b: Str) {
    a == b || Less(a, b)
  }

  lemma {:induction false} LessIsIrreflexive(a: Str)
    ensures !Less(a, a)
  {
    if a != [] {
      LessIsIrreflexive(a[1..]);
    }
  }

  lemma {:induction false} LessIsTransitive(a: Str, b: Str, c: Str)
    requires Less(a, b) && Less(b, c)
    ensures Less(a, c)
  {
    if a != [] && a[0] == b[0] == c[0] {
      LessIsTransitive(a[1..], b[1..], c[1..]);
    }
  }

  lemma {:induction false} LessIsTotal(a: Str, b: Str)
    ensures Less(a, b) || a == b || Less(b, a)
  {
    if a != [] && b != [] && a[0] == b[0] {
      LessIsTotal(a[1..], b[1..]);
      assert a == [a[0]] + a[1..] && b == [b[0]] + b[1..];
    }
  }

  lemma LessIsAsymmetric(a: Str, b: Str)
    requires Less(a, b)
    ensures !Less(b, a) && a != b
  {
    LessIsIrreflexive(a);
    if Less(b, a) {
      LessIsTransitive(a, b, a);
    }
  }

  /** The place of a code unit in UTF-8 order: surrogates, which stand for the longest forms, come last. */
  function Utf8Rank(u: Unit): Unit {
    if u < 0xD800 then u else if u < 0xE000 then u + 0x2000 else u - 0x800
  }

  function Utf8Ranks(s: Str): (r: Str)
    ensures |r| == |s| && forall i | 0 <= i < |s| :: r[i] == Utf8Rank(s[i])
  {
    seq(|s|, i requires 0 <= i < |s| => Utf8Rank(s[i]))
  }

  /** The byte order of the UTF-8 forms, in which Rust's maps keep strings. */
  predicate Utf8Less(a: Str, b: Str) {
    Less(Utf8Ranks(a), Utf8Ranks(b))
  }

  lemma Utf8RanksAreInjective(a: Str, b: Str)
    requires Utf8Ranks(a) == Utf8Ranks(b)
    ensures a == b
  {
    forall i | 0 <= i < |a| ensures a[i] == b[i] {
      assert Utf8Rank(a[i]) == Utf8Ranks(a)[i] == Utf8Ranks(b)[i] == Utf8Rank(b[i]);
    }
  }

  lemma Utf8LessIsTransitive(a: Str, b: Str, c: Str)
    requires Utf8Less(a, b) && Utf8Less(b, c)
    ensures Utf8Less(a, c)
  {
    LessIsTransitive(Utf8Ranks(a), Utf8Ranks(b), Utf8Ranks(c));
  }

  lemma Utf8LessIsTotal(a: Str, b: Str)
    ensures Utf8Less(a, b) || a == b || Utf8Less(b, a)
  {
    LessIsTotal(Utf8Ranks(a), Utf8Ranks(b));
    if Utf8Ranks(a) == Utf8Ranks(b) {
      Utf8RanksAreInjective(a, b);
    }
  }

  lemma Utf8LessIsAsymmetric(a: Str, b: Str)
    requires Utf8Less(a, b)
    ensures !Utf8Less(b, a) && a != b
  {
    LessIsAsymmetric(Utf8Ranks(a), Utf8Ranks(b));
  }

  /** Bytes of the UTF-8 form: what Rust's `len` counts. A surrogate pair takes four bytes, two a half. */
  function Utf8Length(s: Str): nat {
    if s == [] then 0
    else
      (if s[0] < 0x80 then 1 else if s[0] < 0x800 || 0xD800 <= s[0] < 0xE000 then 2 else 3) + Utf8Length(s[1..])
  }
}
