/**
 Which text is written: where the point and the exponent of a number stand, which integers are plain
 digits, and which code units of a string are escaped and how.
 */
module JsonLayout {
  import opened Text
  import opened JsonNumbers
  import opened JsonStrings

  // ---------------------------------------------------------------- numbers

  predicate IsDigit(u: Unit) {
    DIGIT_0 <= u < DIGIT_0 + 10
  }

  predicate AllDigits(t: Str) {
    forall u <- t :: IsDigit(u)
  }

  /** The number lies outside the range that is written without an exponent. */
  predicate IsScaled(exponent: int) {
    exponent > 21 || exponent <= -6
  }

  lemma DigitTextIsDigits(ds: seq<Digit>)
    ensures AllDigits(DigitText(ds)) && LETTER_E !in DigitText(ds) && POINT !in DigitText(ds)
  {
  }

  /** An exponent is written exactly outside that range. */
  lemma ExponentIsWrittenExactly(n: Number)
    requires WellFormed(n) && n.Decimal?
    ensures LETTER_E in NumberText(n) <==> IsScaled(n.exponent)
  {
    var t := Magnitude(n.digits, n.exponent);
    if IsScaled(n.exponent) {
      ScaledText(n.digits, n.exponent);
    } else {
      PlainText(n.digits, n.exponent);
    }
    assert LETTER_E in NumberText(n) <==> LETTER_E in t;
  }

  /** Where the point stands in a number without exponent: behind the whole part, of which there is always
      one digit, and only if there is a fraction. */
  lemma PlainText(ds: seq<Digit>, e: int)
    requires ds != [] && !IsScaled(e)
    ensures var t := Magnitude(ds, e);
            var whole := if e > 0 then e else 1;
            && LETTER_E !in t
            && (if |ds| <= e then |t| == e && AllDigits(t)
                else |t| == whole + 1 + (|ds| - e) && t[whole] == POINT
                     && AllDigits(t[..whole]) && AllDigits(t[whole + 1..]))
            && (e <= 0 ==> t[0] == DIGIT_0)
  {
    if |ds| <= e {
      DigitTextIsDigits(ds + Zeros(e - |ds|));
    } else if e > 0 {
      PointedText(ds[..e], ds[e..]);
    } else {
      PointedText([0], Zeros(-e) + ds);
    }
  }

  lemma PointedText(whole: seq<Digit>, fraction: seq<Digit>)
    ensures var t := Pointed(whole, fraction);
            && |t| == |whole| + 1 + |fraction| && t[|whole|] == POINT && LETTER_E !in t
            && t[..|whole|] == DigitText(whole) && t[|whole| + 1..] == DigitText(fraction)
            && AllDigits(t[..|whole|]) && AllDigits(t[|whole| + 1..])
  {
    DigitTextIsDigits(whole);
    DigitTextIsDigits(fraction);
  }

  /** One digit, and the others behind a point if there are any. */
  function Mantissa(ds: seq<Digit>): Str
    requires ds != []
  {
    if |ds| == 1 then DigitText(ds) else Pointed(ds[..1], ds[1..])
  }

  lemma MantissaText(ds: seq<Digit>)
    requires ds != []
    ensures var t := Mantissa(ds);
            && |t| == (if |ds| == 1 then 1 else |ds| + 1) && t[0] == DIGIT_0 + ds[0]
            && (|ds| > 1 ==> t[1] == POINT && t[2..] == DigitText(ds[1..]))
  {
    if |ds| > 1 {
      PointedText(ds[..1], ds[1..]);
      assert Mantissa(ds)[..1][0] == DigitText(ds[..1])[0];
    }
  }

  lemma SignedExponent(e: int)
    ensures var t := ExponentText(e);
            && |t| > 2 && t[0] == LETTER_E && t[1] == (if e >= 0 then PLUS else MINUS)
            && t[2..] == DigitText(DecimalDigits(if e >= 0 then e else -e))
  {
  }

  /** With an exponent: the mantissa, and the signed exponent. */
  lemma ScaledText(ds: seq<Digit>, e: int)
    requires ds != [] && IsScaled(e)
    ensures var t := Magnitude(ds, e);
            var mantissa := if |ds| == 1 then 1 else |ds| + 1;
            && mantissa + 1 < |t| && t[mantissa] == LETTER_E
            && t[mantissa + 1] == (if e > 0 then PLUS else MINUS)
            && t[mantissa + 2..] == DigitText(DecimalDigits(if e > 0 then e - 1 else 1 - e))
            && t[0] == DIGIT_0 + ds[0] && (|ds| > 1 ==> t[1] == POINT && t[2..mantissa] == DigitText(ds[1..]))
  {
    MantissaText(ds);
    SignedExponent(e - 1);
    assert Magnitude(ds, e) == Mantissa(ds) + ExponentText(e - 1);
    Joined(Mantissa(ds), ExponentText(e - 1));
  }

  lemma Joined(front: Str, back: Str)
    requires |front| > 0 && |back| > 2
    ensures var t := front + back;
            && t[0] == front[0] && t[|front|] == back[0] && t[|front| + 1] == back[1] && t[|front| + 2..] == back[2..]
            && (|front| > 1 ==> t[1] == front[1] && t[2..|front|] == front[2..])
  {
  }

  // ---------------------------------------------------------------- integers

  const TEN_TO_21: nat := 1_000_000_000_000_000_000_000

  lemma {:induction false} DigitCount(n: nat, k: nat)
    requires n < Power10(k) && k > 0
    ensures |DecimalDigits(n)| <= k
    decreases k
  {
    if n >= 10 {
      assert Power10(k) == 10 * Power10(k - 1);
      DigitCount(n / 10, k - 1);
    }
  }

  function Power10(k: nat): nat {
    if k == 0 then 1 else 10 * Power10(k - 1)
  }

  lemma Power10Of21()
    ensures Power10(21) == TEN_TO_21
  {
    assert Power10(3) == 1000;
    assert Power10(6) == 1_000_000;
    assert Power10(9) == 1_000_000_000;
    assert Power10(12) == 1_000_000_000_000;
    assert Power10(15) == 1_000_000_000_000_000;
    assert Power10(18) == 1_000_000_000_000_000_000;
  }

  lemma AtMost21Digits(n: nat)
    requires n < TEN_TO_21
    ensures |DecimalDigits(n)| <= 21
  {
    Power10Of21();
    DigitCount(n, 21);
  }

  lemma DigitsOfFromNat(n: nat) returns (core: seq<Digit>)
    requires n > 0
    ensures core != [] && |core| <= |DecimalDigits(n)| && FromNat(n) == Decimal(false, core, |DecimalDigits(n)|)
    ensures core + Zeros(|DecimalDigits(n)| - |core|) == DecimalDigits(n)
  {
    var ds := DecimalDigits(n);
    core := DropTrailingZeros(ds);
    assert ds[0] != 0;
    assert core + Zeros(|ds| - |core|) == ds;
  }

  lemma PlainMagnitude(ds: seq<Digit>, e: int)
    requires ds != [] && |ds| <= e <= 21
    ensures Magnitude(ds, e) == DigitText(ds + Zeros(e - |ds|))
  {
  }

  /** Every integer below 10^21, and so every time and sequence number, is written in plain decimal digits. */
  lemma IntegersArePlain(n: nat)
    requires n < TEN_TO_21
    ensures NumberText(FromNat(n)) == DigitText(DecimalDigits(n))
  {
    if n > 0 {
      AtMost21Digits(n);
      var core := DigitsOfFromNat(n);
      PlainMagnitude(core, |DecimalDigits(n)|);
      NoSign(DigitText(DecimalDigits(n)));
    }
  }

  lemma NoSign(t: Str)
    ensures [] + t == t
  {
  }

  // ---------------------------------------------------------------- strings

  /** The code units that may not stand for themselves: quotes, backslashes and control characters. */
  predicate MustEscape(u: Unit) {
    u == QUOTE || u == BACKSLASH || u < 0x20
  }

  /** A surrogate without its partner. */
  predicate HasLoneSurrogate(s: Str)
    decreases |s|
  {
    s != [] && if IsPair(s) then HasLoneSurrogate(s[2..]) else IsSurrogate(s[0]) || HasLoneSurrogate(s[1..])
  }

  lemma EscapeLength(u: Unit)
    ensures |EscapeUnit(u)| > 1 <==> MustEscape(u) || IsSurrogate(u)
    ensures !MustEscape(u) && !IsSurrogate(u) ==> EscapeUnit(u) == [u]
    ensures |EscapeUnit(u)| >= 1
  {
  }

  lemma {:induction false} BodyIsNoShorter(s: Str)
    ensures |StringBody(s)| >= |s|
    decreases |s|
  {
    if s != [] {
      if IsPair(s) {
        BodyIsNoShorter(s[2..]);
      } else {
        EscapeLength(s[0]);
        BodyIsNoShorter(s[1..]);
      }
    }
  }

  /** A string is written as it is exactly if it holds no quote, backslash, control character or lone surrogate;
      everything else, pairs and other letters of any script included, stands for itself. */
  lemma {:induction false} WrittenAsItIsExactly(s: Str)
    ensures StringBody(s) == s <==> (forall u <- s :: !MustEscape(u)) && !HasLoneSurrogate(s)
    decreases |s|
  {
    if s == [] {
    } else if IsPair(s) {
      HeadAndTail(s);
      WrittenAsItIsExactly(s[2..]);
      SamePairBody(s, StringBody(s[2..]));
      assert s == [s[0], s[1]] + s[2..];
    } else {
      HeadAndTail(s);
      EscapeLength(s[0]);
      WrittenAsItIsExactly(s[1..]);
      BodyIsNoShorter(s[1..]);
      SameUnitBody(s, EscapeUnit(s[0]), StringBody(s[1..]));
    }
  }

  lemma SamePairBody(s: Str, body: Str)
    requires |s| > 1
    ensures [s[0], s[1]] + body == s <==> body == s[2..]
  {
    if [s[0], s[1]] + body == s {
      assert ([s[0], s[1]] + body)[2..] == body;
    }
  }

  lemma SameUnitBody(s: Str, piece: Str, body: Str)
    requires s != [] && |piece| >= 1 && |body| >= |s| - 1 && (|piece| == 1 ==> piece == [s[0]])
    ensures piece + body == s <==> |piece| == 1 && body == s[1..]
  {
    if piece + body == s {
      assert |piece| + |body| == |s|;
      assert ([s[0]] + body)[1..] == body;
    }
    if |piece| == 1 && body == s[1..] {
      assert [s[0]] + s[1..] == s;
    }
  }

  /** How the others are written: seven have a letter, the rest four lower-case hexadecimal digits of their value. */
  lemma EscapesExactly(u: Unit)
    requires MustEscape(u) || IsSurrogate(u)
    ensures EscapeUnit(u) ==
      if u == 0x22 then Ascii("\\\"") else if u == 0x5C then Ascii("\\\\")
      else if u == 0x08 then Ascii("\\b") else if u == 0x09 then Ascii("\\t") else if u == 0x0A then Ascii("\\n")
      else if u == 0x0C then Ascii("\\f") else if u == 0x0D then Ascii("\\r")
      else Ascii("\\u") + HexText(u)
    ensures var h := HexText(u);
            |h| == 4 && FourHexDigits(h[0], h[1], h[2], h[3]) == Got(u, [])
            && forall c <- h :: IsDigit(c) || 0x61 <= c <= 0x66
  {
    HexDigitsOfUnit(u);
    HexIsLowerCase(u);
  }

  lemma HexIsLowerCase(u: Unit)
    ensures forall c <- HexText(u) :: IsDigit(c) || 0x61 <= c <= 0x66
  {
  }
}
