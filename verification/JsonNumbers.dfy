/**
 Finite JavaScript numbers through their shortest decimal digits, the text `JSON.stringify` gives
 them (Number::toString of ECMAScript, which section 3.2.2.3 of RFC 8785 adopts), and a reader of
 JSON number texts. A number 0.d1d2...dk * 10^exponent is kept as its digits and exponent; which digits
 are the shortest for a given binary64 value is not part of this model.
 */
module JsonNumbers {
  import opened Text

  type Digit = d: nat | d < 10

  datatype Number =
    | Zero(negative: bool)
    | Decimal(negative: bool, digits: seq<Digit>, exponent: int)
    | NonFinite

  predicate WellFormed(n: Number) {
    n.Decimal? ==> n.digits != [] && n.digits[0] != 0 && n.digits[|n.digits| - 1] != 0
  }

  const MINUS: Unit := 0x2D
  const PLUS: Unit := 0x2B
  const POINT: Unit := 0x2E
  const LETTER_E: Unit := 0x65
  const DIGIT_0: Unit := 0x30

  function DigitText(ds: seq<Digit>): (t: Str)
    ensures |t| == |ds| && forall i | 0 <= i < |ds| :: t[i] == DIGIT_0 + ds[i]
  {
    seq(|ds|, i requires 0 <= i < |ds| => DIGIT_0 + ds[i])
  }

  function Zeros(n: nat): (ds: seq<Digit>)
    ensures |ds| == n && forall i | 0 <= i < n :: ds[i] == 0
  {
    seq(n, _ => 0)
  }

  function DecimalDigits(n: nat): (ds: seq<Digit>)
    ensures ds != [] && (n > 0 ==> ds[0] != 0)
  {
    if n < 10 then [n] else DecimalDigits(n / 10) + [n % 10]
  }

  function ValueOf(ds: seq<Digit>): nat {
    if ds == [] then 0 else ValueOf(ds[..|ds| - 1]) * 10 + ds[|ds| - 1]
  }

  lemma {:induction false} ValueOfDecimalDigits(n: nat)
    ensures ValueOf(DecimalDigits(n)) == n
  {
    if n >= 10 {
      ValueOfDecimalDigits(n / 10);
      assert DecimalDigits(n)[..|DecimalDigits(n)| - 1] == DecimalDigits(n / 10);
    } else {
      assert [n][..0] == [];
    }
  }

  // ---------------------------------------------------------------- printing

  function Magnitude(ds: seq<Digit>, n: int): Str
    requires ds != []
  {
    var k := |ds|;
    if k <= n <= 21 then DigitText(ds + Zeros(n - k))
    else if 0 < n <= 21 then Pointed(ds[..n], ds[n..])
    else if -6 < n <= 0 then Pointed([0], Zeros(-n) + ds)
    else if k == 1 then DigitText(ds) + ExponentText(n - 1)
    else Pointed(ds[..1], ds[1..]) + ExponentText(n - 1)
  }

  function Pointed(whole: seq<Digit>, fraction: seq<Digit>): Str {
    DigitText(whole) + [POINT] + DigitText(fraction)
  }

  function ExponentText(e: int): Str {
    [LETTER_E, if e < 0 then MINUS else PLUS] + DigitText(DecimalDigits(if e < 0 then -e else e))
  }

  function NumberText(n: Number): Str
    requires WellFormed(n) && !n.NonFinite?
  {
    match n
    case Zero(_) => DigitText([0])
    case Decimal(negative, ds, e) => (if negative then [MINUS] else []) + Magnitude(ds, e)
  }

  // ---------------------------------------------------------------- reading

  predicate StartsWithDigit(s: Str) {
    s != [] && DIGIT_0 <= s[0] < DIGIT_0 + 10
  }

  function TakeDigits(s: Str): (r: (seq<Digit>, Str))
    ensures |r.1| <= |s| && |r.1| + |r.0| == |s|
  {
    if StartsWithDigit(s) then
      var r := TakeDigits(s[1..]);
      ([s[0] - DIGIT_0] + r.0, r.1)
    else ([], s)
  }

  function LeadingZeros(ds: seq<Digit>): (n: nat)
    ensures n <= |ds|
  {
    if ds == [] || ds[0] != 0 then 0 else 1 + LeadingZeros(ds[1..])
  }

  function DropTrailingZeros(ds: seq<Digit>): (r: seq<Digit>)
    ensures |r| <= |ds| && r == ds[..|r|]
    ensures r != [] ==> r[|r| - 1] != 0
    ensures forall i | |r| <= i < |ds| :: ds[i] == 0
  {
    if ds == [] || ds[|ds| - 1] != 0 then ds else DropTrailingZeros(ds[..|ds| - 1])
  }

  /** The number 0.ds * 10^point. */
  function FromDigits(negative: bool, ds: seq<Digit>, point: int): Number {
    var z := LeadingZeros(ds);
    var core := DropTrailingZeros(ds[z..]);
    if core == [] then Zero(negative) else Decimal(negative, core, point - z)
  }

  function ReadFraction(s: Str): (r: (seq<Digit>, Str))
    ensures |r.1| <= |s|
  {
    if s != [] && s[0] == POINT then TakeDigits(s[1..]) else ([], s)
  }

  function ReadExponent(s: Str): (r: (int, Str))
    ensures |r.1| <= |s|
  {
    if |s| > 1 && s[0] == LETTER_E && s[1] == MINUS then
      var r := TakeDigits(s[2..]); ((0 - ValueOf(r.0)) as int, r.1)
    else if |s| > 1 && s[0] == LETTER_E && s[1] == PLUS then
      var r := TakeDigits(s[2..]); (ValueOf(r.0), r.1)
    else (0, s)
  }

  datatype Parts = Parts(whole: seq<Digit>, fraction: seq<Digit>, exponent: int, rest: Str)

  function ReadParts(s: Str): (p: Parts)
    ensures |p.rest| <= |s| && (StartsWithDigit(s) ==> |p.rest| < |s|)
  {
    var whole := TakeDigits(s);
    var fraction := ReadFraction(whole.1);
    var exponent := ReadExponent(fraction.1);
    Parts(whole.0, fraction.0, exponent.0, exponent.1)
  }

  function Assemble(negative: bool, p: Parts): (Number, Str) {
    (FromDigits(negative, p.whole + p.fraction, |p.whole| + p.exponent), p.rest)
  }

  function ReadNumber(s: Str): (r: (Number, Str))
    ensures |r.1| <= |s| && (s != [] && (s[0] == MINUS || StartsWithDigit(s)) ==> |r.1| < |s|)
  {
    if s != [] && s[0] == MINUS then Assemble(true, ReadParts(s[1..])) else Assemble(false, ReadParts(s))
  }

  // ---------------------------------------------------------------- reading undoes printing

  /** What may follow a number: nothing that could extend it. */
  predicate EndsNumber(s: Str) {
    !StartsWithDigit(s) && (s != [] ==> s[0] != POINT && s[0] != LETTER_E)
  }

  lemma {:induction false} TakeDigitsOfText(ds: seq<Digit>, rest: Str)
    requires !StartsWithDigit(rest)
    ensures TakeDigits(DigitText(ds) + rest) == (ds, rest)
  {
    var s := DigitText(ds) + rest;
    if ds == [] {
      assert s == rest;
    } else {
      TakeDigitsOfText(ds[1..], rest);
      assert s[1..] == DigitText(ds[1..]) + rest;
      assert [ds[0]] + ds[1..] == ds;
    }
  }

  lemma {:induction false} LeadingZerosOf(a: nat, ds: seq<Digit>)
    requires ds != [] && ds[0] != 0
    ensures LeadingZeros(Zeros(a) + ds) == a
  {
    if a > 0 {
      LeadingZerosOf(a - 1, ds);
      assert (Zeros(a) + ds)[1..] == Zeros(a - 1) + ds;
    } else {
      assert Zeros(a) + ds == ds;
    }
  }

  lemma {:induction false} DropTrailingZerosOf(ds: seq<Digit>, b: nat)
    requires ds != [] && ds[|ds| - 1] != 0
    ensures DropTrailingZeros(ds + Zeros(b)) == ds
  {
    if b > 0 {
      DropTrailingZerosOf(ds, b - 1);
      assert (ds + Zeros(b))[..|ds| + b - 1] == ds + Zeros(b - 1);
    } else {
      assert ds + Zeros(b) == ds;
    }
  }

  /** Zeros written around the digits do not change the number read. */
  lemma FromPaddedDigits(negative: bool, a: nat, ds: seq<Digit>, b: nat, all: seq<Digit>, point: int)
    requires WellFormed(Decimal(negative, ds, 0))
    requires all == Zeros(a) + ds + Zeros(b)
    ensures FromDigits(negative, all, point) == Decimal(negative, ds, point - a)
  {
    var tail := ds + Zeros(b);
    AfterZeros(a, ds, b, all);
    LeadingZerosOf(a, tail);
    DropTrailingZerosOf(ds, b);
    FromTail(negative, all, a, tail, ds, point);
  }

  lemma FromTail(negative: bool, all: seq<Digit>, a: nat, tail: seq<Digit>, ds: seq<Digit>, point: int)
    requires LeadingZeros(all) == a && a <= |all| && all[a..] == tail && DropTrailingZeros(tail) == ds != []
    ensures FromDigits(negative, all, point) == Decimal(negative, ds, point - a)
  {
  }

  lemma AfterZeros(a: nat, ds: seq<Digit>, b: nat, all: seq<Digit>)
    requires all == Zeros(a) + ds + Zeros(b)
    ensures all == Zeros(a) + (ds + Zeros(b)) && all[a..] == ds + Zeros(b)
  {
  }

  lemma SignAndDigits(sign: Unit, digits: Str, rest: Str)
    ensures var t := [LETTER_E, sign] + digits + rest;
            |t| > 1 && t[0] == LETTER_E && t[1] == sign && t[2..] == digits + rest
  {
  }

  lemma ReadExponentText(e: int, rest: Str)
    requires EndsNumber(rest)
    ensures ReadExponent(ExponentText(e) + rest) == (e, rest)
  {
    var m: nat := if e < 0 then -e else e;
    SignAndDigits(if e < 0 then MINUS else PLUS, DigitText(DecimalDigits(m)), rest);
    TakeDigitsOfText(DecimalDigits(m), rest);
    ValueOfDecimalDigits(m);
  }

  /** What may follow the digits of a number: an exponent or the end. */
  predicate EndsDigits(s: Str) {
    !StartsWithDigit(s) && (s != [] ==> s[0] != POINT)
  }

  lemma ReadWhole(whole: seq<Digit>, exponent: Str, e: int, rest: Str)
    requires EndsDigits(exponent) && ReadExponent(exponent) == (e, rest)
    ensures ReadParts(DigitText(whole) + exponent) == Parts(whole, [], e, rest)
  {
    TakeDigitsOfText(whole, exponent);
  }

  lemma Regroup(a: Str, b: Str, c: Str, d: Str)
    ensures (a + b + c) + d == a + (b + (c + d))
    ensures (a + b) + c == a + (b + c)
  {
  }

  lemma ReadWithFraction(whole: seq<Digit>, fraction: seq<Digit>, exponent: Str, e: int, rest: Str)
    requires EndsDigits(exponent) && ReadExponent(exponent) == (e, rest)
    ensures ReadParts(Pointed(whole, fraction) + exponent) == Parts(whole, fraction, e, rest)
  {
    var after := DigitText(fraction) + exponent;
    var tail := [POINT] + after;
    Regroup(DigitText(whole), [POINT], DigitText(fraction), exponent);
    assert TakeDigits(DigitText(whole) + tail) == (whole, tail) by {
      TakeDigitsOfText(whole, tail);
    }
    assert ReadFraction(tail) == (fraction, exponent) by {
      assert tail[1..] == after;
      TakeDigitsOfText(fraction, exponent);
    }
  }

  /** The five layouts are read back into parts that all denote the number printed. */
  ghost predicate Denotes(p: Parts, ds: seq<Digit>, n: int) {
    exists a: nat, b: nat :: Padded(p.whole + p.fraction, a, ds, b) && |p.whole| + p.exponent - a == n
  }

  predicate Padded(all: seq<Digit>, a: nat, ds: seq<Digit>, b: nat) {
    all == Zeros(a) + ds + Zeros(b)
  }

  lemma ReadInteger(ds: seq<Digit>, n: int, rest: Str)
    requires ds != [] && EndsNumber(rest) && |ds| <= n
    ensures var p := ReadParts(DigitText(ds + Zeros(n - |ds|)) + rest); p.rest == rest && Denotes(p, ds, n)
  {
    ReadWhole(ds + Zeros(n - |ds|), rest, 0, rest);
    assert Padded(ds + Zeros(n - |ds|) + [], 0, ds, n - |ds|);
  }

  lemma ReadSplit(ds: seq<Digit>, n: int, rest: Str)
    requires EndsNumber(rest) && 0 < n < |ds|
    ensures var p := ReadParts(Pointed(ds[..n], ds[n..]) + rest); p.rest == rest && Denotes(p, ds, n)
  {
    ReadWithFraction(ds[..n], ds[n..], rest, 0, rest);
    assert Padded(ds[..n] + ds[n..], 0, ds, 0);
  }

  lemma ReadSmall(ds: seq<Digit>, n: int, rest: Str)
    requires ds != [] && EndsNumber(rest) && n <= 0
    ensures var p := ReadParts(Pointed([0], Zeros(-n) + ds) + rest); p.rest == rest && Denotes(p, ds, n)
  {
    ReadWithFraction([0], Zeros(-n) + ds, rest, 0, rest);
    assert Padded([0] + (Zeros(-n) + ds), 1 - n, ds, 0);
  }

  lemma ReadUnscaled(ds: seq<Digit>, n: int, rest: Str)
    requires ds != [] && EndsNumber(rest)
    requires -6 < n <= 21
    ensures var p := ReadParts(Magnitude(ds, n) + rest); p.rest == rest && Denotes(p, ds, n)
    ensures StartsWithDigit(Magnitude(ds, n))
  {
    if |ds| <= n {
      ReadInteger(ds, n, rest);
    } else if 0 < n {
      ReadSplit(ds, n, rest);
    } else {
      ReadSmall(ds, n, rest);
    }
  }

  lemma ReadScientific(ds: seq<Digit>, n: int, rest: Str)
    requires ds != [] && EndsNumber(rest)
    requires n <= -6 || n > 21
    ensures var p := ReadParts(Magnitude(ds, n) + rest); p.rest == rest && Denotes(p, ds, n)
    ensures StartsWithDigit(Magnitude(ds, n))
  {
    var e := ExponentText(n - 1);
    assert (e + rest)[0] == LETTER_E;
    ReadExponentText(n - 1, rest);
    if |ds| == 1 {
      Regroup(DigitText(ds), e, rest, []);
      ReadOneScaled(ds, e + rest, n, rest);
    } else {
      Regroup(Pointed(ds[..1], ds[1..]), e, rest, []);
      ReadManyScaled(ds, e + rest, n, rest);
    }
  }

  lemma ReadOneScaled(ds: seq<Digit>, exponent: Str, n: int, rest: Str)
    requires |ds| == 1 && EndsDigits(exponent) && ReadExponent(exponent) == (n - 1, rest)
    ensures var p := ReadParts(DigitText(ds) + exponent); p.rest == rest && Denotes(p, ds, n)
  {
    ReadWhole(ds, exponent, n - 1, rest);
    assert Padded(ds + [], 0, ds, 0);
  }

  lemma ReadManyScaled(ds: seq<Digit>, exponent: Str, n: int, rest: Str)
    requires |ds| > 1 && EndsDigits(exponent) && ReadExponent(exponent) == (n - 1, rest)
    ensures var p := ReadParts(Pointed(ds[..1], ds[1..]) + exponent); p.rest == rest && Denotes(p, ds, n)
  {
    ReadWithFraction(ds[..1], ds[1..], exponent, n - 1, rest);
    assert Padded(ds[..1] + ds[1..], 0, ds, 0);
  }

  lemma AssemblePadded(negative: bool, p: Parts, all: seq<Digit>, a: nat, ds: seq<Digit>, b: nat, n: int)
    requires all == p.whole + p.fraction && Padded(all, a, ds, b) && WellFormed(Decimal(negative, ds, n))
    requires |p.whole| + p.exponent - a == n
    ensures Assemble(negative, p) == (Decimal(negative, ds, n), p.rest)
  {
    FromPaddedDigits(negative, a, ds, b, all, |p.whole| + p.exponent);
  }

  lemma AssembleDenoted(negative: bool, p: Parts, ds: seq<Digit>, n: int)
    requires WellFormed(Decimal(negative, ds, n)) && Denotes(p, ds, n)
    ensures Assemble(negative, p) == (Decimal(negative, ds, n), p.rest)
  {
    var a: nat, b: nat :| Padded(p.whole + p.fraction, a, ds, b) && |p.whole| + p.exponent - a == n;
    AssemblePadded(negative, p, p.whole + p.fraction, a, ds, b, n);
  }

  lemma AssembleMagnitude(negative: bool, ds: seq<Digit>, n: int, rest: Str)
    requires WellFormed(Decimal(negative, ds, n)) && EndsNumber(rest)
    ensures Assemble(negative, ReadParts(Magnitude(ds, n) + rest)) == (Decimal(negative, ds, n), rest)
    ensures StartsWithDigit(Magnitude(ds, n))
  {
    if -6 < n <= 21 {
      ReadUnscaled(ds, n, rest);
    } else {
      ReadScientific(ds, n, rest);
    }
    AssembleDenoted(negative, ReadParts(Magnitude(ds, n) + rest), ds, n);
  }

  /** The sign of zero is the only thing a number's text loses. */
  function Unsigned(n: Number): Number {
    if n.Zero? then Zero(false) else n
  }

  lemma ReadZero(rest: Str)
    requires EndsNumber(rest)
    ensures Assemble(false, ReadParts(DigitText([0]) + rest)) == (Zero(false), rest)
  {
    var zero: seq<Digit> := [0];
    ReadWhole(zero, rest, 0, rest);
    assert zero + [] == zero && zero[1..] == [];
    assert LeadingZeros(zero) == 1;
  }

  lemma ReadSigned(negative: bool, magnitude: Str, tail: Str, r: (Number, Str))
    requires StartsWithDigit(magnitude)
    requires Assemble(negative, ReadParts(magnitude + tail)) == r
    ensures ReadNumber((if negative then [MINUS] else []) + magnitude + tail) == r
  {
    if negative {
      MinusInFront(magnitude, tail);
    } else {
      NothingInFront(magnitude);
    }
  }

  lemma MinusInFront(magnitude: Str, tail: Str)
    ensures ([MINUS] + magnitude + tail)[0] == MINUS && ([MINUS] + magnitude + tail)[1..] == magnitude + tail
  {
  }

  lemma NothingInFront(magnitude: Str)
    ensures [] + magnitude == magnitude
  {
  }

  lemma ReadNumberOfText(n: Number, rest: Str)
    requires WellFormed(n) && !n.NonFinite? && EndsNumber(rest)
    ensures ReadNumber(NumberText(n) + rest) == (Unsigned(n), rest)
    ensures NumberText(n) != [] && (NumberText(n)[0] == MINUS || StartsWithDigit(NumberText(n)))
  {
    if n.Zero? {
      ReadZero(rest);
    } else {
      AssembleMagnitude(n.negative, n.digits, n.exponent, rest);
      ReadSigned(n.negative, Magnitude(n.digits, n.exponent), rest, (n, rest));
    }
  }

  // ---------------------------------------------------------------- integers

  function FromNat(n: nat): (r: Number)
    ensures WellFormed(r) && !r.NonFinite? && Unsigned(r) == r
  {
    if n == 0 then Zero(false)
    else
      var ds := DecimalDigits(n);
      var core := DropTrailingZeros(ds);
      if core == [] then Zero(false) else Decimal(false, core, |ds|)
  }

  /** Integers keep their value: no two have the same digits and exponent. */
  lemma FromNatIsInjective(a: nat, b: nat)
    requires FromNat(a) == FromNat(b)
    ensures a == b
  {
    if a > 0 {
      DigitsFromNat(a);
    }
    if b > 0 {
      DigitsFromNat(b);
    }
  }

  lemma DigitsFromNat(n: nat)
    requires n > 0
    ensures var r := FromNat(n);
            r.Decimal? && |r.digits| <= r.exponent && n == ValueOf(r.digits + Zeros(r.exponent - |r.digits|))
  {
    var ds := DecimalDigits(n);
    var core := DropTrailingZeros(ds);
    assert ds[0] != 0;
    assert core + Zeros(|ds| - |core|) == ds;
    ValueOfDecimalDigits(n);
  }
}
