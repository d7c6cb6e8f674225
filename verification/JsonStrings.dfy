/**
 String literals as `JSON.stringify` writes them (section 3.2.2.2 of RFC 8785, and `\uXXXX` for a
 surrogate without its partner), and a reader of string literals.
 */
module JsonStrings {
  import opened Text

  const QUOTE: Unit := 0x22
  const BACKSLASH: Unit := 0x5C
  const LETTER_U: Unit := 0x75

  datatype Read<T> = Fail | Got(value: T, rest: Str)

  predicate IsSurrogate(u: Unit) {
    0xD800 <= u < 0xE000
  }

  predicate IsPair(s: Str) {
    |s| > 1 && 0xD800 <= s[0] < 0xDC00 && 0xDC00 <= s[1] < 0xE000
  }

  function HexDigit(d: nat): Unit
    requires d < 16
  {
    if d < 10 then 0x30 + d else 0x57 + d
  }

  function HexText(u: Unit): Str {
    [HexDigit(u / 0x1000), HexDigit(u / 0x100 % 16), HexDigit(u / 16 % 16), HexDigit(u % 16)]
  }

  /** The letter of a two-character escape, if the unit has one. */
  function ShortEscape(u: Unit): (letter: Unit) {
    if u == QUOTE then QUOTE
    else if u == BACKSLASH then BACKSLASH
    else if u == 0x08 then 0x62
    else if u == 0x09 then 0x74
    else if u == 0x0A then 0x6E
    else if u == 0x0C then 0x66
    else if u == 0x0D then 0x72
    else 0
  }

  function EscapeUnit(u: Unit): Str {
    if ShortEscape(u) != 0 then [BACKSLASH, ShortEscape(u)]
    else if u < 0x20 || IsSurrogate(u) then [BACKSLASH, LETTER_U] + HexText(u)
    else [u]
  }

  function StringBody(s: Str): Str {
    if s == [] then []
    else if IsPair(s) then [s[0], s[1]] + StringBody(s[2..])
    else EscapeUnit(s[0]) + StringBody(s[1..])
  }

  function StringText(s: Str): Str {
    [QUOTE] + StringBody(s) + [QUOTE]
  }

  // ---------------------------------------------------------------- reading

  function HexValue(c: Unit): (r: Read<nat>)
    ensures r.Got? ==> r.value < 16
  {
    if 0x30 <= c < 0x3A then Got(c - 0x30, [])
    else if 0x61 <= c < 0x67 then Got(c - 0x57, [])
    else if 0x41 <= c < 0x47 then Got(c - 0x37, [])
    else Fail
  }

  function FourHexDigits(p: Unit, q: Unit, r: Unit, s: Unit): Read<Unit> {
    var a, b, c, d := HexValue(p), HexValue(q), HexValue(r), HexValue(s);
    if a.Got? && b.Got? && c.Got? && d.Got? then
      Got(a.value * 0x1000 + b.value * 0x100 + c.value * 16 + d.value, [])
    else Fail
  }

  function Unescape(letter: Unit): Read<Unit> {
    if letter == QUOTE || letter == BACKSLASH || letter == 0x2F then Got(letter, [])
    else if letter == 0x62 then Got(0x08, [])
    else if letter == 0x74 then Got(0x09, [])
    else if letter == 0x6E then Got(0x0A, [])
    else if letter == 0x66 then Got(0x0C, [])
    else if letter == 0x72 then Got(0x0D, [])
    else Fail
  }

  /** One code unit of a string body. */
  function ReadUnit(t: Str): (r: Read<Unit>)
    ensures r.Got? ==> |r.rest| < |t|
  {
    if t == [] || t[0] < 0x20 || t[0] == QUOTE then Fail
    else if t[0] != BACKSLASH then Got(t[0], t[1..])
    else if |t| < 2 then Fail
    else if t[1] == LETTER_U then
      if |t| < 6 then Fail
      else
        var u := FourHexDigits(t[2], t[3], t[4], t[5]);
        if u.Got? then Got(u.value, t[6..]) else Fail
    else
      var u := Unescape(t[1]);
      if u.Got? then Got(u.value, t[2..]) else Fail
  }

  /** Everything up to the closing quote. */
  function ReadBody(t: Str): (r: Read<Str>)
    ensures r.Got? ==> |r.rest| < |t|
    decreases |t|
  {
    if t == [] then Fail
    else if t[0] == QUOTE then Got([], t[1..])
    else
      var u := ReadUnit(t);
      if u.Fail? then Fail
      else
        var r := ReadBody(u.rest);
        if r.Fail? then Fail else Got([u.value] + r.value, r.rest)
  }

  function ReadString(t: Str): (r: Read<Str>)
    ensures r.Got? ==> |r.rest| < |t|
  {
    if t == [] || t[0] != QUOTE then Fail else ReadBody(t[1..])
  }

  // ---------------------------------------------------------------- reading undoes writing

  lemma HexValueOfDigit(d: nat)
    requires d < 16
    ensures HexValue(HexDigit(d)) == Got(d, [])
  {
  }

  lemma FourDigitsOf(u: Unit, a: nat, b: nat, c: nat, d: nat)
    requires a < 16 && b < 16 && c < 16 && d < 16
    requires u == a * 0x1000 + b * 0x100 + c * 16 + d
    ensures FourHexDigits(HexDigit(a), HexDigit(b), HexDigit(c), HexDigit(d)) == Got(u, [])
  {
    HexValueOfDigit(a);
    HexValueOfDigit(b);
    HexValueOfDigit(c);
    HexValueOfDigit(d);
  }

  lemma HexDigitsAddUp(u: Unit)
    ensures u == u / 0x1000 * 0x1000 + u / 0x100 % 16 * 0x100 + u / 16 % 16 * 16 + u % 16
  {
    assert u / 16 / 16 == u / 0x100;
    assert u / 0x100 / 16 == u / 0x1000;
  }

  lemma HexDigitsOfUnit(u: Unit)
    ensures FourHexDigits(HexDigit(u / 0x1000), HexDigit(u / 0x100 % 16), HexDigit(u / 16 % 16), HexDigit(u % 16)) == Got(u, [])
  {
    HexDigitsAddUp(u);
    FourDigitsOf(u, u / 0x1000, u / 0x100 % 16, u / 16 % 16, u % 16);
  }

  lemma ReadFourDigits(p: Unit, q: Unit, r: Unit, s: Unit, tail: Str)
    requires FourHexDigits(p, q, r, s).Got?
    ensures ReadUnit([BACKSLASH, LETTER_U] + [p, q, r, s] + tail) == Got(FourHexDigits(p, q, r, s).value, tail)
  {
    assert ([BACKSLASH, LETTER_U] + [p, q, r, s] + tail)[6..] == tail;
  }

  lemma ReadHex(u: Unit, tail: Str)
    ensures ReadUnit([BACKSLASH, LETTER_U] + HexText(u) + tail) == Got(u, tail)
  {
    HexDigitsOfUnit(u);
    ReadFourDigits(HexDigit(u / 0x1000), HexDigit(u / 0x100 % 16), HexDigit(u / 16 % 16), HexDigit(u % 16), tail);
  }

  lemma ReadShortEscape(u: Unit, tail: Str)
    requires ShortEscape(u) != 0
    ensures ReadUnit([BACKSLASH, ShortEscape(u)] + tail) == Got(u, tail)
  {
    assert ([BACKSLASH, ShortEscape(u)] + tail)[2..] == tail;
  }

  lemma ReadUnitOfEscape(u: Unit, tail: Str)
    ensures ReadUnit(EscapeUnit(u) + tail) == Got(u, tail)
    ensures EscapeUnit(u)[0] != QUOTE
  {
    if ShortEscape(u) != 0 {
      ReadShortEscape(u, tail);
    } else if u < 0x20 || IsSurrogate(u) {
      ReadHex(u, tail);
    } else {
      assert ([u] + tail)[1..] == tail;
    }
  }

  lemma ReadBodyStep(u: Unit, piece: Str, body: Str, end: Str, s: Str, rest: Str)
    requires piece != [] && piece[0] != QUOTE
    requires ReadUnit(piece + (body + end)) == Got(u, body + end) && ReadBody(body + end) == Got(s, rest)
    ensures ReadBody(piece + body + end) == Got([u] + s, rest)
  {
    assert piece + body + end == piece + (body + end);
  }

  lemma ReadUnitRaw(u: Unit, tail: Str)
    requires IsSurrogate(u)
    ensures ReadUnit([u] + tail) == Got(u, tail)
  {
    assert ([u] + tail)[1..] == tail;
  }

  lemma HeadAndTail(s: Str)
    requires s != []
    ensures [s[0]] + s[1..] == s
    ensures |s| > 1 ==> [s[0]] + ([s[1]] + s[2..]) == s
  {
  }

  /** Every string is read back, lone surrogates, control characters and quotes included. */
  lemma {:induction false} ReadBodyOfText(s: Str, rest: Str)
    ensures ReadBody(StringBody(s) + ([QUOTE] + rest)) == Got(s, rest)
    decreases |s|
  {
    if s == [] {
      assert StringBody(s) + ([QUOTE] + rest) == [QUOTE] + rest;
      assert ([QUOTE] + rest)[1..] == rest;
    } else {
      HeadAndTail(s);
      if IsPair(s) {
        ReadBodyOfText(s[2..], rest);
        ReadBodyOfPair(s[0], s[1], StringBody(s[2..]), [QUOTE] + rest, s[2..], rest);
      } else {
        ReadBodyOfText(s[1..], rest);
        ReadBodyOfUnit(s[0], StringBody(s[1..]), [QUOTE] + rest, s[1..], rest);
      }
    }
  }

  lemma ReadBodyOfUnit(u: Unit, body: Str, end: Str, s: Str, rest: Str)
    requires ReadBody(body + end) == Got(s, rest)
    ensures ReadBody(EscapeUnit(u) + body + end) == Got([u] + s, rest)
  {
    ReadUnitOfEscape(u, body + end);
    ReadBodyStep(u, EscapeUnit(u), body, end, s, rest);
  }

  lemma ReadBodyOfPair(high: Unit, low: Unit, body: Str, end: Str, s: Str, rest: Str)
    requires IsSurrogate(high) && IsSurrogate(low)
    requires ReadBody(body + end) == Got(s, rest)
    ensures ReadBody([high, low] + body + end) == Got([high] + ([low] + s), rest)
  {
    ReadUnitRaw(low, body + end);
    ReadBodyStep(low, [low], body, end, s, rest);
    ReadUnitRaw(high, [low] + body + end);
    ReadBodyStep(high, [high], [low] + body, end, [low] + s, rest);
    assert [high, low] + body == [high] + ([low] + body);
  }

  lemma BetweenQuotes(body: Str, rest: Str)
    ensures [QUOTE] + body + [QUOTE] + rest == [QUOTE] + (body + ([QUOTE] + rest))
    ensures ([QUOTE] + (body + ([QUOTE] + rest)))[1..] == body + ([QUOTE] + rest)
  {
  }

  lemma ReadStringBetween(body: Str, rest: Str)
    ensures ReadString([QUOTE] + body + [QUOTE] + rest) == ReadBody(body + ([QUOTE] + rest))
  {
    BetweenQuotes(body, rest);
  }

  lemma ReadStringOfText(s: Str, rest: Str)
    ensures ReadString(StringText(s) + rest) == Got(s, rest)
  {
    ReadBodyOfText(s, rest);
    ReadStringBetween(StringBody(s), rest);
  }
}
