/**
 For which inputs splitting a command line undoes building it: exactly (`RoundTripExactly`), whichever
 quoter built the line and whichever runtime splits it.
 */
module CommandLineLaws {
  import opened CommandLine
  import opened CommandLineRules
  import Text

  // ---------------------------------------------------------------- arguments

  predicate AtBoundary(s: string) {
    s == [] || IsSeparator(s[0])
  }

  lemma {:induction false} SlashesOfRun(n: nat, r: string)
    requires r == [] || r[0] != '\\'
    ensures Slashes(Repeat('\\', n) + r) == n
  {
    if n > 0 {
      SlashesOfRun(n - 1, r);
      assert (Repeat('\\', n) + r)[1..] == Repeat('\\', n - 1) + r;
    } else {
      assert Repeat('\\', n) + r == r;
    }
  }

  lemma ScanRun(rt: Runtime, n: nat, r: string, inQuotes: bool)
    requires r == [] || r[0] != '\\'
    ensures Scan(rt, Repeat('\\', n) + r, inQuotes) == ScanAfterSlashes(rt, n, r, inQuotes)
  {
    SlashesOfRun(n, r);
    assert (Repeat('\\', n) + r)[n..] == r;
  }

  lemma ScanLiteralQuote(rt: Runtime, n: nat, inner: string, t: Token)
    requires t == Scan(rt, inner, true)
    ensures Scan(rt, Repeat('\\', n * 2 + 1) + (['"'] + inner), true)
         == Token(Repeat('\\', n) + ['"'] + t.text, t.rest)
  {
    ScanRun(rt, n * 2 + 1, ['"'] + inner, true);
    assert (['"'] + inner)[1..] == inner;
    assert (n * 2 + 1) / 2 == n;
  }

  lemma ScanOrdinary(rt: Runtime, n: nat, c: char, inner: string, inQuotes: bool, t: Token)
    requires c != '\\' && c != '"' && (inQuotes || !IsSeparator(c))
    requires t == Scan(rt, inner, inQuotes)
    ensures Scan(rt, Repeat('\\', n) + ([c] + inner), inQuotes)
         == Token(Repeat('\\', n) + [c] + t.text, t.rest)
  {
    ScanRun(rt, n, [c] + inner, inQuotes);
    assert ([c] + inner)[1..] == inner;
  }

  lemma ScanAtBoundary(rt: Runtime, tail: string)
    requires AtBoundary(tail)
    ensures Scan(rt, tail, false) == Token([], tail)
  {
    ScanRun(rt, 0, tail, false);
    assert Repeat('\\', 0) + tail == tail;
  }

  lemma ScanClosingQuote(rt: Runtime, pending: nat, tail: string)
    requires AtBoundary(tail)
    ensures Scan(rt, Repeat('\\', pending * 2) + (['"'] + tail), true) == Token(Repeat('\\', pending), tail)
  {
    var r := ['"'] + tail;
    ScanRun(rt, pending * 2, r, true);
    assert r[1..] == tail;
    ScanAtBoundary(rt, tail);
    HalfOfEven(pending);
    NothingBehind(pending);
  }

  lemma HalfOfEven(n: nat)
    ensures n * 2 / 2 == n && n * 2 % 2 == 0
  {
  }

  lemma NothingBehind(n: nat)
    ensures Repeat('\\', n) + [] == Repeat('\\', n)
  {
  }

  lemma EscapedEnd(pending: nat, tail: string)
    ensures Escaped([], pending) + ['"'] + tail == Repeat('\\', pending * 2) + (['"'] + tail)
    ensures Repeat('\\', pending) + [] == Repeat('\\', pending)
  {
  }

  lemma HoldBackOne(value: string, pending: nat)
    requires value != [] && value[0] == '\\'
    ensures Escaped(value, pending) == Escaped(value[1..], pending + 1)
    ensures Repeat('\\', pending + 1) + value[1..] == Repeat('\\', pending) + value
  {
  }

  /** Inside quotes the scanner recovers the value together with the backslashes held back. */
  lemma {:induction false} ScanEscaped(rt: Runtime, value: string, pending: nat, tail: string)
    requires AtBoundary(tail)
    ensures Scan(rt, Escaped(value, pending) + ['"'] + tail, true) == Token(Repeat('\\', pending) + value, tail)
    decreases |value|
  {
    if value == [] {
      ScanClosingQuote(rt, pending, tail);
      EscapedEnd(pending, tail);
    } else if value[0] == '\\' {
      ScanEscaped(rt, value[1..], pending + 1, tail);
      HoldBackOne(value, pending);
    } else {
      ScanEscapedStep(rt, value, pending, tail);
    }
  }

  lemma {:induction false} ScanEscapedStep(rt: Runtime, value: string, pending: nat, tail: string)
    requires AtBoundary(tail)
    requires value != [] && value[0] != '\\'
    ensures Scan(rt, Escaped(value, pending) + ['"'] + tail, true) == Token(Repeat('\\', pending) + value, tail)
    decreases |value|, 0
  {
    var c, rest := value[0], value[1..];
    var inner := Escaped(rest, 0) + ['"'] + tail;
    var t := Token(rest, tail);
    ScanEscaped(rt, rest, 0, tail);
    EmptyRun(rest);
    EscapedSplits(value, pending, tail);
    if c == '"' {
      ScanLiteralQuote(rt, pending, inner, t);
    } else {
      ScanOrdinary(rt, pending, c, inner, true, t);
    }
  }

  lemma EscapedSplits(value: string, pending: nat, tail: string)
    requires value != [] && value[0] != '\\'
    ensures var run := if value[0] == '"' then pending * 2 + 1 else pending;
            Escaped(value, pending) + ['"'] + tail
            == Repeat('\\', run) + ([value[0]] + (Escaped(value[1..], 0) + ['"'] + tail))
    ensures Repeat('\\', pending) + [value[0]] + value[1..] == Repeat('\\', pending) + value
  {
    var run := if value[0] == '"' then pending * 2 + 1 else pending;
    FourParts(Repeat('\\', run), [value[0]], Escaped(value[1..], 0), tail);
    assert [value[0]] + value[1..] == value;
    Regroup(Repeat('\\', pending), [value[0]], value[1..], []);
  }

  lemma FourParts(run: string, c: string, rest: string, tail: string)
    ensures (run + c + rest) + ['"'] + tail == run + (c + (rest + ['"'] + tail))
  {
  }

  predicate IsPlain(s: string) {
    forall i | 0 <= i < |s| :: !IsSeparator(s[i]) && s[i] != '"'
  }

  /** Without quotes, separators or quote characters every backslash stands for itself. */
  lemma {:induction false} ScanPlain(rt: Runtime, value: string, tail: string)
    requires IsPlain(value) && AtBoundary(tail)
    ensures Scan(rt, value + tail, false) == Token(value, tail)
    decreases |value|
  {
    var n := Slashes(value);
    if n == |value| {
      assert value == Repeat('\\', n);
      ScanRun(rt, n, tail, false);
    } else {
      var c, rest := value[n], value[n + 1..];
      assert value == Repeat('\\', n) + [c] + rest;
      assert value + tail == Repeat('\\', n) + ([c] + (rest + tail));
      ScanPlain(rt, rest, tail);
      ScanOrdinary(rt, n, c, rest + tail, false, Token(rest, tail));
    }
  }

  /** An opening quote switches the scanner into the quoted part. */
  lemma ScanOpeningQuote(rt: Runtime, inner: string)
    requires inner != []
    ensures Scan(rt, ['"'] + inner, false) == Scan(rt, inner, true)
  {
    ScanRun(rt, 0, ['"'] + inner, false);
    assert Repeat('\\', 0) + (['"'] + inner) == ['"'] + inner;
    assert (['"'] + inner)[1..] == inner;
    assert Repeat('\\', 0) + Scan(rt, inner, true).text == Scan(rt, inner, true).text;
  }

  lemma ScanInQuotes(rt: Runtime, value: string, tail: string)
    requires AtBoundary(tail)
    ensures Scan(rt, ['"'] + (Escaped(value, 0) + ['"'] + tail), false) == Token(value, tail)
  {
    ScanEscaped(rt, value, 0, tail);
    EmptyRun(value);
    ScanOpeningQuote(rt, Escaped(value, 0) + ['"'] + tail);
  }

  lemma ScanQuoted(rt: Runtime, q: Quoter, value: string, tail: string)
    requires AtBoundary(tail)
    ensures Scan(rt, Quoted(q, value) + tail, false) == Token(value, tail)
    ensures !AtBoundary(Quoted(q, value) + tail)
  {
    if NeedsQuotes(q, value) {
      ScanInQuotes(rt, value, tail);
      Regroup(['"'], Escaped(value, 0), ['"'], tail);
    } else {
      PlainWithoutQuotes(q, value);
      ScanPlain(rt, value, tail);
    }
  }

  lemma PlainWithoutQuotes(q: Quoter, value: string)
    requires !NeedsQuotes(q, value)
    ensures IsPlain(value) && value != []
  {
    assert forall i | 0 <= i < |value| :: !ForcesQuotes(q, value[i]);
  }

  lemma ArgumentsStep(rt: Runtime, rest: string, t: Token)
    requires !AtBoundary(rest) && Scan(rt, rest, false) == t
    ensures Arguments(rt, [' '] + rest) == [t.text] + Arguments(rt, t.rest)
  {
    assert ([' '] + rest)[1..] == rest;
  }

  /** Every list of arguments survives, including empty ones, quotes and runs of backslashes. */
  lemma {:induction false} ArgumentsOfTail(rt: Runtime, q: Quoter, args: seq<string>)
    ensures Arguments(rt, Tail(q, args)) == args
  {
    if args != [] {
      var tail := Tail(q, args[1..]);
      ArgumentsOfTail(rt, q, args[1..]);
      ScanQuoted(rt, q, args[0], tail);
      ArgumentsStep(rt, Quoted(q, args[0]) + tail, Token(args[0], tail));
      Regroup([' '], Quoted(q, args[0]), tail, []);
      assert args == [args[0]] + args[1..];
    }
  }

  // ---------------------------------------------------------------- argv[0]

  predicate EndsInSlash(s: string) {
    s != [] && s[|s| - 1] == '\\'
  }

  /** Without quote characters, escaping only doubles the backslashes at the end. */
  lemma {:induction false} EscapedWithoutQuotes(value: string, pending: nat)
    requires '"' !in value
    ensures exists k: nat :: (k > 0 <==> EndsInSlash(Repeat('\\', pending) + value))
              && Escaped(value, pending) == Repeat('\\', pending) + value + Repeat('\\', k)
    decreases |value|
  {
    if value == [] {
      assert Escaped(value, pending) == Repeat('\\', pending) + value + Repeat('\\', pending);
    } else if value[0] == '\\' {
      EscapedWithoutQuotes(value[1..], pending + 1);
      HoldBackOne(value, pending);
    } else {
      EscapedWithoutQuotes(value[1..], 0);
      var k: nat :| (k > 0 <==> EndsInSlash(Repeat('\\', 0) + value[1..]))
              && Escaped(value[1..], 0) == Repeat('\\', 0) + value[1..] + Repeat('\\', k);
      EscapedPlain(value, pending, k);
    }
  }

  lemma EscapedPlain(value: string, pending: nat, k: nat)
    requires value != [] && value[0] != '\\' && value[0] != '"'
    requires Escaped(value[1..], 0) == Repeat('\\', 0) + value[1..] + Repeat('\\', k)
    ensures Escaped(value, pending) == Repeat('\\', pending) + value + Repeat('\\', k)
    ensures EndsInSlash(Repeat('\\', 0) + value[1..]) <==> EndsInSlash(Repeat('\\', pending) + value)
  {
    EmptyRun(value[1..]);
    Regroup(Repeat('\\', pending), [value[0]], value[1..], Repeat('\\', k));
    assert [value[0]] + value[1..] == value;
  }

  lemma EmptyRun(s: string)
    ensures Repeat('\\', 0) + s == s
  {
  }

  lemma {:induction false} ProgramNameInQuotes(body: string, tail: string)
    requires '"' !in body && AtBoundary(tail)
    ensures ProgramName(body + ['"'] + tail, true) == Token(body, tail)
    decreases |body|
  {
    var s := body + ['"'] + tail;
    if body == [] {
      assert s[1..] == tail;
    } else {
      ProgramNameInQuotes(body[1..], tail);
      assert s[1..] == body[1..] + ['"'] + tail;
      assert [body[0]] + body[1..] == body;
    }
  }

  lemma {:induction false} ProgramNamePlain(body: string, tail: string)
    requires IsPlain(body) && AtBoundary(tail)
    ensures ProgramName(body + tail, false) == Token(body, tail)
    decreases |body|
  {
    if body != [] {
      ProgramNamePlain(body[1..], tail);
      assert (body + tail)[1..] == body[1..] + tail;
      assert [body[0]] + body[1..] == body;
    } else {
      assert body + tail == tail;
    }
  }

  lemma {:induction false} ProgramNameHasNoQuote(s: string, inQuotes: bool)
    ensures '"' !in ProgramName(s, inQuotes).text
    decreases |s|
  {
    if s != [] {
      ProgramNameHasNoQuote(s[1..], !inQuotes);
      ProgramNameHasNoQuote(s[1..], inQuotes);
    }
  }

  lemma ProgramNameQuoted(body: string, tail: string)
    requires '"' !in body && AtBoundary(tail)
    ensures ProgramName(['"'] + body + ['"'] + tail, false) == Token(body, tail)
  {
    var inner := body + ['"'] + tail;
    assert ['"'] + body + ['"'] + tail == ['"'] + inner;
    assert (['"'] + inner)[1..] == inner;
    ProgramNameInQuotes(body, tail);
  }

  /** For a program name without quotes the name read back differs only by doubled trailing backslashes. */
  lemma ProgramNameOfLine(q: Quoter, app: string, tail: string)
    requires '"' !in app && AtBoundary(tail)
    ensures var t := ProgramName(Quoted(q, app) + tail, false);
            && t.rest == tail
            && (t.text == app <==> !(NeedsQuotes(q, app) && EndsInSlash(app)))
  {
    if NeedsQuotes(q, app) {
      EscapedWithoutQuotes(app, 0);
      var k: nat :| (k > 0 <==> EndsInSlash(Repeat('\\', 0) + app))
              && Escaped(app, 0) == Repeat('\\', 0) + app + Repeat('\\', k);
      assert Repeat('\\', 0) + app == app;
      var body := app + Repeat('\\', k);
      ProgramNameQuoted(body, tail);
      assert |body| == |app| + k;
      assert k == 0 ==> body == app;
    } else {
      PlainWithoutQuotes(q, app);
      ProgramNamePlain(app, tail);
    }
  }

  // ---------------------------------------------------------------- NUL

  predicate NulFree(s: string) {
    '\0' !in s
  }

  lemma {:induction false} UpToNulIsIdentity(s: string)
    requires NulFree(s)
    ensures UpToNul(s) == s
  {
    if s != [] {
      UpToNulIsIdentity(s[1..]);
      assert s == [s[0]] + s[1..];
    }
  }

  lemma {:induction false} UpToNulIsNulFree(s: string)
    ensures NulFree(UpToNul(s))
  {
    if s != [] && s[0] != '\0' {
      UpToNulIsNulFree(s[1..]);
    }
  }

  lemma {:induction false} EscapedIsNulFree(value: string, pending: nat)
    requires NulFree(value)
    ensures NulFree(Escaped(value, pending))
    decreases |value|
  {
    if value != [] {
      EscapedIsNulFree(value[1..], pending + 1);
      EscapedIsNulFree(value[1..], 0);
    }
  }

  lemma {:induction false} TailIsNulFree(q: Quoter, args: seq<string>)
    requires forall a | a in args :: NulFree(a)
    ensures NulFree(Tail(q, args)) && AtBoundary(Tail(q, args))
  {
    if args != [] {
      assert args[0] in args;
      EscapedIsNulFree(args[0], 0);
      assert forall a | a in args[1..] :: a in args;
      TailIsNulFree(q, args[1..]);
    }
  }

  lemma {:induction false} ProgramNameIsNulFree(s: string, inQuotes: bool)
    requires NulFree(s)
    ensures NulFree(ProgramName(s, inQuotes).text) && NulFree(ProgramName(s, inQuotes).rest)
    decreases |s|
  {
    if s != [] {
      ProgramNameIsNulFree(s[1..], !inQuotes);
      ProgramNameIsNulFree(s[1..], inQuotes);
    }
  }

  lemma {:induction false} ScanIsNulFree(rt: Runtime, s: string, inQuotes: bool)
    requires NulFree(s)
    ensures var t := Scan(rt, s, inQuotes); NulFree(t.text) && NulFree(t.rest)
    decreases |s|, 1
  {
    var n := Slashes(s);
    AfterSlashesIsNulFree(rt, n, s[n..], inQuotes);
  }

  lemma {:induction false} AfterSlashesIsNulFree(rt: Runtime, n: nat, r: string, inQuotes: bool)
    requires NulFree(r) && (r == [] || r[0] != '\\')
    ensures var t := ScanAfterSlashes(rt, n, r, inQuotes); NulFree(t.text) && NulFree(t.rest)
    decreases |r|, 0
  {
    if r == [] || (r[0] != '"' && !inQuotes && IsSeparator(r[0])) {
    } else if r[0] != '"' {
      ScanIsNulFree(rt, r[1..], inQuotes);
      JoinedIsNulFree(n, [r[0]], Scan(rt, r[1..], inQuotes).text);
    } else if n % 2 == 1 {
      ScanIsNulFree(rt, r[1..], inQuotes);
      JoinedIsNulFree(n / 2, ['"'], Scan(rt, r[1..], inQuotes).text);
    } else if inQuotes && |r| > 1 && r[1] == '"' {
      ScanIsNulFree(rt, r[2..], rt.StaysQuoted?);
      JoinedIsNulFree(n / 2, ['"'], Scan(rt, r[2..], rt.StaysQuoted?).text);
    } else {
      ScanIsNulFree(rt, r[1..], !inQuotes);
    }
  }

  lemma JoinedIsNulFree(n: nat, c: string, text: string)
    requires NulFree(c) && NulFree(text)
    ensures NulFree(Repeat('\\', n) + c + text)
  {
  }

  lemma {:induction false} ArgumentsAreNulFree(rt: Runtime, s: string)
    requires NulFree(s)
    ensures forall a | a in Arguments(rt, s) :: NulFree(a)
    decreases |s|
  {
    if s != [] {
      if IsSeparator(s[0]) {
        ArgumentsAreNulFree(rt, s[1..]);
      } else {
        ScanIsNulFree(rt, s, false);
        ArgumentsAreNulFree(rt, Scan(rt, s, false).rest);
      }
    }
  }

  // ---------------------------------------------------------------- main theorem

  /** What a caller has to check about its inputs. */
  predicate Representable(q: Quoter, app: string, args: seq<string>) {
    && NulFree(app) && (forall a | a in args :: NulFree(a))
    && '"' !in app
    && !(NeedsQuotes(q, app) && EndsInSlash(app))
  }

  /** Splitting undoes building exactly on the representable inputs, whichever quoter built the line
      and whichever runtime splits it. Only argv[0] is restricted: arguments may hold anything but NUL. */
  lemma RoundTripExactly(rt: Runtime, q: Quoter, app: string, args: seq<string>)
    ensures SplitCommandLine(rt, CommandLineOf(q, app, args)) == [app] + args <==> Representable(q, app, args)
  {
    var line := CommandLineOf(q, app, args);
    var parts := SplitCommandLine(rt, line);
    UpToNulIsNulFree(line);
    ProgramNameIsNulFree(UpToNul(line), false);
    ProgramNameHasNoQuote(UpToNul(line), false);
    ArgumentsAreNulFree(rt, ProgramName(UpToNul(line), false).rest);
    if NulFree(app) && forall a | a in args :: NulFree(a) {
      TailIsNulFree(q, args);
      EscapedIsNulFree(app, 0);
      UpToNulIsIdentity(line);
      ArgumentsOfTail(rt, q, args);
      if '"' !in app {
        ProgramNameOfLine(q, app, Tail(q, args));
        assert parts[0] == app ==> parts == [app] + args;
      } else {
        assert parts[0] != app;
      }
      assert ([app] + args)[0] == app;
    } else {
      assert forall a | a in [app] + args :: a == app || a in args;
      assert exists a | a in [app] + args :: !NulFree(a) by {
        if NulFree(app) {
          var a :| a in args && !NulFree(a);
          assert a in [app] + args;
        } else {
          assert app in [app] + args;
        }
      }
    }
  }

  /** What both quoters can represent is read back the same from either line. */
  lemma QuotersAgree(rt: Runtime, app: string, args: seq<string>)
    requires Representable(Bootstrapper, app, args) && Representable(DesktopIsolation, app, args)
    ensures SplitCommandLine(rt, CommandLineOf(Bootstrapper, app, args))
         == SplitCommandLine(rt, CommandLineOf(DesktopIsolation, app, args)) == [app] + args
  {
    RoundTripExactly(rt, Bootstrapper, app, args);
    RoundTripExactly(rt, DesktopIsolation, app, args);
  }

  /** And yet they write some arguments differently. */
  lemma QuotersDiffer()
    ensures Quoted(Bootstrapper, "a\nb") != Quoted(DesktopIsolation, "a\nb")
  {
    assert NeedsQuotes(Bootstrapper, "a\nb") by {
      assert ForcesQuotes(Bootstrapper, "a\nb"[1]);
    }
    assert Quoted(Bootstrapper, "a\nb")[0] == '"';
  }

  // ---------------------------------------------------------------- which line is written

  /** An argument is written as it is exactly if it is not empty and holds neither a quote nor white space: any
      Unicode white space for the bootstrapper, blank and tab for the other quoter. */
  lemma WrittenAsItIsExactly(q: Quoter, value: string)
    ensures Quoted(q, value) == value <==>
              && value != []
              && forall c <- value ::
                   c != '"' && (if q.Bootstrapper? then !Text.IsWhitespace(c as int) else c != ' ' && c != '\t')
  {
    if NeedsQuotes(q, value) {
      QuotesAreAdded(value);
      assert Quoted(q, value) != value;
      if value != [] {
        var i :| 0 <= i < |value| && ForcesQuotes(q, value[i]);
        assert value[i] in value;
      }
    }
  }

  function CountQuotes(s: string): nat {
    multiset(s)['"']
  }

  lemma NoQuotesInRun(n: nat)
    ensures CountQuotes(Repeat('\\', n)) == 0
  {
    assert '"' !in Repeat('\\', n);
  }

  /** Escaping adds no quote: the body holds as many as the argument. */
  lemma {:induction false} EscapedQuotes(value: string, pending: nat)
    ensures CountQuotes(Escaped(value, pending)) == CountQuotes(value)
    decreases |value|
  {
    if value == [] {
      NoQuotesInRun(pending * 2);
    } else {
      assert value == [value[0]] + value[1..];
      if value[0] == '\\' {
        EscapedQuotes(value[1..], pending + 1);
      } else {
        EscapedQuotes(value[1..], 0);
        NoQuotesInRun(pending * 2 + 1);
        NoQuotesInRun(pending);
      }
    }
  }

  /** A quoted argument is its escaped form between two quotes and holds two quotes more than the argument. */
  lemma QuotesAreAdded(value: string)
    ensures CountQuotes(['"'] + Escaped(value, 0) + ['"']) == CountQuotes(value) + 2
  {
    EscapedQuotes(value, 0);
  }

  /** The line grows by one blank and the next argument. */
  lemma LineGrowsExactly(q: Quoter, app: string, args: seq<string>, next: string)
    ensures CommandLineOf(q, app, []) == Quoted(q, app)
    ensures CommandLineOf(q, app, args + [next]) == CommandLineOf(q, app, args) + " " + Quoted(q, next)
  {
    TailGrows(q, args, next);
    Regroup(Quoted(q, app), Tail(q, args), " ", Quoted(q, next));
  }

  lemma {:induction false} TailGrows(q: Quoter, args: seq<string>, next: string)
    ensures Tail(q, args + [next]) == Tail(q, args) + " " + Quoted(q, next)
  {
    if args == [] {
      assert [] + [next] == [next];
      assert Tail(q, [next]) == [' '] + Quoted(q, next) + Tail(q, []);
    } else {
      TailGrows(q, args[1..], next);
      assert (args + [next])[1..] == args[1..] + [next];
      var front := [' '] + Quoted(q, args[0]);
      assert front + (Tail(q, args[1..]) + " " + Quoted(q, next)) == (front + Tail(q, args[1..])) + " " + Quoted(q, next);
    }
  }
}
