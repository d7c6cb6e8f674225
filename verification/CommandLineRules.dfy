/**
 The rules by which the Microsoft C runtime splits a command line back into arguments ("Parsing C
 command-line arguments"): `SplitCommandLine` is written from them alone, without a look at the quoters.
 */
module CommandLineRules {

  predicate IsSeparator(c: char) {
    c == ' ' || c == '\t'
  }

  /** The runtime reads a NUL-terminated string. */
  function UpToNul(s: string): string {
    if s == [] || s[0] == '\0' then [] else [s[0]] + UpToNul(s[1..])
  }

  datatype Token = Token(text: string, rest: string)

  /** argv[0]: double quotes only switch separators off and on; a backslash is an ordinary character. */
  function ProgramName(s: string, inQuotes: bool): (t: Token)
    ensures |t.rest| <= |s|
  {
    if s == [] then Token([], [])
    else if s[0] == '"' then ProgramName(s[1..], !inQuotes)
    else if !inQuotes && IsSeparator(s[0]) then Token([], s)
    else
      var t := ProgramName(s[1..], inQuotes);
      Token([s[0]] + t.text, t.rest)
  }

  function Slashes(s: string): (n: nat)
    ensures n <= |s|
    ensures forall i | 0 <= i < n :: s[i] == '\\'
    ensures n < |s| ==> s[n] != '\\'
  {
    if s == [] || s[0] != '\\' then 0 else 1 + Slashes(s[1..])
  }

  function Repeat(c: char, n: nat): (s: string)
    ensures |s| == n
    ensures forall i | 0 <= i < n :: s[i] == c
  {
    seq(n, _ => c)
  }

  /** Runtimes disagree on whether `""` inside quotes also ends the quoted part. */
  datatype Runtime = StaysQuoted | LeavesQuotes

  /** One argument after argv[0]: 2n backslashes before a quote are n backslashes and a delimiter,
      2n+1 are n backslashes and a literal quote, and other backslashes stand for themselves. */
  function Scan(rt: Runtime, s: string, inQuotes: bool): (t: Token)
    ensures |t.rest| <= |s|
    ensures s != [] && (inQuotes || !IsSeparator(s[0])) ==> |t.rest| < |s|
    decreases |s|, 1
  {
    var n := Slashes(s);
    ScanAfterSlashes(rt, n, s[n..], inQuotes)
  }

  function ScanAfterSlashes(rt: Runtime, n: nat, r: string, inQuotes: bool): (t: Token)
    requires r == [] || r[0] != '\\'
    ensures |t.rest| <= |r|
    ensures r != [] && (inQuotes || !IsSeparator(r[0])) ==> |t.rest| < |r|
    decreases |r|, 0
  {
    if r == [] then Token(Repeat('\\', n), [])
    else if r[0] == '"' then
      if n % 2 == 1 then
        var t := Scan(rt, r[1..], inQuotes);
        Token(Repeat('\\', n / 2) + ['"'] + t.text, t.rest)
      else if inQuotes && |r| > 1 && r[1] == '"' then
        var t := Scan(rt, r[2..], rt.StaysQuoted?);
        Token(Repeat('\\', n / 2) + ['"'] + t.text, t.rest)
      else
        var t := Scan(rt, r[1..], !inQuotes);
        Token(Repeat('\\', n / 2) + t.text, t.rest)
    else if !inQuotes && IsSeparator(r[0]) then Token(Repeat('\\', n), r)
    else
      var t := Scan(rt, r[1..], inQuotes);
      Token(Repeat('\\', n) + [r[0]] + t.text, t.rest)
  }

  function Arguments(rt: Runtime, s: string): seq<string>
    decreases |s|
  {
    if s == [] then []
    else if IsSeparator(s[0]) then Arguments(rt, s[1..])
    else
      var t := Scan(rt, s, false);
      [t.text] + Arguments(rt, t.rest)
  }

  function SplitCommandLine(rt: Runtime, line: string): seq<string> {
    var t := ProgramName(UpToNul(line), false);
    [t.text] + Arguments(rt, t.rest)
  }
}
