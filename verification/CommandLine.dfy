/**
 The two Windows command-line quoters of the repository. `CommandLineLaws.RoundTripExactly` says for
 which inputs the runtime's splitting undoes building, for both quoters.
 */
module CommandLine {
  import opened CommandLineRules
  import Text

  datatype Quoter = Bootstrapper | DesktopIsolation

  /** The characters that make each quoter put an argument in quotes. */
  predicate ForcesQuotes(q: Quoter, c: char) {
    match q
    case Bootstrapper => Text.IsWhitespace(c as int) || c == '"'
    case DesktopIsolation => c == ' ' || c == '\t' || c == '"'
  }

  predicate NeedsQuotes(q: Quoter, value: string) {
    value == [] || exists i | 0 <= i < |value| :: ForcesQuotes(q, value[i])
  }

  /** What is still to be written inside the quotes, with `pending` backslashes held back. */
  function Escaped(value: string, pending: nat): string {
    if value == [] then Repeat('\\', pending * 2)
    else if value[0] == '\\' then Escaped(value[1..], pending + 1)
    else if value[0] == '"' then Repeat('\\', pending * 2 + 1) + ['"'] + Escaped(value[1..], 0)
    else Repeat('\\', pending) + [value[0]] + Escaped(value[1..], 0)
  }

  function Quoted(q: Quoter, value: string): string {
    if NeedsQuotes(q, value) then ['"'] + Escaped(value, 0) + ['"'] else value
  }

  /** Every argument preceded by one space. */
  function Tail(q: Quoter, args: seq<string>): string {
    if args == [] then [] else [' '] + Quoted(q, args[0]) + Tail(q, args[1..])
  }

  /** The bootstrapper's `build_command_line` is this expression; desktop isolation builds it by a loop. */
  function CommandLineOf(q: Quoter, app: string, args: seq<string>): string {
    Quoted(q, app) + Tail(q, args)
  }

  method HasForcingCharacter(q: Quoter, value: string) returns (found: bool)
    ensures found <==> exists i | 0 <= i < |value| :: ForcesQuotes(q, value[i])
  {
    found := false;
    for i := 0 to |value|
      invariant !found
      invariant forall k | 0 <= k < i :: !ForcesQuotes(q, value[k])
    {
      if ForcesQuotes(q, value[i]) {
        return true;
      }
    }
  }

  /** `quote_windows_argument` and `quote_argument`: one pass with a count of held-back backslashes. */
  method QuoteArgument(q: Quoter, value: string) returns (quoted: string)
    ensures quoted == Quoted(q, value)
  {
    var forced := HasForcingCharacter(q, value);
    if value != [] && !forced {
      return value;
    }
    quoted := ['"'];
    var backslashes := 0;
    for i := 0 to |value|
      invariant quoted + Escaped(value[i..], backslashes) == ['"'] + Escaped(value, 0)
    {
      var c := value[i];
      assert value[i..][1..] == value[i + 1..];
      ghost var before, pending := quoted, backslashes;
      if c == '\\' {
        backslashes := backslashes + 1;
      } else if c == '"' {
        quoted := quoted + Repeat('\\', backslashes * 2 + 1);
        quoted := quoted + ['"'];
        backslashes := 0;
        assert before + (Repeat('\\', pending * 2 + 1) + ['"'] + Escaped(value[i + 1..], 0))
            == quoted + Escaped(value[i + 1..], 0);
      } else {
        quoted := quoted + Repeat('\\', backslashes);
        backslashes := 0;
        quoted := quoted + [c];
        assert before + (Repeat('\\', pending) + [c] + Escaped(value[i + 1..], 0))
            == quoted + Escaped(value[i + 1..], 0);
      }
    }
    assert value[|value|..] == [];
    quoted := quoted + Repeat('\\', backslashes * 2);
    quoted := quoted + ['"'];
  }

  /** `build_command_line`: quote every part, then join the parts with spaces. */
  method BuildCommandLine(q: Quoter, app: string, args: seq<string>) returns (line: string)
    ensures line == CommandLineOf(q, app, args)
  {
    line := QuoteArgument(q, app);
    for i := 0 to |args|
      invariant line + Tail(q, args[i..]) == CommandLineOf(q, app, args)
    {
      var part := QuoteArgument(q, args[i]);
      assert args[i..][1..] == args[i + 1..];
      Regroup(line, [' '], part, Tail(q, args[i + 1..]));
      line := line + [' '] + part;
    }
    assert args[|args|..] == [];
  }

  lemma Regroup(a: string, b: string, c: string, d: string)
    ensures a + (b + c + d) == (a + b + c) + d == a + (b + (c + d))
    ensures (a + b) + c == a + (b + c)
  {
  }
}
