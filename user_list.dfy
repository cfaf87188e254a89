/** `opencli user-list [--json]`: the users table as the `mysql` client prints
    it, one tab-separated row per line, header already removed (user/list.py).
    The client's standard output is an input. */
module UserList {
  import opened Base
  import opened Text

  // ---------------------------------------------------------------------
  // Arguments

  datatype Mode = Terminal | Json

  /** The argument check of `main`; `None` prints the usage and exits. */
  function ModeOf(args: seq<string>): (r: Option<Mode>)
    ensures r.Some? <==> args == [] || args == ["--json"]
    ensures r == Some(Json) <==> args == ["--json"]
  {
    if |args| > 1 || (|args| == 1 && args[0] != "--json") then None
    else if |args| == 1 then Some(Json)
    else Some(Terminal)
  }

  // ---------------------------------------------------------------------
  // Rows

  /** The lines that hold something other than whitespace, in order
      (`if line.strip()`). */
  function NonBlank(lines: seq<string>): (r: seq<string>)
    ensures |r| <= |lines|
  {
    if lines == [] then []
    else if Strip(lines[0]) != [] then [lines[0]] + NonBlank(lines[1..])
    else NonBlank(lines[1..])
  }

  /** The kept lines are exactly the non-blank ones. */
  lemma {:induction false} NonBlankMembers(lines: seq<string>)
    ensures forall l :: l in NonBlank(lines) <==> l in lines && Strip(l) != []
  {
    if lines != [] {
      NonBlankMembers(lines[1..]);
      assert lines == [lines[0]] + lines[1..];
    }
  }

  /** Filtering keeps the order: it can be done piece by piece. */
  lemma {:induction false} NonBlankAppend(a: seq<string>, b: seq<string>)
    ensures NonBlank(a + b) == NonBlank(a) + NonBlank(b)
  {
    if a != [] {
      assert (a + b)[0] == a[0];
      assert (a + b)[1..] == a[1..] + b;
      NonBlankAppend(a[1..], b);
    } else {
      assert a + b == b;
    }
  }

  /** The lines of the output that become rows: the whole output is
      stripped, split on newlines, and blank lines are dropped. */
  function KeptLines(output: string): seq<string>
  {
    NonBlank(Split(Strip(output), "\n"))
  }

  /** `users_list`: each kept line split on tabs. */
  function Rows(output: string): (rows: seq<seq<string>>)
    ensures |rows| == |KeptLines(output)|
    ensures forall i :: 0 <= i < |rows| ==> |rows[i]| >= 1
  {
    var lines := KeptLines(output);
    seq(|lines|, i requires 0 <= i < |lines| => Split(lines[i], "\t"))
  }

  // ---------------------------------------------------------------------
  // Output

  /** One object of the JSON output. */
  datatype User = User(id: string, username: string, email: string, planName: string, registeredDate: string)

  /** The JSON list: fields 0 to 4 of each row; `None` where a row has fewer
      than five fields, which raises an `IndexError`. */
  function JsonUsers(rows: seq<seq<string>>): (r: Option<seq<User>>)
    ensures r.Some? <==> forall i :: 0 <= i < |rows| ==> |rows[i]| >= 5
    ensures r.Some? ==> |r.value| == |rows|
    ensures r.Some? ==> forall i :: 0 <= i < |rows| ==>
      r.value[i] == User(rows[i][0], rows[i][1], rows[i][2], rows[i][3], rows[i][4])
  {
    if forall i :: 0 <= i < |rows| ==> |rows[i]| >= 5 then
      Some(seq(|rows|, i requires 0 <= i < |rows| => User(rows[i][0], rows[i][1], rows[i][2], rows[i][3], rows[i][4])))
    else None
  }

  /** The terminal output: each row joined with tabs, or `No users.`. */
  function TerminalLines(rows: seq<seq<string>>): seq<string>
  {
    if rows == [] then ["No users."]
    else seq(|rows|, i requires 0 <= i < |rows| => Join(rows[i], "\t"))
  }

  /** Every row is printed exactly as the client printed it; with no row
      the single line is `No users.`. */
  lemma TerminalEchoes(output: string)
    ensures KeptLines(output) != [] ==> TerminalLines(Rows(output)) == KeptLines(output)
    ensures KeptLines(output) == [] ==> TerminalLines(Rows(output)) == ["No users."]
  {
    var lines := KeptLines(output);
    var rows := Rows(output);
    forall i | 0 <= i < |lines|
      ensures Join(rows[i], "\t") == lines[i]
    {
      JoinSplit(lines[i], "\t");
    }
  }

  // ---------------------------------------------------------------------
  // The script

  datatype Outcome =
    | Usage                           // arguments other than none or `--json`
    | Listed(users: seq<User>)        // the JSON list
    | Crashed                         // a row with fewer than five fields
    | Printed(lines: seq<string>)     // the terminal output

  function ExitCode(outcome: Outcome): int
  {
    if outcome.Listed? || outcome.Printed? then 0 else 1
  }

  /** `main` over the arguments after the program name and the client's
      output. */
  function Run(args: seq<string>, output: string): (r: Outcome)
    ensures r == Usage <==> args != [] && args != ["--json"]
    ensures args == [] ==>
      r == Printed(if KeptLines(output) == [] then ["No users."] else KeptLines(output))
    ensures r == Crashed <==>
      args == ["--json"] && exists i :: 0 <= i < |Rows(output)| && |Rows(output)[i]| < 5
    ensures r.Listed? ==> args == ["--json"] && |r.users| == |KeptLines(output)|
  {
    TerminalEchoes(output);
    match ModeOf(args)
    case None => Usage
    case Some(Json) =>
      (match JsonUsers(Rows(output))
       case Some(users) => Listed(users)
       case None => Crashed)
    case Some(Terminal) => Printed(TerminalLines(Rows(output)))
  }

  /** The script fails exactly for wrong arguments and, in JSON mode, for a
      kept line with fewer than four tabs. */
  lemma RunExitCode(args: seq<string>, output: string)
    ensures ExitCode(Run(args, output)) != 0 <==>
      (args != [] && args != ["--json"]) ||
      (args == ["--json"] && exists i :: 0 <= i < |KeptLines(output)| && |Split(KeptLines(output)[i], "\t")| < 5)
  {
    var rows := Rows(output);
    assert forall i :: 0 <= i < |rows| ==> rows[i] == Split(KeptLines(output)[i], "\t");
  }
}
