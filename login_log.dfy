/** `opencli user-loginlog <username> [--json]`: the login history of a user
    (user/loginlog.py). The file `/home/<username>/.lastlogin` is an input:
    a function from the user name to the file found there. */
module LoginLog {
  import opened Base
  import opened Text

  // ---------------------------------------------------------------------
  // Arguments

  /** Whether some argument after the first is `--json`. */
  predicate JsonRequested(args: seq<string>)
  {
    exists i :: 1 <= i < |args| && args[i] == "--json"
  }

  /** The user the script reports on: the last argument after the first that
      is not `--json`, or the first argument when there is none. */
  function LastUser(args: seq<string>): string
    requires |args| >= 1
  {
    if |args| == 1 then args[0]
    else if args[|args| - 1] != "--json" then args[|args| - 1]
    else LastUser(args[..|args| - 1])
  }

  /** `LastUser` is the argument at the last index after the first that is
      not `--json`, or at index 0 when every later argument is `--json`. */
  lemma {:induction false} LastUserIs(args: seq<string>, k: nat)
    requires k < |args| && (k == 0 || args[k] != "--json")
    requires forall j :: k < j < |args| ==> args[j] == "--json"
    ensures LastUser(args) == args[k]
    decreases |args|
  {
    if k < |args| - 1 {
      assert args[|args| - 1] == "--json";
      var shorter := args[..|args| - 1];
      assert forall j :: k < j < |shorter| ==> shorter[j] == args[j];
      LastUserIs(shorter, k);
    }
  }

  /** The argument loop of `main`: `--json` sets the flag, anything else
      replaces the user name. */
  method ParseArgs(args: seq<string>) returns (user: string, json: bool)
    requires |args| >= 1
    ensures user == LastUser(args)
    ensures json == JsonRequested(args)
  {
    user := args[0];
    json := false;
    var i := 1;
    while i < |args|
      invariant 1 <= i <= |args|
      invariant user == LastUser(args[..i])
      invariant json == JsonRequested(args[..i])
    {
      assert args[..i + 1][..i] == args[..i];
      if args[i] == "--json" {
        json := true;
        assert args[..i + 1][i] == "--json";
      } else {
        user := args[i];
      }
      i := i + 1;
    }
    assert args[..i] == args;
  }

  // ---------------------------------------------------------------------
  // Lines of the log

  /** One entry of the JSON output. */
  datatype Record = Record(ip: string, country: string, time: string)

  /** `part.split(": ")[1]`: the text between the first `": "` and the next
      one (or the end); `None` where `part` has no `": "`, which raises an
      `IndexError`. */
  function Field(part: string): (r: Option<string>)
    ensures r.Some? <==> Contains(part, ": ")
  {
    var pieces := Split(part, ": ");
    if |pieces| >= 2 then Some(pieces[1]) else None
  }

  /** The field starts right after the first `": "`, holds no `": "` itself,
      and runs to the end of the part or to the next `": "`. */
  lemma FieldSpec(part: string)
    requires Contains(part, ": ")
    ensures var i := Find(part, ": ").value;
      var rest := part[i + 2..];
      var f := Field(part).value;
      && StartsWith(rest, f)
      && !Contains(f, ": ")
      && (f == rest || StartsWith(rest, f + ": "))
  {
    var i := Find(part, ": ").value;
    var rest := part[i + 2..];
    assert Split(part, ": ")[1] == Split(rest, ": ")[0];
    SplitHead(rest, ": ");
    var f := Field(part).value;
    match Find(rest, ": ")
    case None =>
      assert f == rest;
    case Some(k) =>
      NoneBeforeFirst(rest, ": ", k);
      assert rest[..k + 2] == f + ": ";
  }

  /** The field of a part written as a tag, `": "` and a value. */
  lemma FieldOf(tag: string, value: string)
    requires Find(tag + ": ", ": ") == Some(|tag|) && !Contains(value, ": ")
    ensures Field(tag + ": " + value) == Some(value)
  {
    SplitAfter(tag, ": ", value);
  }

  /** One line of the log as the loop reads it: split on `" - "`, the field
      of each of the first three parts, the third one stripped. `None` where
      the script raises. */
  function ParseLine(line: string): Option<Record>
  {
    var parts := Split(line, " - ");
    if |parts| < 3 then None
    else
      match (Field(parts[0]), Field(parts[1]), Field(parts[2]))
      case (Some(ip), Some(country), Some(time)) => Some(Record(ip, country, Strip(time)))
      case _ => None
  }

  /** A line holding no `": "` at all, a blank line among them, makes the
      script raise. */
  lemma UnlabelledLineRejected(line: string)
    requires !Contains(line, ": ")
    ensures ParseLine(line) == None
  {
    var parts := Split(line, " - ");
    SplitHead(line, " - ");
    if Contains(parts[0], ": ") {
      ContainsPrefix(line, parts[0], ": ");
    }
  }

  /** A log line written as three labelled parts joined by `" - "`. */
  function LogLine(labels: (string, string, string), r: Record): string
  {
    (labels.0 + ": " + r.ip) + " - " + ((labels.1 + ": " + r.country) + " - " + (labels.2 + ": " + r.time + "\n"))
  }

  /** Reading back a written line gives the record, provided no separator
      can be found earlier than where it was written: labels and values
      keep clear of `": "` and `" - "`, and the time has no surrounding
      whitespace. */
  lemma ParseLogLine(labels: (string, string, string), r: Record)
    requires Find(labels.0 + ": ", ": ") == Some(|labels.0|)
    requires Find(labels.1 + ": ", ": ") == Some(|labels.1|)
    requires Find(labels.2 + ": ", ": ") == Some(|labels.2|)
    requires !Contains(r.ip, ": ") && !Contains(r.country, ": ") && !Contains(r.time + "\n", ": ")
    requires Find(labels.0 + ": " + r.ip + " - ", " - ") == Some(|labels.0 + ": " + r.ip|)
    requires Find(labels.1 + ": " + r.country + " - ", " - ") == Some(|labels.1 + ": " + r.country|)
    requires !Contains(labels.2 + ": " + r.time + "\n", " - ")
    requires r.time != [] ==> !IsSpace(r.time[0]) && !IsSpace(r.time[|r.time| - 1])
    ensures ParseLine(LogLine(labels, r)) == Some(r)
  {
    var p0 := labels.0 + ": " + r.ip;
    var p1 := labels.1 + ": " + r.country;
    var p2 := labels.2 + ": " + r.time + "\n";
    assert Split(LogLine(labels, r), " - ") == [p0, p1, p2] by {
      SplitLogLine(p0, p1, p2);
    }
    assert Field(p0) == Some(r.ip) by { FieldOf(labels.0, r.ip); }
    assert Field(p1) == Some(r.country) by { FieldOf(labels.1, r.country); }
    assert Field(p2) == Some(r.time + "\n") by {
      assert p2 == labels.2 + ": " + (r.time + "\n");
      FieldOf(labels.2, r.time + "\n");
    }
    assert Strip(r.time + "\n") == r.time by { TimeStripped(r.time); }
  }

  /** Three parts, the first two free of `" - "`, split back apart. */
  lemma SplitLogLine(p0: string, p1: string, p2: string)
    requires Find(p0 + " - ", " - ") == Some(|p0|)
    requires Find(p1 + " - ", " - ") == Some(|p1|)
    requires !Contains(p2, " - ")
    ensures Split(p0 + " - " + (p1 + " - " + p2), " - ") == [p0, p1, p2]
  {
    SplitAfter(p1, " - ", p2);
    assert Split(p2, " - ") == [p2];
    SplitAfter(p0, " - ", p1 + " - " + p2);
  }

  /** The newline `readlines` keeps is stripped from the time. */
  lemma TimeStripped(time: string)
    requires time != [] ==> !IsSpace(time[0]) && !IsSpace(time[|time| - 1])
    ensures Strip(time + "\n") == time
  {
    RStripSpaceSuffix(LStrip(time), '\n');
    if time != [] {
      assert LStrip(time + "\n") == time + "\n";
      StripUnspaced(time);
    }
  }

  /** Every line after the first read with `parse`, in order; `None` where
      one of them does not parse. */
  function ParseAfterFirst<T>(parse: string -> Option<T>, lines: seq<string>): (r: Option<seq<T>>)
    ensures r.Some? <==> forall i :: 1 <= i < |lines| ==> parse(lines[i]).Some?
  {
    if forall i :: 1 <= i < |lines| ==> parse(lines[i]).Some? then
      var n := if lines == [] then 0 else |lines| - 1;
      Some(seq(n, j requires 0 <= j < n => parse(lines[j + 1]).value))
    else None
  }

  /** The first line is skipped and every other line gives one result, in
      order. */
  lemma ParsedInOrder<T>(parse: string -> Option<T>, lines: seq<string>, out: seq<T>)
    requires ParseAfterFirst(parse, lines) == Some(out)
    ensures |out| == (if lines == [] then 0 else |lines| - 1)
    ensures forall j :: 0 <= j < |out| ==> out[j] == parse(lines[j + 1]).value
  {
  }

  /** The output of `process_login_log_as_json`: the records of the lines
      after the first, or `None` where a malformed line makes the script
      raise. */
  function Records(lines: seq<string>): Option<seq<Record>>
  {
    ParseAfterFirst(ParseLine, lines)
  }

  /** The record loop of `process_login_log_as_json`. */
  method ProcessLoginLog(lines: seq<string>) returns (records: Option<seq<Record>>)
    ensures records == Records(lines)
  {
    var acc: seq<Record> := [];
    var i := 1;
    while i < |lines|
      invariant 1 <= i <= |lines| || (lines == [] && i == 1)
      invariant |acc| == i - 1
      invariant forall j :: 1 <= j < i ==> ParseLine(lines[j]).Some? && acc[j - 1] == ParseLine(lines[j]).value
    {
      var line := ParseLine(lines[i]);
      if line.None? {
        assert Records(lines).None?;
        return None;
      }
      acc := acc + [line.value];
      i := i + 1;
    }
    assert Records(lines).Some?;
    var all := Records(lines).value;
    ParsedInOrder(ParseLine, lines, all);
    assert forall j :: 0 <= j < |acc| ==> acc[j] == all[j] by {
      forall j | 0 <= j < |acc|
        ensures acc[j] == all[j]
      {
        assert acc[(j + 1) - 1] == ParseLine(lines[j + 1]).value;
      }
    }
    assert acc == all;
    records := Some(acc);
  }

  // ---------------------------------------------------------------------
  // The script

  /** What the script does. */
  datatype Outcome =
    | Usage                           // no arguments
    | NotFound(user: string)          // no log file for the user
    | Listed(records: seq<Record>)    // the JSON listing
    | Crashed                         // a malformed line raised
    | Printed(text: string)           // the file printed as it is
    | NoRun                           // `main` is never called: no output

  function ExitCode(outcome: Outcome): int
  {
    if outcome.Listed? || outcome.Printed? || outcome.NoRun? then 0 else 1
  }

  /** What the script does for a user, an output mode and the user's log. */
  function Respond(user: string, json: bool, log: File): (r: Outcome)
    ensures log.Missing? ==> r == NotFound(user)
    ensures r.Printed? <==> log.Present? && !json
    ensures r.Crashed? <==>
      log.Present? && json && exists i :: 1 <= i < |log.lines| && ParseLine(log.lines[i]).None?
    ensures r.Listed? ==>
      && log.Present? && json
      && |r.records| == (if log.lines == [] then 0 else |log.lines| - 1)
      && forall j :: 0 <= j < |r.records| ==> r.records[j] == ParseLine(log.lines[j + 1]).value
  {
    match log
    case Missing => NotFound(user)
    case Present(lines) =>
      if json then
        match Records(lines)
        case Some(records) =>
          ParsedInOrder(ParseLine, lines, records);
          Listed(records)
        case None => Crashed
      else Printed(Concat(lines) + "\n")
  }

  /** `main` over the arguments after the program name. */
  method Run(args: seq<string>, logs: string -> File) returns (outcome: Outcome)
    ensures |args| == 0 ==> outcome == Usage
    ensures |args| >= 1 ==> outcome == Respond(LastUser(args), JsonRequested(args), logs(LastUser(args)))
  {
    if |args| < 1 {
      return Usage;
    }
    var user, json := ParseArgs(args);
    var log := logs(user);
    if log.Missing? {
      return NotFound(user);
    }
    if json {
      var records := ProcessLoginLog(log.lines);
      if records.None? {
        return Crashed;
      }
      return Listed(records.value);
    }
    return Printed(Concat(log.lines) + "\n");
  }

  /** The script succeeds exactly when the log exists and, for JSON output,
      every line after the first is well formed. */
  lemma RespondExitCode(user: string, json: bool, log: File)
    ensures ExitCode(Respond(user, json, log)) == 0 <==>
      log.Present? && (json ==> forall i :: 1 <= i < |log.lines| ==> ParseLine(log.lines[i]).Some?)
  {
  }

  /** user/loginlog.py as written: `main` is defined but nothing at the top
      level calls it, so a run prints nothing and exits 0. */
  function RunAsWritten(args: seq<string>, logs: string -> File): (outcome: Outcome)
    ensures ExitCode(outcome) == 0 && !outcome.Printed? && !outcome.Listed?
  {
    NoRun
  }

  /** As written, asking for a user whose log exists prints nothing, where
      `main` (Run) prints the log or lists its records, or reports a
      malformed line. */
  lemma MissingMainPrintsNothing(args: seq<string>, logs: string -> File)
    requires |args| >= 1 && logs(LastUser(args)).Present?
    ensures RunAsWritten(args, logs) == NoRun
    ensures var intended := Respond(LastUser(args), JsonRequested(args), logs(LastUser(args)));
      && intended != NoRun
      && (!JsonRequested(args) ==> intended == Printed(Concat(logs(LastUser(args)).lines) + "\n"))
  {
  }
}
