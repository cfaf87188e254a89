/** `opencli admin`: the `[DEFAULT]` section reader of the panel
    configuration, the SSL and domain settings derived from it, and the
    `notifications get|update` editor of the notifications file (admin.py). */
module AdminConfig {
  import opened Base
  import opened Text

  // ---------------------------------------------------------------------
  // read_config

  predicate IsDefaultHeader(line: string)
  {
    StartsWith(line, "[DEFAULT]")
  }

  /** A section header other than `[DEFAULT]` that holds no `=`: it ends the
      collection of pairs. */
  predicate ClosesDefault(line: string)
  {
    StartsWith(line, "[") && !IsDefaultHeader(line) && !Contains(line, "=")
  }

  /** The collection flag after one line. */
  function NextFlag(collecting: bool, line: string): bool
  {
    IsDefaultHeader(line) || (collecting && !ClosesDefault(line))
  }

  /** The collection flag before line `i`; it starts set. */
  function FlagBefore(lines: seq<string>, i: nat): bool
    requires i <= |lines|
  {
    if i == 0 then true else NextFlag(FlagBefore(lines, i - 1), lines[i - 1])
  }

  /** Line `i` is read as a `key=value` pair. */
  predicate Collected(lines: seq<string>, i: nat)
  {
    i < |lines| && FlagBefore(lines, i) && !IsDefaultHeader(lines[i]) && Contains(lines[i], "=")
  }

  /** `key, value = line.strip().split("=")`, both then stripped; `None` when
      the line does not split into exactly two fields (a `ValueError`). */
  function Unpack(line: string): Option<(string, string)>
  {
    var parts := Split(Strip(line), "=");
    if |parts| == 2 then Some((Strip(parts[0]), Strip(parts[1]))) else None
  }

  datatype ReadError =
    | ConfigMissing       // the configuration file does not exist
    | Unpacking(at: nat)  // line `at` holds more than one `=`

  /** What `read_config` does with one line. */
  datatype LineRole =
    | Skipped                           // not read as a pair
    | Pair(key: string, value: string)  // read as `key = value`
    | Malformed                         // read, but does not unpack

  function Role(lines: seq<string>, i: nat): LineRole
    requires i < |lines|
  {
    if !Collected(lines, i) then Skipped
    else
      match Unpack(lines[i])
      case None => Malformed
      case Some(kv) => Pair(kv.0, kv.1)
  }

  function Roles(lines: seq<string>): (roles: seq<LineRole>)
    ensures |roles| == |lines|
  {
    seq(|lines|, i requires 0 <= i < |lines| => Role(lines, i))
  }

  /** The dictionary after the first `n` lines, given their roles. */
  function Pairs(roles: seq<LineRole>, n: nat): Result<map<string, string>, ReadError>
    requires n <= |roles|
  {
    if n == 0 then Ok(map[])
    else
      match Pairs(roles, n - 1)
      case Err(e) => Err(e)
      case Ok(m) =>
        match roles[n - 1]
        case Skipped => Ok(m)
        case Malformed => Err(Unpacking(n - 1))
        case Pair(k, v) => Ok(m[k := v])
  }

  /** A `[DEFAULT]` header sets the flag and is not read as a pair. */
  lemma HeaderStep(lines: seq<string>, i: nat, m: map<string, string>)
    requires i < |lines| && IsDefaultHeader(lines[i]) && Pairs(Roles(lines), i) == Ok(m)
    ensures FlagBefore(lines, i + 1) && Pairs(Roles(lines), i + 1) == Ok(m)
  {
    assert Roles(lines)[i] == Skipped;
  }

  /** A line with `=` read while the flag is set is unpacked: it fails the
      read when it does not split in two, and otherwise adds its pair. */
  lemma PairStep(lines: seq<string>, i: nat, m: map<string, string>, kv: Option<(string, string)>)
    requires i < |lines| && !IsDefaultHeader(lines[i]) && FlagBefore(lines, i) && Contains(lines[i], "=")
    requires Pairs(Roles(lines), i) == Ok(m) && kv == Unpack(lines[i])
    ensures FlagBefore(lines, i + 1)
    ensures kv.None? ==> Pairs(Roles(lines), i + 1) == Err(Unpacking(i))
    ensures kv.Some? ==> Pairs(Roles(lines), i + 1) == Ok(m[kv.value.0 := kv.value.1])
  {
    assert Roles(lines)[i] == Role(lines, i);
  }

  /** Any other line is not read as a pair; while the flag is set, another
      section header clears it. */
  lemma OtherStep(lines: seq<string>, i: nat, m: map<string, string>)
    requires i < |lines| && !IsDefaultHeader(lines[i]) && !(FlagBefore(lines, i) && Contains(lines[i], "="))
    requires Pairs(Roles(lines), i) == Ok(m)
    ensures Pairs(Roles(lines), i + 1) == Ok(m)
    ensures FlagBefore(lines, i + 1) == (FlagBefore(lines, i) && !StartsWith(lines[i], "["))
  {
    assert Roles(lines)[i] == Skipped;
  }

  function ReadResult(config: File): Result<map<string, string>, ReadError>
  {
    match config
    case Missing => Err(ConfigMissing)
    case Present(lines) => Pairs(Roles(lines), |lines|)
  }

  /** Once reading has failed, later lines do not matter. */
  lemma {:induction false} PairsErrSticks(roles: seq<LineRole>, n: nat, m: nat)
    requires n <= m <= |roles| && Pairs(roles, n).Err?
    ensures Pairs(roles, m) == Pairs(roles, n)
    decreases m - n
  {
    if n < m {
      PairsErrSticks(roles, n + 1, m);
    }
  }

  /** One line of `read_config`: the flag and the dictionary after line `i`,
      given those before it. */
  method ReadLine(lines: seq<string>, i: nat, collecting: bool, pairs: map<string, string>)
    returns (next: bool, r: Result<map<string, string>, ReadError>)
    requires i < |lines| && collecting == FlagBefore(lines, i) && Pairs(Roles(lines), i) == Ok(pairs)
    ensures r == Pairs(Roles(lines), i + 1)
    ensures r.Ok? ==> next == FlagBefore(lines, i + 1)
  {
    var line := lines[i];
    if StartsWith(line, "[DEFAULT]") {
      HeaderStep(lines, i, pairs);
      return true, Ok(pairs);
    }
    if collecting && Contains(line, "=") {
      var kv := Unpack(line);
      PairStep(lines, i, pairs, kv);
      if kv.None? {
        return collecting, Err(Unpacking(i));
      }
      return collecting, Ok(pairs[kv.value.0 := kv.value.1]);
    }
    OtherStep(lines, i, pairs);
    next := collecting;
    if collecting && StartsWith(line, "[") {
      next := false;
    }
    return next, Ok(pairs);
  }

  /** `read_config`: one pass over the lines with the collection flag. */
  method ReadConfig(config: File) returns (r: Result<map<string, string>, ReadError>)
    ensures r == ReadResult(config)
  {
    if config.Missing? {
      return Err(ConfigMissing);
    }
    var lines := config.lines;
    var pairs: map<string, string> := map[];
    var collecting := true;
    var i := 0;
    while i < |lines|
      invariant 0 <= i <= |lines|
      invariant collecting == FlagBefore(lines, i)
      invariant Pairs(Roles(lines), i) == Ok(pairs)
    {
      var step;
      collecting, step := ReadLine(lines, i, collecting, pairs);
      if step.Err? {
        PairsErrSticks(Roles(lines), i + 1, |lines|);
        return step;
      }
      pairs := step.value;
      i := i + 1;
    }
    return Ok(pairs);
  }

  /** The flag is set exactly when every closing header seen so far has been
      followed by a later `[DEFAULT]` header: a `[DEFAULT]` anywhere turns
      collection back on. */
  lemma {:induction false} FlagReopens(lines: seq<string>, i: nat)
    requires i <= |lines|
    ensures FlagBefore(lines, i) <==>
      forall j :: 0 <= j < i && ClosesDefault(lines[j]) ==>
        exists d :: j < d < i && IsDefaultHeader(lines[d])
  {
    if i > 0 {
      FlagReopens(lines, i - 1);
      var last := lines[i - 1];
      if IsDefaultHeader(last) {
        forall j | 0 <= j < i && ClosesDefault(lines[j])
          ensures exists d :: j < d < i && IsDefaultHeader(lines[d])
        {
          assert IsDefaultHeader(lines[i - 1]);
        }
      } else if ClosesDefault(last) {
      } else {
        if FlagBefore(lines, i) {
          forall j | 0 <= j < i && ClosesDefault(lines[j])
            ensures exists d :: j < d < i && IsDefaultHeader(lines[d])
          {
            var d :| j < d < i - 1 && IsDefaultHeader(lines[d]);
          }
        } else {
          var j :| 0 <= j < i - 1 && ClosesDefault(lines[j]) &&
            !exists d :: j < d < i - 1 && IsDefaultHeader(lines[d]);
          assert !exists d :: j < d < i && IsDefaultHeader(lines[d]);
        }
      }
    }
  }

  /** Reading succeeds exactly when no line read as a pair is malformed. */
  lemma {:induction false} PairsOk(roles: seq<LineRole>, n: nat)
    requires n <= |roles|
    ensures Pairs(roles, n).Ok? <==> forall i :: 0 <= i < n ==> !roles[i].Malformed?
  {
    if n > 0 {
      PairsOk(roles, n - 1);
    }
  }

  /** A failure names the first malformed line. */
  lemma {:induction false} PairsErr(roles: seq<LineRole>, n: nat)
    requires n <= |roles| && Pairs(roles, n).Err?
    ensures Pairs(roles, n).error.Unpacking?
    ensures var j := Pairs(roles, n).error.at;
      && j < n && roles[j].Malformed?
      && forall i :: 0 <= i < j ==> !roles[i].Malformed?
  {
    if Pairs(roles, n - 1).Err? {
      PairsErr(roles, n - 1);
    } else {
      PairsOk(roles, n - 1);
    }
  }

  /** The keys read are exactly the keys of the lines read as pairs. */
  lemma {:induction false} PairsKeys(roles: seq<LineRole>, n: nat, k: string)
    requires n <= |roles| && Pairs(roles, n).Ok?
    ensures k in Pairs(roles, n).value <==> exists i :: 0 <= i < n && roles[i].Pair? && roles[i].key == k
  {
    if n > 0 {
      PairsKeys(roles, n - 1, k);
      if roles[n - 1].Pair? && roles[n - 1].key == k {
        assert k in Pairs(roles, n).value;
      }
    }
  }

  /** The last pair for a key gives its value: later pairs overwrite earlier
      ones. */
  lemma {:induction false} PairsLastWins(roles: seq<LineRole>, n: nat, i: nat)
    requires n <= |roles| && Pairs(roles, n).Ok?
    requires i < n && roles[i].Pair?
    requires forall j :: i < j < n && roles[j].Pair? ==> roles[j].key != roles[i].key
    ensures roles[i].key in Pairs(roles, n).value
    ensures Pairs(roles, n).value[roles[i].key] == roles[i].value
  {
    if i < n - 1 {
      PairsLastWins(roles, n - 1, i);
    }
  }

  /** A line is read as a pair exactly when it contains `=`, is not a
      `[DEFAULT]` header and the flag is set before it; what is stored is the
      stripped key and value. */
  lemma RoleOfLine(lines: seq<string>, i: nat)
    requires i < |lines|
    ensures !Roles(lines)[i].Skipped? <==>
      FlagBefore(lines, i) && !IsDefaultHeader(lines[i]) && Contains(lines[i], "=")
    ensures Roles(lines)[i].Pair? ==>
      var parts := Split(Strip(lines[i]), "=");
      |parts| == 2 && Roles(lines)[i] == Pair(Strip(parts[0]), Strip(parts[1]))
  {
  }

  /** A line `k=v` ending in whitespace, with `=` in neither part, unpacks to
      the stripped key and value. */
  lemma UnpackPair(k: string, v: string, c: char)
    requires k != [] && !IsSpace(k[0]) && v != [] && !IsSpace(v[|v| - 1]) && IsSpace(c)
    requires '=' !in k && '=' !in v
    ensures Unpack(k + "=" + v + [c]) == Some((Strip(k), Strip(v)))
  {
    var line := k + "=" + v + [c];
    assert line == k + ['='] + (v + [c]);
    LStripThrough(k, '=', v + [c]);
    assert LStrip(k) == k;
    RStripThrough(k, '=', v + [c]);
    RStripSpaceSuffix(v, c);
    assert RStrip(v) == v;
    SplitOnce(k, '=', v);
  }

  // ---------------------------------------------------------------------
  // get_ssl_status, get_force_domain

  /** `config.get("ssl", "no").lower() == "yes"`. */
  function SslEnabled(config: map<string, string>): (on: bool)
    ensures on <==> "ssl" in config && Lower(config["ssl"]) == "yes"
  {
    var ssl := if "ssl" in config then config["ssl"] else "no";
    Lower(ssl) == "yes"
  }

  /** The spellings that count as enabled are `yes` in any mix of cases. */
  lemma SslSpellings(config: map<string, string>)
    ensures SslEnabled(config) <==>
      && "ssl" in config && |config["ssl"]| == 3
      && config["ssl"][0] in "yY" && config["ssl"][1] in "eE" && config["ssl"][2] in "sS"
  {
    if "ssl" in config && |config["ssl"]| == 3 {
      var s := config["ssl"];
      assert Lower(s) == [LowerChar(s[0]), LowerChar(s[1]), LowerChar(s[2])];
    }
  }

  /** `get_ssl_status`: reads the configuration (failing as reading fails). */
  method GetSslStatus(config: File) returns (r: Result<bool, ReadError>)
    ensures r.Err? <==> ReadResult(config).Err?
    ensures r.Err? ==> r.error == ReadResult(config).error
    ensures r.Ok? ==> (r.value <==> SslEnabled(ReadResult(config).value))
  {
    var pairs := ReadConfig(config);
    if pairs.Err? {
      return Err(pairs.error);
    }
    return Ok(SslEnabled(pairs.value));
  }

  /** `get_force_domain`: the configured `force_domain`, or the public IP
      (given as a parameter, since it comes from `curl`) when it is unset or
      empty. */
  method GetForceDomain(config: File, publicIp: string) returns (r: Result<string, ReadError>)
    ensures r.Err? <==> ReadResult(config).Err?
    ensures r.Ok? ==> var m := ReadResult(config).value;
      && ("force_domain" in m && m["force_domain"] != [] ==> r.value == m["force_domain"])
      && (!("force_domain" in m && m["force_domain"] != []) ==> r.value == publicIp)
  {
    var pairs := ReadConfig(config);
    if pairs.Err? {
      return Err(pairs.error);
    }
    var domain := if "force_domain" in pairs.value then pairs.value["force_domain"] else "";
    if domain == "" {
      domain := publicIp;
    }
    return Ok(domain);
  }

  // ---------------------------------------------------------------------
  // notifications get / update

  /** The index of the first line that starts with the parameter name (no `=`
      is required after it). */
  function FirstPrefixed(lines: seq<string>, name: string): (r: Option<nat>)
    ensures r.Some? ==> r.value < |lines| && StartsWith(lines[r.value], name)
    ensures r.Some? ==> forall j :: 0 <= j < r.value ==> !StartsWith(lines[j], name)
    ensures r.None? ==> forall j :: 0 <= j < |lines| ==> !StartsWith(lines[j], name)
  {
    if lines == [] then None
    else if StartsWith(lines[0], name) then Some(0)
    else
      match FirstPrefixed(lines[1..], name)
      case None => None
      case Some(k) => Some(k + 1)
  }

  datatype NotificationError =
    | NotificationsMissing  // the notifications file does not exist
    | NoValue               // the matching line has no `=` (an `IndexError`)

  /** What `notifications get` reports: `None` for "does not exist". */
  function NotificationValue(file: File, name: string): Result<Option<string>, NotificationError>
  {
    match file
    case Missing => Err(NotificationsMissing)
    case Present(lines) =>
      match FirstPrefixed(lines, name)
      case None => Ok(None)
      case Some(i) =>
        var parts := Split(lines[i], "=");
        if |parts| < 2 then Err(NoValue) else Ok(Some(Strip(parts[1])))
  }

  /** `get_config` of the notifications file: stops at the first match. */
  method GetNotification(file: File, name: string) returns (r: Result<Option<string>, NotificationError>)
    ensures r == NotificationValue(file, name)
  {
    if file.Missing? {
      return Err(NotificationsMissing);
    }
    var lines := file.lines;
    var i := 0;
    while i < |lines|
      invariant 0 <= i <= |lines|
      invariant forall j :: 0 <= j < i ==> !StartsWith(lines[j], name)
    {
      if StartsWith(lines[i], name) {
        assert FirstPrefixed(lines, name) == Some(i);
        var parts := Split(lines[i], "=");
        if |parts| < 2 {
          return Err(NoValue);
        }
        return Ok(Some(Strip(parts[1])));
      }
      i := i + 1;
    }
    return Ok(None);
  }

  /** The line `notifications update` writes. */
  function NotificationLine(name: string, value: string): string
  {
    name + "=" + value + "\n"
  }

  datatype UpdateOutcome =
    | FileMissing                       // the notifications file does not exist
    | NotUpdated                        // no line matched: nothing is written
    | Updated(lines: seq<string>)       // the lines written back

  function UpdatedNotifications(file: File, name: string, value: string): UpdateOutcome
  {
    match file
    case Missing => FileMissing
    case Present(lines) =>
      match FirstPrefixed(lines, name)
      case None => NotUpdated
      case Some(i) => Updated(lines[i := NotificationLine(name, value)])
  }

  /** `update_config` of the notifications file: replaces the first match in
      the list of lines and stops. */
  method UpdateNotification(file: File, name: string, value: string) returns (r: UpdateOutcome)
    ensures r == UpdatedNotifications(file, name, value)
  {
    if file.Missing? {
      return FileMissing;
    }
    var original := file.lines;
    var lines := original;
    var updated := false;
    var i := 0;
    while i < |lines|
      invariant 0 <= i <= |lines| == |original|
      invariant !updated && lines == original
      invariant forall j :: 0 <= j < i ==> !StartsWith(lines[j], name)
    {
      if StartsWith(lines[i], name) {
        assert FirstPrefixed(lines, name) == Some(i);
        lines := lines[i := name + "=" + value + "\n"];
        updated := true;
        break;
      }
      i := i + 1;
    }
    if !updated {
      return NotUpdated;
    }
    return Updated(lines);
  }

  /** Only the first matching line changes; every other line, including later
      matches, is written back as it was. */
  lemma UpdateTouchesFirstMatchOnly(lines: seq<string>, name: string, value: string)
    requires FirstPrefixed(lines, name).Some?
    ensures var i := FirstPrefixed(lines, name).value;
      var out := UpdatedNotifications(Present(lines), name, value).lines;
      && |out| == |lines|
      && out[i] == name + "=" + value + "\n"
      && forall j :: 0 <= j < |lines| && j != i ==> out[j] == lines[j]
  {
  }

  lemma NotificationLineStarts(name: string, value: string)
    ensures StartsWith(NotificationLine(name, value), name)
  {
    assert NotificationLine(name, value)[..|name|] == name;
  }

  /** The rewritten line is still the first match. */
  lemma UpdateKeepsFirstMatch(lines: seq<string>, name: string, value: string)
    requires FirstPrefixed(lines, name).Some?
    ensures var i := FirstPrefixed(lines, name).value;
      FirstPrefixed(lines[i := NotificationLine(name, value)], name) == Some(i)
  {
    var i := FirstPrefixed(lines, name).value;
    var out := lines[i := NotificationLine(name, value)];
    NotificationLineStarts(name, value);
    assert forall j :: 0 <= j < i ==> out[j] == lines[j];
    assert StartsWith(out[i], name);
  }

  /** The value `get` reads from the line `update` writes. */
  lemma NotificationLineValue(name: string, value: string)
    requires '=' !in name && '=' !in value
    ensures Split(NotificationLine(name, value), "=") == [name, value + "\n"]
  {
    assert NotificationLine(name, value) == name + ['='] + (value + "\n");
    SplitOnce(name, '=', value + "\n");
  }

  /** Round trip: after a successful update, `get` of the same name reports
      the new value, stripped. */
  lemma GetAfterNotificationUpdate(lines: seq<string>, name: string, value: string)
    requires FirstPrefixed(lines, name).Some?
    requires '=' !in name && '=' !in value
    requires '\n' !in name && '\n' !in value
    ensures var out := UpdatedNotifications(Present(lines), name, value).lines;
      NotificationValue(Present(out), name) == Ok(Some(Strip(value + "\n")))
  {
    var i := FirstPrefixed(lines, name).value;
    UpdateKeepsFirstMatch(lines, name, value);
    NotificationLineValue(name, value);
    var out := lines[i := NotificationLine(name, value)];
    assert out[i] == NotificationLine(name, value);
  }

  /** With no match the outcome is "not found" and nothing is written. */
  lemma UpdateMissNoWrite(lines: seq<string>, name: string, value: string)
    requires forall j :: 0 <= j < |lines| ==> !StartsWith(lines[j], name)
    ensures UpdatedNotifications(Present(lines), name, value) == NotUpdated
  {
  }
}
