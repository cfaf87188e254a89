/** `opencli config`: reading and updating the flat `key=value` panel
    configuration, and the rewrites of the reverse-proxy template that an
    update of `ssl`, `port` or `openpanel_proxy` triggers (config.py). */
module PanelConfig {
  import opened Base
  import opened Text

  /** Keys whose update neither reloads the panel service nor runs the `rm`
      meant to clear the per-user `data.json` caches (its `*` is passed to
      `rm` as it is, with no shell to expand it). */
  const ReloadExempt: set<string> := {"autoupdate", "default_php_version", "autopatch"}

  const PlainPass: string := "proxy_pass http://"
  const SecurePass: string := "proxy_pass https://"
  const OpenpanelLocation: string := "location /openpanel"

  // ---------------------------------------------------------------------
  // Entries of the panel configuration

  /** A line that `get` and `update` treat as the entry for `key`. */
  predicate IsEntry(line: string, key: string)
  {
    StartsWith(line, key + "=")
  }

  /** The line `update` writes for `key`. */
  function EntryLine(key: string, value: string): string
  {
    key + "=" + value + "\n"
  }

  lemma EntryStripped(line: string, key: string)
    requires IsEntry(line, key)
    ensures Strip(line) == LStrip(key) + "=" + RStrip(line[|key| + 1..])
    ensures '=' in Strip(line)
  {
    var rest := line[|key| + 1..];
    assert line == key + ['='] + rest;
    LStripThrough(key, '=', rest);
    RStripThrough(LStrip(key), '=', rest);
    assert Strip(line)[|LStrip(key)|] == '=';
  }

  /** What `get` prints for an entry: the second `=`-separated field of the
      stripped line. */
  function EntryValue(line: string, key: string): string
    requires IsEntry(line, key)
  {
    EntryStripped(line, key);
    ContainsChar(Strip(line), '=');
    Split(Strip(line), "=")[1]
  }

  /** The index of the first entry line for `key`. */
  function FirstEntry(lines: seq<string>, key: string): (r: Option<nat>)
    ensures r.Some? ==> r.value < |lines| && IsEntry(lines[r.value], key)
    ensures r.Some? ==> forall j :: 0 <= j < r.value ==> !IsEntry(lines[j], key)
    ensures r.None? ==> forall j :: 0 <= j < |lines| ==> !IsEntry(lines[j], key)
  {
    if lines == [] then None
    else if IsEntry(lines[0], key) then Some(0)
    else
      match FirstEntry(lines[1..], key)
      case None => None
      case Some(k) => Some(k + 1)
  }

  /** The value `get` reports for `key`, if the key is present. */
  function Lookup(lines: seq<string>, key: string): Option<string>
  {
    match FirstEntry(lines, key)
    case None => None
    case Some(i) => Some(EntryValue(lines[i], key))
  }

  datatype GetOutcome =
    | Printed(value: string)   // the value is printed
    | DoesNotExist             // "Parameter <key> does not exist."
    | ConfigNotFound           // "Error: File not found."

  function GetResult(config: File, key: string): GetOutcome
  {
    match config
    case Missing => ConfigNotFound
    case Present(lines) =>
      match Lookup(lines, key)
      case Some(v) => Printed(v)
      case None => DoesNotExist
  }

  /** `get_config`: scans the lines in order and stops at the first entry. */
  method GetConfig(config: File, key: string) returns (out: GetOutcome)
    ensures out == GetResult(config, key)
    ensures out.Printed? ==> exists i :: 0 <= i < |config.lines| && IsEntry(config.lines[i], key)
  {
    if config.Missing? {
      return ConfigNotFound;
    }
    var lines := config.lines;
    var i := 0;
    while i < |lines|
      invariant 0 <= i <= |lines|
      invariant forall j :: 0 <= j < i ==> !IsEntry(lines[j], key)
    {
      if StartsWith(lines[i], key + "=") {
        assert FirstEntry(lines, key) == Some(i);
        return Printed(EntryValue(lines[i], key));
      }
      i := i + 1;
    }
    return DoesNotExist;
  }

  /** A line as `update` writes it back. */
  function UpdatedLine(line: string, key: string, value: string): string
  {
    if IsEntry(line, key) then EntryLine(key, value) else line
  }

  function UpdatedLines(lines: seq<string>, key: string, value: string): seq<string>
  {
    seq(|lines|, i requires 0 <= i < |lines| => UpdatedLine(lines[i], key, value))
  }

  function UpdatedConfig(config: File, key: string, value: string): File
  {
    match config
    case Missing => Missing
    case Present(lines) => Present(UpdatedLines(lines, key, value))
  }

  /** `update_config`: rewrites every entry for `key`, writes all lines back,
      and asks for a reload unless the key is exempt. A missing file is
      reported and nothing else happens. */
  method UpdateConfig(config: File, key: string, value: string) returns (written: File, reload: bool)
    ensures written == UpdatedConfig(config, key, value)
    ensures reload <==> config.Present? && key !in ReloadExempt
  {
    if config.Missing? {
      return Missing, false;
    }
    var lines := config.lines;
    var out: seq<string> := [];
    var i := 0;
    while i < |lines|
      invariant 0 <= i <= |lines|
      invariant |out| == i
      invariant forall j :: 0 <= j < i ==> out[j] == UpdatedLine(lines[j], key, value)
    {
      var line := lines[i];
      if StartsWith(line, key + "=") {
        line := key + "=" + value + "\n";
      }
      out := out + [line];
      i := i + 1;
    }
    written := Present(out);
    reload := key !in ["autoupdate", "default_php_version", "autopatch"];
  }

  /** `update` keeps the number of lines, turns every entry for the key into
      exactly `key=value\n` and leaves every other line as it was. */
  lemma UpdateShape(lines: seq<string>, key: string, value: string)
    ensures |UpdatedLines(lines, key, value)| == |lines|
    ensures forall i :: 0 <= i < |lines| && IsEntry(lines[i], key) ==>
      UpdatedLines(lines, key, value)[i] == key + "=" + value + "\n"
    ensures forall i :: 0 <= i < |lines| && !IsEntry(lines[i], key) ==>
      UpdatedLines(lines, key, value)[i] == lines[i]
    ensures FirstEntry(lines, key).None? ==> UpdatedLines(lines, key, value) == lines
  {
  }

  lemma EntryLineIsEntry(key: string, value: string)
    ensures IsEntry(EntryLine(key, value), key)
  {
    assert EntryLine(key, value)[..|key| + 1] == key + "=";
  }

  /** The first entry for the key stays where it was. */
  lemma {:induction false} UpdateKeepsFirstEntry(lines: seq<string>, key: string, value: string)
    ensures FirstEntry(UpdatedLines(lines, key, value), key) == FirstEntry(lines, key)
  {
    EntryLineIsEntry(key, value);
    var u := UpdatedLines(lines, key, value);
    assert forall j :: 0 <= j < |lines| ==> (IsEntry(u[j], key) <==> IsEntry(lines[j], key));
    match FirstEntry(lines, key)
    case None =>
      assert FirstEntry(u, key).None?;
    case Some(k) =>
      assert FirstEntry(u, key) == Some(k);
  }

  /** The value `get` reads back from the entry line `update` writes. */
  lemma EntryLineValue(key: string, value: string)
    requires '=' !in key && '=' !in value
    ensures EntryValue(EntryLine(key, value), key) == RStrip(value)
  {
    var line := EntryLine(key, value);
    EntryLineIsEntry(key, value);
    EntryStripped(line, key);
    assert line[|key| + 1..] == value + ['\n'];
    RStripSpaceSuffix(value, '\n');
    assert '=' !in LStrip(key) by {
      LStripSpec(key);
    }
    assert '=' !in RStrip(value) by {
      RStripSpec(value);
    }
    SplitOnce(LStrip(key), '=', RStrip(value));
  }

  /** Round trip: after `update key value` on a file that has the key, `get key`
      prints the value (less any trailing whitespace, which `strip` drops). */
  lemma GetAfterUpdate(lines: seq<string>, key: string, value: string)
    requires FirstEntry(lines, key).Some?
    requires '=' !in key && '=' !in value
    requires '\n' !in key && '\n' !in value
    ensures Lookup(UpdatedLines(lines, key, value), key) == Some(RStrip(value))
  {
    UpdateKeepsFirstEntry(lines, key, value);
    var i := FirstEntry(lines, key).value;
    assert UpdatedLines(lines, key, value)[i] == EntryLine(key, value);
    EntryLineValue(key, value);
  }

  /** Updating twice with the same value is the same as updating once. */
  lemma UpdateIdempotent(lines: seq<string>, key: string, value: string)
    ensures UpdatedLines(UpdatedLines(lines, key, value), key, value) == UpdatedLines(lines, key, value)
  {
    EntryLineIsEntry(key, value);
  }

  // ---------------------------------------------------------------------
  // Rewrites of the reverse-proxy template

  datatype EffectOutcome =
    | Rewritten          // the template was written back
    | NotWritten         // the template was read but not written
    | TemplateNotFound   // "Error: File not found."

  /** `update_ssl_config` on one line; `yes` turns plain upstreams into TLS
      ones, `no` the other way round. */
  function SslLine(line: string, value: string): string
  {
    if value == "yes" && Contains(line, PlainPass) then Replace(line, PlainPass, SecurePass)
    else if value == "no" && Contains(line, SecurePass) then Replace(line, SecurePass, PlainPass)
    else line
  }

  function SslTemplate(proxy: File, value: string): File
  {
    match proxy
    case Missing => Missing
    case Present(lines) =>
      if value == "yes" || value == "no" then
        Present(seq(|lines|, i requires 0 <= i < |lines| => SslLine(lines[i], value)))
      else proxy
  }

  /** `update_ssl_config`: the template is read first, so a missing template
      is reported whatever the value; values other than `yes`/`no` write nothing. */
  method UpdateSslConfig(proxy: File, value: string) returns (written: File, outcome: EffectOutcome)
    ensures written == SslTemplate(proxy, value)
    ensures outcome == (if proxy.Missing? then TemplateNotFound
                        else if value == "yes" || value == "no" then Rewritten
                        else NotWritten)
  {
    if proxy.Missing? {
      return Missing, TemplateNotFound;
    }
    if value != "yes" && value != "no" {
      return proxy, NotWritten;
    }
    var lines := proxy.lines;
    var out: seq<string> := [];
    var i := 0;
    while i < |lines|
      invariant 0 <= i <= |lines|
      invariant |out| == i
      invariant forall j :: 0 <= j < i ==> out[j] == SslLine(lines[j], value)
    {
      var line := lines[i];
      if value == "yes" {
        if Contains(line, PlainPass) {
          line := Replace(line, PlainPass, SecurePass);
        }
      } else {
        if Contains(line, SecurePass) {
          line := Replace(line, SecurePass, PlainPass);
        }
      }
      out := out + [line];
      i := i + 1;
    }
    return Present(out), Rewritten;
  }

  /** A line without the scheme being replaced is untouched, and a line with it
      has every occurrence replaced. */
  lemma SslLineShape(line: string, value: string)
    requires value == "yes" || value == "no"
    ensures var (from, to) := if value == "yes" then (PlainPass, SecurePass) else (SecurePass, PlainPass);
            && (!Contains(line, from) ==> SslLine(line, value) == line)
            && SslLine(line, value) == Join(Split(line, from), to)
  {
    ReplaceIsJoinSplit(line, PlainPass, SecurePass);
    ReplaceIsJoinSplit(line, SecurePass, PlainPass);
    JoinSplit(line, PlainPass);
    JoinSplit(line, SecurePass);
  }

  /** A line that names an upstream, the lines `update_port_config` rewrites. */
  predicate IsUpstream(line: string)
  {
    Contains(line, SecurePass) || Contains(line, PlainPass)
  }

  /** config.py as written: the text before the first `:` of the line, then the new port. */
  function PortLineAsWritten(line: string, port: string): string
  {
    Split(line, ":")[0] + ":" + port + ";\n"
  }

  /** The scheme and host of an upstream: the line up to the first `:` after
      its `://`. */
  function Authority(line: string): Option<string>
  {
    match Find(line, "://")
    case None => None
    case Some(s) =>
      match Find(line[s + 3..], ":")
      case None => None
      case Some(c) => Some(line[..s + 3 + c])
  }

  /** Port replacement as intended: keep the scheme and host, replace the port. */
  function PortLine(line: string, port: string): string
  {
    match Authority(line)
    case None => line
    case Some(a) => a + ":" + port + ";\n"
  }

  const SampleUpstream: string := "proxy_pass http://h:1;\n"

  lemma SampleScheme()
    ensures Find(SampleUpstream, "://") == Some(15)
  {
    var line := SampleUpstream;
    assert line[..15] == "proxy_pass http";
    NotBefore(line, "://", 15);
    assert line[15..18] == "://";
    FindFirst(line, "://", 15);
  }

  lemma SampleHost()
    ensures Find(SampleUpstream[18..], ":") == Some(1)
  {
    var tail := SampleUpstream[18..];
    assert tail == "h:1;\n";
    NotBefore(tail, ":", 1);
    assert tail[1..2] == ":";
    FindFirst(tail, ":", 1);
  }

  lemma SampleAuthority()
    ensures Authority(SampleUpstream) == Some("proxy_pass http://h")
  {
    SampleScheme();
    SampleHost();
    AuthorityAt(SampleUpstream, 15, 1);
    assert SampleUpstream[..19] == "proxy_pass http://h";
  }

  lemma SampleCut()
    ensures PortLineAsWritten(SampleUpstream, "2") == "proxy_pass http:2;\n"
  {
    var line := SampleUpstream;
    assert line[..15] == "proxy_pass http";
    NotBefore(line, ":", 15);
    assert line[15..16] == ":";
    FindFirst(line, ":", 15);
  }

  lemma CutHasNoAuthority()
    ensures Authority("proxy_pass http:2;\n") == None
  {
    var cut := "proxy_pass http:2;\n";
    assert cut[..15] == "proxy_pass http";
    NotBefore(cut, "://", 15);
    assert cut[15..18] == ":2;";
    assert cut[16..19] == "2;\n";
    NotBetween(cut, "://", 16, 19);
  }

  /** The cut as written on one upstream: `proxy_pass http://h:1;` becomes
      `proxy_pass http:2;`, which has lost its host and is no longer a URL. */
  lemma PortCutSample()
    ensures Authority(SampleUpstream) == Some("proxy_pass http://h")
    ensures PortLineAsWritten(SampleUpstream, "2") == "proxy_pass http:2;\n"
    ensures Authority(PortLineAsWritten(SampleUpstream, "2")) == None
  {
    SampleAuthority();
    SampleCut();
    CutHasNoAuthority();
  }

  /** The text before the first `:` holds no `:`. */
  lemma CutHasNoColon(line: string)
    ensures ':' !in Split(line, ":")[0]
  {
    SplitHead(line, ":");
    var p := Split(line, ":")[0];
    if Find(line, ":").Some? {
      NoneBeforeFirst(line, ":", Find(line, ":").value);
    }
    ContainsChar(p, ':');
  }

  /** config.py:95 as written, on every line: whatever the line held, the
      rewritten line has no scheme and host left, for any port without a `:`. */
  lemma PortCutLosesHost(line: string, port: string)
    requires ':' !in port
    ensures Authority(PortLineAsWritten(line, port)) == None
  {
    var p := Split(line, ":")[0];
    CutHasNoColon(line);
    var r := PortLineAsWritten(line, port);
    assert r == p + ":" + port + ";\n";
    assert forall k :: 0 <= k < |r| && k != |p| ==> r[k] != ':' by {
      forall k | 0 <= k < |r| && k != |p| ensures r[k] != ':' {
        if k < |p| {
          assert r[k] == p[k];
        } else if k < |p| + 1 + |port| {
          assert r[k] == port[k - |p| - 1];
        }
      }
    }
    match Find(r, "://")
    case None =>
    case Some(s) =>
      assert r[s..s + 3] == "://";
      assert r[s] == ':';
      var t := r[s + 3..];
      assert ':' !in t by {
        forall k | 0 <= k < |t| ensures t[k] != ':' {
          assert t[k] == r[s + 3 + k];
        }
      }
      ContainsChar(t, ':');
  }

  lemma AuthorityAt(line: string, s: nat, c: nat)
    requires Find(line, "://") == Some(s)
    requires Find(line[s + 3..], ":") == Some(c)
    ensures Authority(line) == Some(line[..s + 3 + c])
  {
  }

  /** The rewritten line agrees with the original up to and including the
      colon before the port. */
  lemma RewriteKeepsPrefix(line: string, h: nat, c: nat, port: string)
    requires h + c < |line| && line[h + c] == ':'
    ensures var r := line[..h + c] + ":" + port + ";\n";
      && r[..h] == line[..h]
      && r[h..][..c + 1] == line[h..][..c + 1]
  {
    var r := line[..h + c] + ":" + port + ";\n";
    assert r[h..][..c + 1] == line[h..h + c] + ":";
    assert line[h..][..c + 1] == line[h..h + c] + [line[h + c]];
  }

  /** The corrected port rewrite keeps the scheme and host it found. */
  lemma PortKeepsAuthority(line: string, port: string)
    requires Authority(line).Some?
    ensures Authority(PortLine(line, port)) == Authority(line)
  {
    var s := Find(line, "://").value;
    var lt := line[s + 3..];
    var c := Find(lt, ":").value;
    var a := line[..s + 3 + c];
    AuthorityAt(line, s, c);
    var r := a + ":" + port + ";\n";
    assert PortLine(line, port) == r;
    RewriteKeepsPrefix(line, s + 3, c, port);
    FindInPrefix(line, r, "://");
    var rt := r[s + 3..];
    FindInPrefix(lt, rt, ":");
    AuthorityAt(r, s, c);
    assert r[..s + 3 + c] == a;
  }

  /** Rewriting the port twice with the same port is the same as once. */
  lemma PortIdempotent(line: string, port: string)
    ensures PortLine(PortLine(line, port), port) == PortLine(line, port)
  {
    if Authority(line).Some? {
      PortKeepsAuthority(line, port);
    }
  }

  /** The template after `update_port_config` as written. */
  function PortTemplateAsWritten(proxy: File, port: string): File
  {
    match proxy
    case Missing => Missing
    case Present(lines) =>
      Present(seq(|lines|, i requires 0 <= i < |lines| =>
        if IsUpstream(lines[i]) then PortLineAsWritten(lines[i], port) else lines[i]))
  }

  /** As written, the rewrite keeps the lines and their number but leaves no
      upstream in the template with a scheme and host. */
  lemma PortTemplateLosesHosts(lines: seq<string>, port: string)
    requires ':' !in port
    ensures PortTemplateAsWritten(Present(lines), port).Present?
    ensures var out := PortTemplateAsWritten(Present(lines), port).lines;
      && |out| == |lines|
      && forall i :: 0 <= i < |lines| ==>
           if IsUpstream(lines[i]) then Authority(out[i]) == None else out[i] == lines[i]
  {
    forall i | 0 <= i < |lines| && IsUpstream(lines[i])
      ensures Authority(PortLineAsWritten(lines[i], port)) == None
    {
      PortCutLosesHost(lines[i], port);
    }
  }

  /** The template after the corrected port rewrite. */
  function PortTemplate(proxy: File, port: string): File
  {
    match proxy
    case Missing => Missing
    case Present(lines) =>
      Present(seq(|lines|, i requires 0 <= i < |lines| =>
        if IsUpstream(lines[i]) then PortLine(lines[i], port) else lines[i]))
  }

  /** `update_port_config` as written: every upstream line is cut at its
      first `:` (see PortCutLosesHost). */
  method UpdatePortConfig(proxy: File, port: string) returns (written: File, outcome: EffectOutcome)
    ensures written == PortTemplateAsWritten(proxy, port)
    ensures outcome == if proxy.Missing? then TemplateNotFound else Rewritten
  {
    if proxy.Missing? {
      return Missing, TemplateNotFound;
    }
    var lines := proxy.lines;
    var out: seq<string> := [];
    var i := 0;
    while i < |lines|
      invariant 0 <= i <= |lines|
      invariant |out| == i
      invariant forall j :: 0 <= j < i ==>
        out[j] == if IsUpstream(lines[j]) then PortLineAsWritten(lines[j], port) else lines[j]
    {
      var line := lines[i];
      if Contains(line, SecurePass) || Contains(line, PlainPass) {
        line := Split(line, ":")[0] + ":" + port + ";\n";
      }
      out := out + [line];
      i := i + 1;
    }
    return Present(out), Rewritten;
  }

  /** The corrected rewrite keeps the scheme and host of every upstream that
      has one, and leaves every other line as it was. */
  lemma PortTemplateKeepsHosts(lines: seq<string>, port: string)
    ensures PortTemplate(Present(lines), port).Present?
    ensures var out := PortTemplate(Present(lines), port).lines;
      && |out| == |lines|
      && forall i :: 0 <= i < |lines| ==>
           if IsUpstream(lines[i]) then Authority(out[i]) == Authority(lines[i])
           else out[i] == lines[i]
  {
    forall i | 0 <= i < |lines| && IsUpstream(lines[i])
      ensures Authority(PortLine(lines[i], port)) == Authority(lines[i])
    {
      if Authority(lines[i]).Some? {
        PortKeepsAuthority(lines[i], port);
      }
    }
  }

  lemma SlashInLocation(line: string)
    requires Contains(line, OpenpanelLocation)
    ensures Contains(line, "/")
  {
    var k := Find(line, OpenpanelLocation).value;
    assert OpenpanelLocation[9] == '/';
    assert line[k..k + |OpenpanelLocation|] == OpenpanelLocation;
    assert line[k + 9] == line[k..k + |OpenpanelLocation|][9];
    ContainsChar(line, '/');
  }

  /** `update_openpanel_proxy_config` on one line: the segment between the
      first and the second `/` is the old path, and every `/<old path>` in the
      line becomes `/<new value>`. */
  function ProxyPathLine(line: string, newPath: string): string
  {
    if Contains(line, OpenpanelLocation) then
      SlashInLocation(line);
      var path := Split(line, "/")[1];
      Replace(line, "/" + path, "/" + newPath)
    else line
  }

  /** The second piece of a split on `/` is the first piece of what follows
      the first `/`. */
  lemma SecondPiece(line: string, i: nat)
    requires Find(line, "/") == Some(i)
    ensures |Split(line, "/")| >= 2 && Split(line, "/")[1] == Split(line[i + 1..], "/")[0]
  {
    assert Split(line, "/") == [line[..i]] + Split(line[i + 1..], "/");
  }

  /** A `/` followed by a prefix of the rest of the line. */
  lemma SlashThen(line: string, i: nat, path: string)
    requires OccursAt(line, "/", i) && StartsWith(line[i + 1..], path)
    ensures OccursAt(line, "/" + path, i)
  {
    var tail := line[i + 1..];
    assert line[i + 1..i + 1 + |path|] == tail[..|path|];
    assert line[i..i + 1 + |path|] == line[i..i + 1] + line[i + 1..i + 1 + |path|];
  }

  /** The old path is the piece of the line right after its first `/`. */
  lemma OldPathFollowsFirstSlash(line: string)
    requires Contains(line, "/")
    ensures var i := Find(line, "/").value;
            var path := Split(line, "/")[1];
            Find(line, "/" + path) == Some(i)
  {
    var i := Find(line, "/").value;
    SecondPiece(line, i);
    var path := Split(line, "/")[1];
    SplitHead(line[i + 1..], "/");
    SlashThen(line, i, path);
    FindExtension(line, "/", path, i);
  }

  /** The text before the first `/` is kept and the first path segment
      becomes the new value. */
  lemma ProxyPathReplacesFirstSegment(line: string, newPath: string)
    requires Contains(line, OpenpanelLocation)
    ensures Contains(line, "/") &&
            var i := Find(line, "/").value;
            StartsWith(ProxyPathLine(line, newPath), line[..i] + "/" + newPath)
  {
    SlashInLocation(line);
    var i := Find(line, "/").value;
    var path := Split(line, "/")[1];
    assert ProxyPathLine(line, newPath) == Replace(line, "/" + path, "/" + newPath);
    OldPathFollowsFirstSlash(line);
    ReplaceAt(line, "/" + path, "/" + newPath);
    StartsWithConcat(line[..i] + "/" + newPath, Replace(line[i + 1 + |path|..], "/" + path, "/" + newPath));
  }

  function ProxyPathTemplate(proxy: File, newPath: string): File
  {
    match proxy
    case Missing => Missing
    case Present(lines) =>
      Present(seq(|lines|, i requires 0 <= i < |lines| => ProxyPathLine(lines[i], newPath)))
  }

  /** `update_openpanel_proxy_config`. */
  method UpdateOpenpanelProxyConfig(proxy: File, newPath: string) returns (written: File, outcome: EffectOutcome)
    ensures written == ProxyPathTemplate(proxy, newPath)
    ensures outcome == if proxy.Missing? then TemplateNotFound else Rewritten
  {
    if proxy.Missing? {
      return Missing, TemplateNotFound;
    }
    var lines := proxy.lines;
    var out: seq<string> := [];
    var i := 0;
    while i < |lines|
      invariant 0 <= i <= |lines|
      invariant |out| == i
      invariant forall j :: 0 <= j < i ==> out[j] == ProxyPathLine(lines[j], newPath)
    {
      var line := lines[i];
      if Contains(line, OpenpanelLocation) {
        SlashInLocation(line);
        var path := Split(line, "/")[1];
        line := Replace(line, "/" + path, "/" + newPath);
      }
      out := out + [line];
      i := i + 1;
    }
    return Present(out), Rewritten;
  }

  // ---------------------------------------------------------------------
  // The command line

  /** One run of `opencli config ...`: the exit status, what `get` reported,
      both files afterwards, whether the reload and the `rm` ran, and the
      outcome of the template rewrite (if one was attempted). */
  datatype Run = Run(exitCode: int, got: Option<GetOutcome>, config: File, proxy: File,
                     reloaded: bool, effect: Option<EffectOutcome>)

  predicate UsageError(args: seq<string>)
  {
    || |args| < 2 || |args| > 3
    || (args[0] != "get" && args[0] != "update")
    || (args[0] == "update" && |args| != 3)
  }

  /** The template file after `update key value`. */
  function ProxyAfterUpdate(proxy: File, key: string, value: string): File
  {
    if key == "ssl" then SslTemplate(proxy, value)
    else if key == "port" then PortTemplateAsWritten(proxy, value)
    else if key == "openpanel_proxy" then ProxyPathTemplate(proxy, value)
    else proxy
  }

  /** `main`: dispatches `get` and `update`; after an update of `ssl`, `port`
      or `openpanel_proxy` it rewrites the template even when the panel
      configuration itself was missing. */
  method RunCommand(args: seq<string>, config: File, proxy: File) returns (run: Run)
    ensures run.exitCode == (if UsageError(args) then 1 else 0)
    ensures UsageError(args) ==> run.config == config && run.proxy == proxy && !run.reloaded
    ensures !UsageError(args) && args[0] == "get" ==>
      run == Run(0, Some(GetResult(config, args[1])), config, proxy, false, None)
    ensures !UsageError(args) && args[0] == "update" ==>
      && run.got == None
      && run.config == UpdatedConfig(config, args[1], args[2])
      && run.proxy == ProxyAfterUpdate(proxy, args[1], args[2])
      && (run.reloaded <==> config.Present? && args[1] !in ReloadExempt)
      && (run.effect.Some? <==> args[1] in {"ssl", "port", "openpanel_proxy"})
  {
    if |args| < 2 || |args| > 3 {
      return Run(1, None, config, proxy, false, None);
    }
    var command := args[0];
    var key := args[1];
    if command == "get" {
      var got := GetConfig(config, key);
      return Run(0, Some(got), config, proxy, false, None);
    } else if command == "update" {
      if |args| != 3 {
        return Run(1, None, config, proxy, false, None);
      }
      var value := args[2];
      var newConfig, reload := UpdateConfig(config, key, value);
      var newProxy, effect := proxy, None;
      if key == "ssl" {
        var outcome;
        newProxy, outcome := UpdateSslConfig(proxy, value);
        effect := Some(outcome);
      } else if key == "port" {
        var outcome;
        newProxy, outcome := UpdatePortConfig(proxy, value);
        effect := Some(outcome);
      } else if key == "openpanel_proxy" {
        var outcome;
        newProxy, outcome := UpdateOpenpanelProxyConfig(proxy, value);
        effect := Some(outcome);
      }
      return Run(0, None, newConfig, newProxy, reload, effect);
    } else {
      return Run(1, None, config, proxy, false, None);
    }
  }

  /** config.py as written: `main` is defined but nothing at the top level
      calls it, so a run reads nothing, writes nothing and exits 0. */
  function RunAsWritten(args: seq<string>, config: File, proxy: File): (run: Run)
    ensures run.exitCode == 0 && run.got == None && run.effect == None
    ensures run.config == config && run.proxy == proxy && !run.reloaded
  {
    Run(0, None, config, proxy, false, None)
  }

  /** As written, `update k v` on a file holding `k=x` leaves the file as it
      was and exits 0, where `main` (RunCommand) writes `k=v`. */
  lemma MissingMainIgnoresUpdate()
    ensures !UsageError(["update", "k", "v"])
    ensures UpdatedConfig(Present(["k=x\n"]), "k", "v") == Present(["k=v\n"])
    ensures RunAsWritten(["update", "k", "v"], Present(["k=x\n"]), Missing).config == Present(["k=x\n"])
    ensures RunAsWritten(["update", "k", "v"], Present(["k=x\n"]), Missing).exitCode == 0
  {
    assert "k" + "=" == "k=" && ("k=x\n")[..2] == "k=";
    assert IsEntry("k=x\n", "k");
    assert "k" + "=" + "v" + "\n" == "k=v\n";
    assert UpdatedLine("k=x\n", "k", "v") == "k=v\n";
    assert UpdatedLines(["k=x\n"], "k", "v") == ["k=v\n"];
  }
}
