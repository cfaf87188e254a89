/** `opencli php-default_php_version <user> [--update <version>]`: the check of
    a PHP version, the substitution that sets it in the user's
    `server_config.yml`, and the search that reads it back
    (php/default_php_version.py). The configuration text is an input. */
module PhpVersion {
  import opened Base
  import opened Text

  // ---------------------------------------------------------------------
  // validate_php_version

  /** `re.match(r'^[0-9]\.[0-9]$', version)`: a digit, a dot and a digit; `$`
      also matches just before a final newline. */
  predicate ValidVersion(version: string)
  {
    var body := if |version| > 0 && version[|version| - 1] == '\n' then version[..|version| - 1] else version;
    |body| == 3 && IsDigit(body[0]) && body[1] == '.' && IsDigit(body[2])
  }

  /** The accepted versions are exactly `d.d`, optionally followed by one
      newline. */
  lemma ValidVersionShape(major: char, minor: char, newline: bool)
    ensures ValidVersion([major, '.', minor] + (if newline then "\n" else [])) <==> IsDigit(major) && IsDigit(minor)
  {
    var v := [major, '.', minor] + (if newline then "\n" else []);
    if newline {
      assert v[..3] == [major, '.', minor];
    }
  }

  /** A valid version is four characters at most and starts with its three
      version characters. */
  lemma ValidVersionChars(version: string)
    requires ValidVersion(version)
    ensures 3 <= |version| <= 4
    ensures IsVersionChar(version[0]) && IsVersionChar(version[1]) && IsVersionChar(version[2])
    ensures |version| == 4 ==> version[3] == '\n'
    ensures IsDigit(version[0]) && version[1] == '.' && IsDigit(version[2])
  {
  }

  // ---------------------------------------------------------------------
  // The pattern `default_php_version:\s*php[0-9.]+`. The functions below take
  // the key as a parameter; the script uses `Key`.

  const Key: string := "default_php_version:"

  predicate IsVersionChar(c: char)
  {
    IsDigit(c) || c == '.'
  }

  /** The end of the run of whitespace from `k`. */
  function SpaceEnd(t: string, k: nat): (r: nat)
    requires k <= |t|
    ensures k <= r <= |t|
    ensures r == |t| || !IsSpace(t[r])
    decreases |t| - k
  {
    if k < |t| && IsSpace(t[k]) then SpaceEnd(t, k + 1) else k
  }

  /** The end of the run of version characters `[0-9.]` from `k`. */
  function VersionEnd(t: string, k: nat): (r: nat)
    requires k <= |t|
    ensures k <= r <= |t|
    ensures r == |t| || !IsVersionChar(t[r])
    decreases |t| - k
  {
    if k < |t| && IsVersionChar(t[k]) then VersionEnd(t, k + 1) else k
  }

  /** Everything the runs skip is whitespace, respectively a version
      character. */
  lemma {:induction false} RunsSkipped(t: string, k: nat)
    requires k <= |t|
    ensures forall i :: k <= i < SpaceEnd(t, k) ==> IsSpace(t[i])
    ensures forall i :: k <= i < VersionEnd(t, k) ==> IsVersionChar(t[i])
    decreases |t| - k
  {
    if k < |t| {
      RunsSkipped(t, k + 1);
    }
  }

  /** The pattern matched at the start of `t`: the index of its `php`. The
      key, any whitespace, `php`, and at least one version character. */
  function Head(key: string, t: string): (r: Option<nat>)
    ensures r.Some? ==> |key| <= r.value && r.value + 3 < |t|
  {
    if !StartsWith(t, key) then None
    else
      var w := SpaceEnd(t, |key|);
      if OccursAt(t, "php", w) && w + 3 < |t| && IsVersionChar(t[w + 3]) then Some(w) else None
  }

  /** The `php` of the first match in `t`, as `re.search` finds it. */
  function FirstMatch(key: string, t: string): (r: Option<nat>)
    ensures r.Some? ==> r.value + 3 < |t|
    decreases |t|
  {
    if t == [] then None
    else if Head(key, t).Some? then Head(key, t)
    else
      match FirstMatch(key, t[1..])
      case None => None
      case Some(p) => Some(p + 1)
  }

  lemma HeadShape(key: string, t: string, w: nat)
    requires Head(key, t) == Some(w)
    ensures |key| <= w && OccursAt(t, "php", w) && IsVersionChar(t[w + 3])
  {
  }

  /** A match at `p` is the key, whitespace, `php` and a version character. */
  lemma {:induction false} FirstMatchShape(key: string, t: string, p: nat)
    requires FirstMatch(key, t) == Some(p)
    ensures |key| <= p && OccursAt(t, "php", p) && IsVersionChar(t[p + 3])
    decreases |t|
  {
    if Head(key, t).Some? {
      HeadShape(key, t, p);
    } else {
      FirstMatchShape(key, t[1..], p - 1);
      assert t[1..][p - 1..p + 2] == t[p..p + 3];
    }
  }

  /** `re.sub(pattern, r'\1php' + version, t)`: the matches are replaced left
      to right, each searched for after the previous one; a match keeps its
      key and whitespace (group 1) and gets `php` and the new version. */
  function Sub(key: string, t: string, version: string): string
    decreases |t|
  {
    match FirstMatch(key, t)
    case None => t
    case Some(p) => t[..p] + "php" + version + Sub(key, t[VersionEnd(t, p + 3)..], version)
  }

  /** `re.search(pattern, t).group(1)`: the version after the first match. */
  function Search(key: string, t: string): Option<string>
  {
    match FirstMatch(key, t)
    case None => None
    case Some(p) => Some(t[p + 3..VersionEnd(t, p + 3)])
  }

  /** With no match the text is unchanged. */
  lemma SubNoMatch(key: string, t: string, version: string)
    requires FirstMatch(key, t).None?
    ensures Sub(key, t, version) == t
  {
  }

  /** A non-empty text keeps its first character: a match starts with the key. */
  lemma SubFirst(key: string, t: string, version: string)
    requires key != [] && t != []
    ensures Sub(key, t, version) != [] && Sub(key, t, version)[0] == t[0]
  {
    if FirstMatch(key, t).Some? {
      var p := FirstMatch(key, t).value;
      FirstMatchShape(key, t, p);
      assert t[..p][0] == t[0];
    }
  }

  /** The text up to and including the first match's `php` is unchanged, the
      new version follows, and the rest is the substitution of what follows
      the old version. */
  lemma SubAtFirst(key: string, t: string, version: string, p: nat)
    requires FirstMatch(key, t) == Some(p)
    ensures Sub(key, t, version) == t[..p + 3] + version + Sub(key, t[VersionEnd(t, p + 3)..], version)
  {
    assert t[..p] + "php" == t[..p + 3] by {
      FirstMatchShape(key, t, p);
      PrefixJoin(t, p, p + 3, "php");
    }
    SubUnfold(key, t, version, p);
  }

  lemma SubUnfold(key: string, t: string, version: string, p: nat)
    requires FirstMatch(key, t) == Some(p)
    ensures Sub(key, t, version) == t[..p] + "php" + version + Sub(key, t[VersionEnd(t, p + 3)..], version)
  {
  }

  lemma PrefixJoin(t: string, i: nat, j: nat, x: string)
    requires i <= j <= |t| && t[i..j] == x
    ensures t[..i] + x == t[..j]
  {
  }

  /** The whitespace run ends at the same place in two texts that agree up to
      a later character that is not whitespace. */
  lemma {:induction false} SpaceEndAgree(t: string, u: string, k: nat, m: nat)
    requires k <= m < |t| && m < |u| && t[..m + 1] == u[..m + 1] && !IsSpace(t[m])
    ensures SpaceEnd(t, k) == SpaceEnd(u, k) <= m
    decreases m - k
  {
    assert t[k] == t[..m + 1][k] == u[..m + 1][k] == u[k];
    if k < m && IsSpace(t[k]) {
      SpaceEndAgree(t, u, k + 1, m);
    }
  }

  /** Whether the pattern matches at the start is decided by the text up to a
      non-whitespace character at `m` and three characters more, and by
      whether a version character follows. */
  lemma HeadAgree(key: string, t: string, u: string, m: nat)
    requires |key| <= m && m + 3 < |t| && m + 3 < |u|
    requires t[..m + 3] == u[..m + 3] && !IsSpace(t[m])
    requires IsVersionChar(t[m + 3]) == IsVersionChar(u[m + 3])
    ensures Head(key, t) == Head(key, u)
  {
    assert StartsWith(t, key) == StartsWith(u, key) by {
      assert t[..|key|] == t[..m + 3][..|key|] == u[..m + 3][..|key|] == u[..|key|];
    }
    if StartsWith(t, key) {
      var w := SpaceEnd(t, |key|);
      assert w == SpaceEnd(u, |key|) && w <= m by {
        SpaceEndAgree(t, u, |key|, m);
      }
      assert OccursAt(t, "php", w) == OccursAt(u, "php", w) by {
        PrefixSlice(t, u, m + 3, w, w + 3);
        OccursAgree(t, u, "php", w);
      }
      assert IsVersionChar(t[w + 3]) == IsVersionChar(u[w + 3]) by {
        if w < m {
          PrefixSlice(t, u, m + 3, w + 3, w + 4);
          assert t[w + 3] == t[w + 3..w + 4][0] == u[w + 3..w + 4][0] == u[w + 3];
        }
      }
      HeadAt(key, t, w);
      HeadAt(key, u, w);
    } else {
      assert Head(key, t) == None == Head(key, u);
    }
  }

  /** Two texts that agree up to `n` agree on every slice below `n`. */
  lemma PrefixSlice(t: string, u: string, n: nat, i: nat, j: nat)
    requires i <= j <= n <= |t| && n <= |u| && t[..n] == u[..n]
    ensures t[i..j] == u[i..j]
  {
    assert t[i..j] == t[..n][i..j] == u[..n][i..j] == u[i..j];
  }

  lemma OccursAgree(t: string, u: string, x: string, j: nat)
    requires j + |x| <= |t| && j + |x| <= |u| && t[j..j + |x|] == u[j..j + |x|]
    ensures OccursAt(t, x, j) == OccursAt(u, x, j)
  {
  }

  /** Where the key is present, the match at the start is decided at the end
      of the whitespace after it. */
  lemma HeadAt(key: string, t: string, w: nat)
    requires StartsWith(t, key) && w == SpaceEnd(t, |key|) && w + 3 < |t|
    ensures Head(key, t) == if OccursAt(t, "php", w) && IsVersionChar(t[w + 3]) then Some(w) else None
  {
  }

  /** A text that agrees with `t` up to and including the `php` of its first
      match, and has a version character after it, has its first match at
      the same place. */
  lemma {:induction false} FirstMatchAgree(key: string, t: string, s: string, p: nat)
    requires FirstMatch(key, t) == Some(p) && p + 3 < |s| && s[..p + 3] == t[..p + 3]
    requires IsVersionChar(s[p + 3])
    ensures FirstMatch(key, s) == Some(p)
    decreases |t|
  {
    assert |key| <= p && !IsSpace(t[p]) && IsVersionChar(t[p + 3]) by {
      FirstMatchShape(key, t, p);
      PhpNotSpace(t, p);
    }
    HeadAgree(key, t, s, p);
    if Head(key, t).Some? {
      assert Head(key, s) == Some(p);
    } else {
      assert Head(key, s).None? && FirstMatch(key, t[1..]) == Some(p - 1);
      assert t[1..][..p + 2] == t[..p + 3][1..] == s[..p + 3][1..] == s[1..][..p + 2];
      FirstMatchAgree(key, t[1..], s[1..], p - 1);
      assert FirstMatch(key, s) == Some(FirstMatch(key, s[1..]).value + 1);
    }
  }

  lemma PhpNotSpace(t: string, p: nat)
    requires OccursAt(t, "php", p)
    ensures p < |t| && !IsSpace(t[p])
  {
    assert t[p] == t[p..p + 3][0];
  }

  /** Substituting keeps the first match where it was. */
  lemma FirstMatchAfterSub(key: string, t: string, version: string)
    requires FirstMatch(key, t).Some? && version != [] && IsVersionChar(version[0])
    ensures FirstMatch(key, Sub(key, t, version)) == FirstMatch(key, t)
  {
    var p := FirstMatch(key, t).value;
    SubAtFirst(key, t, version, p);
    JoinParts(t[..p + 3], version, Sub(key, t[VersionEnd(t, p + 3)..], version));
    FirstMatchAgree(key, t, Sub(key, t, version), p);
  }

  /** The parts of a concatenation can be read back from it. */
  lemma JoinParts(x: string, y: string, z: string)
    requires y != []
    ensures |x + y + z| > |x| && (x + y + z)[..|x|] == x && (x + y + z)[|x|] == y[0]
  {
  }

  /** Reading back after an update that found a match gives the new version,
      without the newline a version may end with. */
  lemma ReadAfterUpdate(key: string, t: string, version: string)
    requires key != [] && FirstMatch(key, t).Some? && ValidVersion(version)
    ensures Search(key, Sub(key, t, version)) == Some(version[..3])
  {
    ValidVersionChars(version);
    var p := FirstMatch(key, t).value;
    var e := VersionEnd(t, p + 3);
    var s := Sub(key, t, version);
    FirstMatchAfterSub(key, t, version);
    SubAtFirst(key, t, version, p);
    SubStart(key, t[e..], version);
    RunAfterJoin(t[..p + 3], version, Sub(key, t[e..], version));
    SearchAt(key, s, p);
  }

  /** There is no match exactly when no position of the text starts one, and
      then the search finds nothing. */
  lemma {:induction false} SearchNone(key: string, t: string)
    ensures FirstMatch(key, t).None? <==> forall q :: 0 <= q < |t| ==> Head(key, t[q..]).None?
    ensures Search(key, t).None? <==> FirstMatch(key, t).None?
    decreases |t|
  {
    if t != [] {
      assert t[0..] == t;
      if Head(key, t).None? {
        SearchNone(key, t[1..]);
        assert forall q :: 1 <= q < |t| ==> t[q..] == t[1..][q - 1..];
      }
    }
  }

  /** `re.search` scans left to right: the match found starts at the first
      position where the pattern matches, and none starts before it. */
  lemma {:induction false} FirstMatchEarliest(key: string, t: string, p: nat)
    requires FirstMatch(key, t) == Some(p)
    ensures exists q ::
      && 0 <= q <= p && q < |t| && Head(key, t[q..]).Some? && q + Head(key, t[q..]).value == p
      && (forall r :: 0 <= r < q ==> Head(key, t[r..]).None?)
    decreases |t|
  {
    assert t[0..] == t;
    if Head(key, t).None? {
      FirstMatchEarliest(key, t[1..], p - 1);
      var q' :| 0 <= q' <= p - 1 && q' < |t[1..]| && Head(key, t[1..][q'..]).Some? && q' + Head(key, t[1..][q'..]).value == p - 1 &&
        forall r :: 0 <= r < q' ==> Head(key, t[1..][r..]).None?;
      assert t[1..][q'..] == t[q' + 1..];
      forall r | 0 <= r < q' + 1 ensures Head(key, t[r..]).None? {
        if r > 0 {
          assert t[1..][r - 1..] == t[r..];
        }
      }
    }
  }

  /** The group the search returns is the longest non-empty run of version
      characters right after the first match's `php`. */
  lemma SearchGroup(key: string, t: string, p: nat)
    requires FirstMatch(key, t) == Some(p)
    ensures Search(key, t).Some?
    ensures var v := Search(key, t).value;
      && v != [] && (forall i :: 0 <= i < |v| ==> IsVersionChar(v[i]))
      && p + 3 + |v| <= |t| && t[p + 3..p + 3 + |v|] == v
      && (p + 3 + |v| == |t| || !IsVersionChar(t[p + 3 + |v|]))
  {
    FirstMatchShape(key, t, p);
    RunsSkipped(t, p + 3);
    var e := VersionEnd(t, p + 3);
    assert Search(key, t) == Some(t[p + 3..e]);
    assert e > p + 3;
  }

  lemma SearchAt(key: string, s: string, p: nat)
    requires FirstMatch(key, s) == Some(p)
    ensures Search(key, s) == Some(s[p + 3..VersionEnd(s, p + 3)])
  {
  }

  /** The substitution of a text that does not start with a version
      character does not start with one either. */
  lemma SubStart(key: string, t: string, version: string)
    requires key != [] && (t == [] || !IsVersionChar(t[0]))
    ensures Sub(key, t, version) == [] || !IsVersionChar(Sub(key, t, version)[0])
  {
    if t != [] {
      SubFirst(key, t, version);
    }
  }

  /** A valid version written between a prefix and a text that does not
      start with a version character is read back as its three version
      characters. */
  lemma RunAfterJoin(x: string, version: string, r: string)
    requires ValidVersion(version) && (r == [] || !IsVersionChar(r[0]))
    ensures |x + version + r| >= |x| + 3
    ensures VersionEnd(x + version + r, |x|) == |x| + 3
    ensures (x + version + r)[|x|..|x| + 3] == version[..3]
  {
    ValidVersionChars(version);
    var s := x + version + r;
    var k := |x|;
    assert s[k] == version[0] && s[k + 1] == version[1] && s[k + 2] == version[2];
    assert k + 3 == |s| || !IsVersionChar(s[k + 3]) by {
      if |version| == 4 {
        assert s[k + 3] == '\n';
      } else if r != [] {
        assert s[k + 3] == r[0];
      }
    }
    VersionRunIs(s, k);
    assert s[k..k + 3] == version[..3];
  }

  lemma VersionRunIs(s: string, k: nat)
    requires k + 3 <= |s| && IsVersionChar(s[k]) && IsVersionChar(s[k + 1]) && IsVersionChar(s[k + 2])
    requires k + 3 == |s| || !IsVersionChar(s[k + 3])
    ensures VersionEnd(s, k) == k + 3
  {
    assert VersionEnd(s, k + 3) == k + 3;
    assert VersionEnd(s, k + 2) == k + 3;
  }

  // ---------------------------------------------------------------------
  // The script

  /** What the script reports. */
  datatype Outcome =
    | Usage                           // too few arguments
    | ConfigMissing(user: string)     // no configuration file for the user
    | InvalidVersion                  // the new version is not `d.d`
    | Updated(user: string, version: string)
    | Shown(user: string, version: string)
    | NotSet(user: string)            // no version in the configuration file
    | Crashed                         // the existence check raises

  function ExitCode(outcome: Outcome): int
  {
    if outcome.Updated? || outcome.Shown? then 0 else 1
  }

  /** The script over its arguments (`argv`, with the program name first) and
      the user's configuration text (`None` when the file does not exist):
      the outcome and the text written back, if any. */
  function Run(argv: seq<string>, config: Option<string>): (r: (Outcome, Option<string>))
    ensures |argv| < 2 ==> r == (Usage, None)
    ensures |argv| >= 2 && config.None? ==> r == (ConfigMissing(argv[1]), None)
    ensures r.1.Some? <==> r.0.Updated?
    ensures r.0.Updated? ==>
      |argv| >= 4 && argv[2] == "--update" && ValidVersion(argv[3]) && r.0 == Updated(argv[1], argv[3])
    ensures r.0.Shown? ==>
      !(|argv| > 2 && argv[2] == "--update") && config.Some? && Search(Key, config.value) == Some(r.0.version)
  {
    if |argv| < 2 then (Usage, None)
    else
      var user := argv[1];
      match config
      case None => (ConfigMissing(user), None)
      case Some(text) =>
        if |argv| > 2 && argv[2] == "--update" then
          if |argv| < 4 then (Usage, None)
          else if !ValidVersion(argv[3]) then (InvalidVersion, None)
          else (Updated(user, argv[3]), Some(Sub(Key, text, argv[3])))
        else
          match Search(Key, text)
          case Some(v) => (Shown(user, v), None)
          case None => (NotSet(user), None)
  }

  /** The script as written: the existence check of the configuration file
      calls into the `os` module, which the script never imports, so every
      run that gets past the argument count raises before reading or
      writing anything. */
  function RunAsWritten(argv: seq<string>, config: Option<string>): (r: (Outcome, Option<string>))
    ensures r.1 == None
    ensures ExitCode(r.0) == 1
    ensures r.0 == Usage <==> |argv| < 2
  {
    if |argv| < 2 then (Usage, None) else (Crashed, None)
  }

  /** As written, a well-formed update of an existing file fails and writes
      nothing, where the intended script writes the new version. */
  lemma MissingImportBlocksUpdate()
    ensures RunAsWritten(["p", "alice", "--update", "8.1"], Some("default_php_version: php7.4\n")) == (Crashed, None)
    ensures Run(["p", "alice", "--update", "8.1"], Some("default_php_version: php7.4\n")).0 == Updated("alice", "8.1")
    ensures ExitCode(RunAsWritten(["p", "alice", "--update", "8.1"], Some("default_php_version: php7.4\n")).0) == 1
  {
    assert ValidVersion("8.1");
  }

  /** The file is written only on the update path, with at least four
      arguments and a version that passed the check, and it is written with
      that version substituted; reading then gives the version back when the
      file held one. */
  lemma RunWritesOnlyValid(argv: seq<string>, config: Option<string>)
    ensures var (outcome, written) := Run(argv, config);
      && (written.Some? <==> outcome.Updated?)
      && (written.Some? ==> |argv| >= 4 && argv[2] == "--update" && ValidVersion(argv[3]) && config.Some?)
      && (written.Some? ==> written.value == Sub(Key, config.value, argv[3]))
      && (written.Some? && FirstMatch(Key, config.value).Some? ==> Search(Key, written.value) == Some(argv[3][..3]))
      && (written.Some? && FirstMatch(Key, config.value).None? ==> written.value == config.value)
  {
    var (outcome, written) := Run(argv, config);
    if written.Some? {
      if FirstMatch(Key, config.value).Some? {
        ReadAfterUpdate(Key, config.value, argv[3]);
      } else {
        SubNoMatch(Key, config.value, argv[3]);
      }
    }
  }

  /** The exit status is 1 exactly for usage errors, a missing file, an
      invalid version and a file without a version. */
  lemma RunExitCode(argv: seq<string>, config: Option<string>)
    ensures ExitCode(Run(argv, config).0) == 0 <==>
      |argv| >= 2 && config.Some? &&
      (if |argv| > 2 && argv[2] == "--update" then |argv| >= 4 && ValidVersion(argv[3])
       else Search(Key, config.value).Some?)
  {
  }
}
