/** The Python `str` operations the scripts rely on, over `seq<char>`:
    `startswith`, `in`, `find`, `split(sep)`, `sep.join`, `replace`,
    `strip`/`lstrip`/`rstrip` with no argument, and `lower`. */
module Text {
  import opened Base

  /** `c.isspace()`: the characters `str.strip()` removes and the regular
      expression class `\s` matches. */
  predicate IsSpace(c: char)
  {
    || c in {' ', '\t', '\n', '\r', '\U{b}', '\U{c}', '\U{1c}', '\U{1d}', '\U{1e}', '\U{1f}'}
    || c in {'\U{85}', '\U{a0}', '\U{1680}', '\U{2028}', '\U{2029}', '\U{202f}', '\U{205f}', '\U{3000}'}
    || '\U{2000}' <= c <= '\U{200a}'
  }

  predicate IsDigit(c: char) { '0' <= c <= '9' }

  /** `s.startswith(p)`. */
  predicate StartsWith(s: string, p: string)
  {
    |p| <= |s| && s[..|p|] == p
  }

  /** `p` occurs in `s` at index `j`. */
  predicate OccursAt(s: string, p: string, j: nat)
  {
    j + |p| <= |s| && s[j..j + |p|] == p
  }

  /** `s.find(p, from)`: the first index at or after `from` at which `p` occurs. */
  function FindFrom(s: string, p: string, from: nat): (r: Option<nat>)
    ensures r.Some? ==> from <= r.value && OccursAt(s, p, r.value)
    ensures r.Some? ==> forall j :: from <= j < r.value ==> !OccursAt(s, p, j)
    ensures r.None? ==> forall j :: from <= j ==> !OccursAt(s, p, j)
    decreases |s| - from
  {
    if from + |p| > |s| then None
    else if s[from..from + |p|] == p then Some(from)
    else FindFrom(s, p, from + 1)
  }

  /** `s.find(p)`. */
  function Find(s: string, p: string): Option<nat>
  {
    FindFrom(s, p, 0)
  }

  /** `p in s`. */
  predicate Contains(s: string, p: string)
  {
    Find(s, p).Some?
  }

  lemma ContainsAt(s: string, p: string, j: nat)
    requires OccursAt(s, p, j)
    ensures Contains(s, p)
  {
  }

  /** `Find` returns the first occurrence. */
  lemma FindFirst(s: string, p: string, k: nat)
    requires OccursAt(s, p, k)
    requires forall j :: 0 <= j < k ==> !OccursAt(s, p, j)
    ensures Find(s, p) == Some(k)
  {
  }

  /** An extension of a pattern found first at `k` is also found first at `k`
      when it occurs there. */
  lemma FindExtension(s: string, p: string, q: string, k: nat)
    requires Find(s, p) == Some(k) && OccursAt(s, p + q, k)
    ensures Find(s, p + q) == Some(k)
  {
    forall j | 0 <= j < k ensures !OccursAt(s, p + q, j) {
      if OccursAt(s, p + q, j) {
        assert s[j..j + |p|] == s[j..j + |p + q|][..|p|];
        assert OccursAt(s, p, j);
      }
    }
    FindFirst(s, p + q, k);
  }

  /** For a one-character pattern, `in` is membership. */
  lemma ContainsChar(s: string, c: char)
    ensures Contains(s, [c]) <==> c in s
  {
    if c in s {
      var j :| 0 <= j < |s| && s[j] == c;
      assert OccursAt(s, [c], j);
    }
    if Contains(s, [c]) {
      var j := Find(s, [c]).value;
      assert s[j..j + 1] == [c];
      assert s[j] == c;
    }
  }

  /** No occurrence can start where the first character of the pattern is absent. */
  lemma NotBetween(s: string, p: string, lo: nat, hi: nat)
    requires |p| > 0 && lo <= hi <= |s| && p[0] !in s[lo..hi]
    ensures forall j :: lo <= j < hi ==> !OccursAt(s, p, j)
  {
    forall j | lo <= j < hi ensures !OccursAt(s, p, j) {
      assert s[lo..hi][j - lo] == s[j];
    }
  }

  lemma NotBefore(s: string, p: string, k: nat)
    requires |p| > 0 && k <= |s| && p[0] !in s[..k]
    ensures forall j :: 0 <= j < k ==> !OccursAt(s, p, j)
  {
    assert s[0..k] == s[..k];
    NotBetween(s, p, 0, k);
  }

  /** Splitting on a one-character separator that occurs exactly once. */
  lemma SplitOnce(x: string, c: char, y: string)
    requires c !in x && c !in y
    ensures Split(x + [c] + y, [c]) == [x, y]
  {
    var s := x + [c] + y;
    assert s[..|x|] == x;
    NotBefore(s, [c], |x|);
    assert s[|x|..|x| + 1] == [c];
    FindFirst(s, [c], |x|);
    assert s[|x| + 1..] == y;
    ContainsChar(y, c);
  }

  /** `Find` only looks at the text up to the end of the occurrence it finds. */
  lemma FindInPrefix(s: string, t: string, p: string)
    requires Find(s, p).Some?
    requires Find(s, p).value + |p| <= |t|
    requires t[..Find(s, p).value + |p|] == s[..Find(s, p).value + |p|]
    ensures Find(t, p) == Find(s, p)
  {
    var k := Find(s, p).value;
    var n := k + |p|;
    forall j | 0 <= j <= k ensures OccursAt(t, p, j) <==> OccursAt(s, p, j) {
      SliceOfPrefix(t, n, j, j + |p|);
      SliceOfPrefix(s, n, j, j + |p|);
    }
    FindFirst(t, p, k);
  }

  lemma SliceOfPrefix(t: string, n: nat, i: nat, j: nat)
    requires i <= j <= n <= |t|
    ensures t[i..j] == t[..n][i..j]
  {
  }

  /** One step of `Replace` at the first occurrence. */
  lemma ReplaceAt(s: string, pat: string, repl: string)
    requires |pat| > 0 && Find(s, pat).Some?
    ensures var i := Find(s, pat).value;
            Replace(s, pat, repl) == s[..i] + repl + Replace(s[i + |pat|..], pat, repl)
  {
  }

  /** The first piece of a split is a prefix of the text. */
  lemma SplitHead(s: string, sep: string)
    requires |sep| > 0
    ensures StartsWith(s, Split(s, sep)[0])
    ensures Find(s, sep).Some? ==> Split(s, sep)[0] == s[..Find(s, sep).value]
    ensures Find(s, sep).None? ==> Split(s, sep)[0] == s
  {
  }

  lemma StartsWithConcat(x: string, y: string)
    ensures StartsWith(x + y, x)
  {
    assert (x + y)[..|x|] == x;
  }

  /** `s.split(sep)` for a non-empty separator: the pieces between the
      non-overlapping occurrences of `sep`, scanned from the left. */
  function Split(s: string, sep: string): (parts: seq<string>)
    requires |sep| > 0
    ensures |parts| >= 1
    ensures |parts| >= 2 <==> Contains(s, sep)
    decreases |s|
  {
    match Find(s, sep)
    case None => [s]
    case Some(i) => [s[..i]] + Split(s[i + |sep|..], sep)
  }

  /** `sep.join(parts)`. */
  function Join(parts: seq<string>, sep: string): string
  {
    if |parts| == 0 then []
    else if |parts| == 1 then parts[0]
    else parts[0] + sep + Join(parts[1..], sep)
  }

  lemma JoinCons(p: string, parts: seq<string>, sep: string)
    requires |parts| >= 1
    ensures Join([p] + parts, sep) == p + sep + Join(parts, sep)
  {
    assert ([p] + parts)[1..] == parts;
  }

  /** Joining the pieces of a split with the same separator gives the text back. */
  lemma {:induction false} JoinSplit(s: string, sep: string)
    requires |sep| > 0
    ensures Join(Split(s, sep), sep) == s
    decreases |s|
  {
    match Find(s, sep)
    case None =>
    case Some(i) =>
      var rest := s[i + |sep|..];
      JoinSplit(rest, sep);
      JoinCons(s[..i], Split(rest, sep), sep);
      assert s == s[..i] + sep + rest;
  }

  /** Splitting where the separator first occurs right after `a`. */
  lemma SplitAfter(a: string, sep: string, b: string)
    requires |sep| > 0 && Find(a + sep, sep) == Some(|a|)
    ensures Split(a + sep + b, sep) == [a] + Split(b, sep)
  {
    var s := a + sep + b;
    assert s[..|a| + |sep|] == (a + sep)[..|a| + |sep|];
    FindInPrefix(a + sep, s, sep);
    assert s[..|a|] == a && s[|a| + |sep|..] == b;
  }

  /** The text before the first occurrence of a pattern does not contain it. */
  lemma NoneBeforeFirst(s: string, p: string, k: nat)
    requires |p| > 0 && Find(s, p) == Some(k)
    ensures !Contains(s[..k], p)
  {
    if Contains(s[..k], p) {
      var j := Find(s[..k], p).value;
      assert s[..k][j..j + |p|] == s[j..j + |p|];
      assert OccursAt(s, p, j);
      assert false;
    }
  }

  /** A text contains whatever a prefix of it contains. */
  lemma ContainsPrefix(s: string, t: string, p: string)
    requires StartsWith(s, t) && Contains(t, p)
    ensures Contains(s, p)
  {
    var j := Find(t, p).value;
    assert s[..|t|][j..j + |p|] == s[j..j + |p|];
    ContainsAt(s, p, j);
  }

  /** `s.replace(pat, repl)` for a non-empty `pat`. */
  function Replace(s: string, pat: string, repl: string): string
    requires |pat| > 0
    decreases |s|
  {
    match Find(s, pat)
    case None => s
    case Some(i) => s[..i] + repl + Replace(s[i + |pat|..], pat, repl)
  }

  /** Replacing is splitting on the pattern and joining with the replacement. */
  lemma {:induction false} ReplaceIsJoinSplit(s: string, pat: string, repl: string)
    requires |pat| > 0
    ensures Replace(s, pat, repl) == Join(Split(s, pat), repl)
    decreases |s|
  {
    match Find(s, pat)
    case None =>
    case Some(i) =>
      var rest := s[i + |pat|..];
      ReplaceIsJoinSplit(rest, pat, repl);
      JoinCons(s[..i], Split(rest, pat), repl);
  }

  /** Text without the pattern is left as it is. */
  lemma ReplaceAbsent(s: string, pat: string, repl: string)
    requires |pat| > 0 && !Contains(s, pat)
    ensures Replace(s, pat, repl) == s
  {
  }

  /** `s.lstrip()`. */
  function LStrip(s: string): (r: string)
    ensures |r| <= |s|
  {
    if |s| > 0 && IsSpace(s[0]) then LStrip(s[1..]) else s
  }

  /** `lstrip` removes a run of whitespace from the front and stops at the
      first other character. */
  lemma {:induction false} LStripSpec(s: string)
    ensures var r := LStrip(s);
      && r == s[|s| - |r|..]
      && (r != [] ==> !IsSpace(r[0]))
      && (forall j :: 0 <= j < |s| - |r| ==> IsSpace(s[j]))
  {
    if |s| > 0 && IsSpace(s[0]) {
      LStripSpec(s[1..]);
    }
  }

  /** `s.rstrip()`. */
  function RStrip(s: string): (r: string)
    ensures |r| <= |s|
  {
    if |s| > 0 && IsSpace(s[|s| - 1]) then RStrip(s[..|s| - 1]) else s
  }

  /** `rstrip` removes a run of whitespace from the back and stops at the
      last other character. */
  lemma {:induction false} RStripSpec(s: string)
    ensures var r := RStrip(s);
      && r == s[..|r|]
      && (r != [] ==> !IsSpace(r[|r| - 1]))
      && (forall j :: |r| <= j < |s| ==> IsSpace(s[j]))
  {
    if |s| > 0 && IsSpace(s[|s| - 1]) {
      RStripSpec(s[..|s| - 1]);
    }
  }

  /** `s.strip()`. */
  function Strip(s: string): string
  {
    RStrip(LStrip(s))
  }

  /** A text holding a character other than whitespace does not strip to
      the empty text. */
  lemma StripNonBlank(s: string, j: nat)
    requires j < |s| && !IsSpace(s[j])
    ensures Strip(s) != []
  {
    LStripSpec(s);
    var t := LStrip(s);
    RStripSpec(t);
    assert t != [];
  }

  /** Stripping a text that has no surrounding whitespace changes nothing. */
  lemma StripUnspaced(s: string)
    requires s != [] ==> !IsSpace(s[0]) && !IsSpace(s[|s| - 1])
    ensures Strip(s) == s
  {
  }

  /** A character that is not whitespace stops `lstrip`: what follows it is kept. */
  lemma {:induction false} LStripThrough(a: string, c: char, b: string)
    requires !IsSpace(c)
    ensures LStrip(a + [c] + b) == LStrip(a) + [c] + b
    decreases |a|
  {
    if |a| > 0 {
      assert (a + [c] + b)[1..] == a[1..] + [c] + b;
      if IsSpace(a[0]) {
        LStripThrough(a[1..], c, b);
      }
    }
  }

  /** A character that is not whitespace stops `rstrip`: what precedes it is kept. */
  lemma {:induction false} RStripThrough(a: string, c: char, b: string)
    requires !IsSpace(c)
    ensures RStrip(a + [c] + b) == a + [c] + RStrip(b)
    decreases |b|
  {
    var s := a + [c] + b;
    if |b| > 0 {
      assert s[..|s| - 1] == a + [c] + b[..|b| - 1];
      if IsSpace(b[|b| - 1]) {
        RStripThrough(a, c, b[..|b| - 1]);
      }
    }
  }

  /** `rstrip` ignores trailing whitespace that was added. */
  lemma {:induction false} RStripSpaceSuffix(s: string, c: char)
    requires IsSpace(c)
    ensures RStrip(s + [c]) == RStrip(s)
  {
    assert (s + [c])[..|s|] == s;
  }

  /** ASCII `c.lower()`. */
  function LowerChar(c: char): char
  {
    if 'A' <= c <= 'Z' then (c as int + 32) as char else c
  }

  /** `s.lower()`, on ASCII letters. */
  function Lower(s: string): (r: string)
    ensures |r| == |s|
  {
    seq(|s|, i requires 0 <= i < |s| => LowerChar(s[i]))
  }
}
