/** `opencli error <code> [--time=<period>]`: the check of the time period and
    the extraction of the log context around the last line that mentions an
    error code (error.py). The container's log lines are an input. */
module ErrorExtract {
  import opened Base
  import opened Text

  // ---------------------------------------------------------------------
  // The time period

  /** `re.match(r'^\d+[mhsdw]$', period)`: digits, then one unit letter; `$`
      also matches just before a final newline. */
  predicate ValidTimePeriod(period: string)
  {
    var body := if |period| > 0 && period[|period| - 1] == '\n' then period[..|period| - 1] else period;
    && |body| >= 2
    && (forall i :: 0 <= i < |body| - 1 ==> IsDigit(body[i]))
    && body[|body| - 1] in "mhsdw"
  }

  /** The period handed to `docker logs`: an invalid one becomes `60m`. */
  function EffectivePeriod(period: string): (p: string)
    ensures ValidTimePeriod(period) ==> p == period
    ensures !ValidTimePeriod(period) ==> p == "60m"
  {
    if ValidTimePeriod(period) then period else "60m"
  }

  /** The accepted periods are exactly digits followed by a unit, optionally
      followed by one newline. */
  lemma TimePeriodShape(digits: string, unit: char, newline: bool)
    requires |digits| >= 1 && forall i :: 0 <= i < |digits| ==> IsDigit(digits[i])
    ensures ValidTimePeriod(digits + [unit] + (if newline then "\n" else [])) <==> unit in "mhsdw"
  {
    var p := digits + [unit] + (if newline then "\n" else []);
    if newline {
      assert p[..|p| - 1] == digits + [unit];
    } else {
      assert unit != '\n' ==> p == digits + [unit];
    }
  }

  lemma EffectivePeriodValid(period: string)
    ensures ValidTimePeriod(EffectivePeriod(period))
    ensures EffectivePeriod(EffectivePeriod(period)) == EffectivePeriod(period)
  {
    if !ValidTimePeriod(period) {
      var b := "60m";
      assert b[0] == '6' && b[1] == '0' && b[2] == 'm' && |b| == 3;
      assert forall i :: 0 <= i < |b| - 1 ==> IsDigit(b[i]);
    }
  }

  // ---------------------------------------------------------------------
  // Helpers over lists of lines

  /** `f` applied to the lines `lo .. hi-1`. */
  function MapRange(f: string -> string, logs: seq<string>, lo: nat, hi: nat): (r: seq<string>)
    requires lo <= hi <= |logs|
    ensures |r| == hi - lo
    decreases hi - lo
  {
    if lo == hi then [] else [f(logs[lo])] + MapRange(f, logs, lo + 1, hi)
  }

  /** The lines `lo .. hi-1`, each stripped. */
  function Stripped(logs: seq<string>, lo: nat, hi: nat): seq<string>
    requires lo <= hi <= |logs|
  {
    MapRange(Strip, logs, lo, hi)
  }

  /** The list in reverse order. */
  function Rev(s: seq<string>): (r: seq<string>)
    ensures |r| == |s|
  {
    if s == [] then [] else Rev(s[1..]) + [s[0]]
  }

  lemma {:induction false} RevIndex(s: seq<string>, i: nat)
    requires i < |s|
    ensures Rev(s)[i] == s[|s| - 1 - i]
  {
    if i < |s| - 1 {
      RevIndex(s[1..], i);
    }
  }

  lemma RevAppend(x: seq<string>, y: seq<string>)
    ensures Rev(x + y) == Rev(y) + Rev(x)
  {
    forall i | 0 <= i < |x + y| ensures Rev(x + y)[i] == (Rev(y) + Rev(x))[i] {
      RevIndex(x + y, i);
      if i < |y| {
        RevIndex(y, i);
      } else {
        RevIndex(x, i - |y|);
      }
    }
  }

  lemma RevRev(s: seq<string>)
    ensures Rev(Rev(s)) == s
  {
    forall i | 0 <= i < |s| ensures Rev(Rev(s))[i] == s[i] {
      RevIndex(Rev(s), i);
      RevIndex(s, |s| - 1 - i);
    }
  }

  function Min(a: int, b: int): int { if a < b then a else b }

  // ---------------------------------------------------------------------
  // The context around the anchor

  /** `error_code.lower() in line.lower()`. */
  predicate Mentions(line: string, code: string)
  {
    Contains(Lower(line), Lower(code))
  }

  /** The index of the last line that mentions the code: the anchor. */
  function LastMention(logs: seq<string>, code: string): (r: Option<nat>)
    ensures r.Some? ==> r.value < |logs|
  {
    LastMentionBelow(logs, code, |logs|)
  }

  /** The last line before line `j` that mentions the code. */
  function LastMentionBelow(logs: seq<string>, code: string, j: nat): (r: Option<nat>)
    requires j <= |logs|
    ensures r.Some? ==> r.value < j
  {
    if j == 0 then None
    else if Mentions(logs[j - 1], code) then Some(j - 1)
    else LastMentionBelow(logs, code, j - 1)
  }

  /** The anchor mentions the code and no later line below `j` does; without
      an anchor no line below `j` mentions it. */
  lemma {:induction false} LastMentionBelowSpec(logs: seq<string>, code: string, j: nat)
    requires j <= |logs|
    ensures var r := LastMentionBelow(logs, code, j);
      && (r.Some? ==> Mentions(logs[r.value], code))
      && (r.Some? ==> forall t :: r.value < t < j ==> !Mentions(logs[t], code))
      && (r.None? ==> forall t :: 0 <= t < j ==> !Mentions(logs[t], code))
  {
    if j > 0 && !Mentions(logs[j - 1], code) {
      LastMentionBelowSpec(logs, code, j - 1);
    }
  }

  /** The anchor mentions the code and no later line does; without an anchor
      no line mentions it. */
  lemma LastMentionSpec(logs: seq<string>, code: string)
    ensures var r := LastMention(logs, code);
      && (r.Some? ==> Mentions(logs[r.value], code))
      && (r.Some? ==> forall t :: r.value < t < |logs| ==> !Mentions(logs[t], code))
      && (r.None? ==> forall t :: 0 <= t < |logs| ==> !Mentions(logs[t], code))
  {
    LastMentionBelowSpec(logs, code, |logs|);
  }

  /** Collection of the lines before the anchor stops after the `c`-th one:
      at 20 lines, or from 10 lines on at a line holding `ERROR` or `WARNING`
      (a case-sensitive test on the raw line). */
  predicate StopsAt(logs: seq<string>, a: nat, c: nat)
    requires 1 <= c <= a < |logs|
  {
    c >= 20 || (c >= 10 && Severe(logs[a - c]))
  }

  /** `"ERROR" in line or "WARNING" in line`. */
  predicate Severe(line: string)
  {
    Contains(line, "ERROR") || Contains(line, "WARNING")
  }

  /** How many lines before the anchor are collected, counting from the `c`-th. */
  function BeforeFrom(logs: seq<string>, a: nat, c: nat): (k: nat)
    requires 1 <= c <= a + 1 && a < |logs|
    ensures c - 1 <= k <= a
    ensures c <= 20 ==> k <= 20
    decreases a + 1 - c
  {
    if c > a then a
    else if StopsAt(logs, a, c) then c
    else BeforeFrom(logs, a, c + 1)
  }

  /** Collection goes on while no stop condition holds and ends at the first
      one, or when the lines before the anchor run out. */
  lemma {:induction false} BeforeFromSpec(logs: seq<string>, a: nat, c: nat)
    requires 1 <= c <= a + 1 && a < |logs|
    ensures var k := BeforeFrom(logs, a, c);
      && (forall d :: c <= d < k ==> !StopsAt(logs, a, d))
      && (k < a ==> k >= 1 && StopsAt(logs, a, k))
    decreases a + 1 - c
  {
    if c <= a && !StopsAt(logs, a, c) {
      BeforeFromSpec(logs, a, c + 1);
    }
  }

  /** The number of lines before the anchor that are kept. */
  function BeforeCount(logs: seq<string>, a: nat): (k: nat)
    requires a < |logs|
    ensures k <= a && k <= 20
  {
    BeforeFrom(logs, a, 1)
  }

  /** The end (exclusive) of the lines after the anchor that are kept. */
  function AfterEnd(logs: seq<string>, a: nat): nat
  {
    Min(a + 6, |logs|)
  }

  /** What `extract_error_log_from_docker` returns, as written: the lines
      before the anchor and the lines after it, each in file order, and the
      anchor itself last. */
  function ExtractedAsWritten(logs: seq<string>, code: string): seq<string>
  {
    match LastMention(logs, code)
    case None => []
    case Some(a) => AroundAsWritten(logs, a, BeforeCount(logs, a))
  }

  /** The `k` lines before the anchor `a`, the lines after it, then the anchor. */
  function AroundAsWritten(logs: seq<string>, a: nat, k: nat): seq<string>
    requires k <= a < |logs|
  {
    Stripped(logs, a - k, a) + Stripped(logs, a + 1, AfterEnd(logs, a)) + [Strip(logs[a])]
  }

  /** The sliding window: drop the oldest entry when five are held, then add
      the new one. */
  function Slide(window: seq<string>, line: string): seq<string>
  {
    (if |window| >= 5 then window[1..] else window) + [line]
  }

  /** The window of the reverse scan before line `j` is read, while the
      anchor has not been met. */
  function Window(logs: seq<string>, j: nat): seq<string>
    requires j <= |logs|
    decreases |logs| - j
  {
    if j == |logs| then [] else Slide(Window(logs, j + 1), Strip(logs[j]))
  }

  /** What the reverse scan has collected once the anchor `a` and the lines
      `j .. a-1` before it are read. */
  function Scanned(logs: seq<string>, a: nat, j: nat): seq<string>
    requires j <= a < |logs|
    decreases a - j
  {
    if j == a then [Strip(logs[a])] + Window(logs, a + 1)
    else Scanned(logs, a, j + 1) + [Strip(logs[j])]
  }

  /** The first phase of the reverse scan of `extract_error_log_from_docker`:
      lines are read last first until one mentions the code; every line read
      before that goes into a window that keeps the five most recently read
      (the lines that follow the anchor in the file). */
  method SeekAnchor(logs: seq<string>, code: string) returns (anchor: Option<nat>, window: seq<string>)
    ensures anchor == LastMention(logs, code)
    ensures anchor.Some? ==> window == Window(logs, anchor.value + 1)
  {
    window := [];
    var j := |logs|;
    while j > 0
      invariant 0 <= j <= |logs|
      invariant LastMention(logs, code) == LastMentionBelow(logs, code, j) && window == Window(logs, j)
    {
      j := j - 1;
      var line := logs[j];
      if Mentions(line, code) {
        return Some(j), window;
      }
      if |window| >= 5 {
        window := window[1..];
      }
      window := window + [Strip(line)];
    }
    return None, window;
  }

  /** The reverse scan of `extract_error_log_from_docker`: after the anchor is
      met, it starts the collected list, followed by the window; from then on
      every line read (these precede the anchor) is appended until collection
      stops. The source's single loop switches between the two phases on a
      flag; here the first phase is `SeekAnchor`. Returns what was collected
      and how many lines before the anchor were taken. */
  method ScanBack(logs: seq<string>, code: string) returns (collected: seq<string>, count: nat)
    ensures LastMention(logs, code).None? <==> collected == []
    ensures LastMention(logs, code).Some? ==>
      var a := LastMention(logs, code).value;
      count == BeforeCount(logs, a) && collected == Scanned(logs, a, a - count)
  {
    var anchor, window := SeekAnchor(logs, code);
    if anchor.None? {
      return [], 0;
    }
    var j := anchor.value;
    ghost var a := j;
    collected := [Strip(logs[j])] + window;
    count := 0;
    while j > 0
      invariant j == a - count
      invariant collected != [] && collected == Scanned(logs, a, j)
      invariant BeforeCount(logs, a) == BeforeFrom(logs, a, count + 1)
    {
      j := j - 1;
      var line := logs[j];
      assert Scanned(logs, a, j) == collected + [Strip(line)];
      collected := collected + [Strip(line)];
      count := count + 1;
      BeforeStep(logs, a, count);
      if count >= 10 && Severe(line) {
        assert StopsAt(logs, a, count);
        return;
      }
      if count >= 20 {
        assert StopsAt(logs, a, count);
        return;
      }
      assert !StopsAt(logs, a, count);
    }
  }

  /** One more line before the anchor: collection stops here or goes on. */
  lemma BeforeStep(logs: seq<string>, a: nat, c: nat)
    requires 1 <= c <= a < |logs| && BeforeCount(logs, a) == BeforeFrom(logs, a, c)
    ensures StopsAt(logs, a, c) <==> c >= 20 || (c >= 10 && Severe(logs[a - c]))
    ensures StopsAt(logs, a, c) ==> BeforeCount(logs, a) == c
    ensures !StopsAt(logs, a, c) ==> BeforeCount(logs, a) == BeforeFrom(logs, a, c + 1)
  {
  }

  /** `extract_error_log_from_docker` as written: the scan, reversed. */
  method ExtractAsWritten(logs: seq<string>, code: string) returns (result: seq<string>)
    ensures result == ExtractedAsWritten(logs, code)
  {
    var collected, count := ScanBack(logs, code);
    result := Rev(collected);
    if LastMention(logs, code).Some? {
      ScannedReversed(logs, LastMention(logs, code).value, count);
    }
  }

  /** The extraction with the anchor put back between the lines before it
      and the lines after it. */
  method Extract(logs: seq<string>, code: string) returns (result: seq<string>)
    ensures result == Extracted(logs, code)
  {
    var collected, count := ScanBack(logs, code);
    if collected == [] {
      return [];
    }
    ghost var a := LastMention(logs, code).value;
    ghost var before := Stripped(logs, a - count, a);
    ghost var after := Stripped(logs, a + 1, AfterEnd(logs, a));
    var w := Rev(collected);
    ScannedReversed(logs, a, count);
    assert w == before + after + [Strip(logs[a])];
    result := w[..count] + [w[|w| - 1]] + w[count..|w| - 1];
    PutBack(before, after, Strip(logs[a]));
    AroundShape(logs, a, count);
    assert Extracted(logs, code) == Around(logs, a, count);
  }

  /** Moving the last element back to just after the first run. */
  lemma PutBack(before: seq<string>, after: seq<string>, x: string)
    ensures var w := before + after + [x];
      w[..|before|] + [w[|w| - 1]] + w[|before|..|w| - 1] == before + [x] + after
  {
    var w := before + after + [x];
    assert w[..|before|] == before;
    assert w[|before|..|w| - 1] == after;
  }

  lemma AppendAssoc(x: seq<string>, y: seq<string>, z: seq<string>)
    ensures x + (y + z) == (x + y) + z
  {
  }

  lemma RevCons(x: string, s: seq<string>)
    ensures Rev([x] + s) == Rev(s) + [x]
  {
    assert ([x] + s)[1..] == s;
  }

  /** One more line at the front of a range, mapped and reversed, is one more
      element at the back. */
  lemma RevMapCons(f: string -> string, logs: seq<string>, j: nat, m: nat)
    requires j < m <= |logs|
    ensures Rev(MapRange(f, logs, j, m)) == Rev(MapRange(f, logs, j + 1, m)) + [f(logs[j])]
  {
    RevCons(f(logs[j]), MapRange(f, logs, j + 1, m));
  }

  /** A range is the range one shorter with its last line appended. */
  lemma {:induction false} MapRangeSnoc(f: string -> string, logs: seq<string>, lo: nat, hi: nat)
    requires lo < hi <= |logs|
    ensures MapRange(f, logs, lo, hi) == MapRange(f, logs, lo, hi - 1) + [f(logs[hi - 1])]
    decreases hi - lo
  {
    if lo + 1 < hi {
      MapRangeSnoc(f, logs, lo + 1, hi);
      AppendAssoc([f(logs[lo])], MapRange(f, logs, lo + 1, hi - 1), [f(logs[hi - 1])]);
    }
  }

  /** Dropping the front of a reversed mapped range drops its last line. */
  lemma RevMapDropLast(f: string -> string, logs: seq<string>, lo: nat, hi: nat)
    requires lo < hi <= |logs|
    ensures Rev(MapRange(f, logs, lo, hi))[1..] == Rev(MapRange(f, logs, lo, hi - 1))
  {
    MapRangeSnoc(f, logs, lo, hi);
    RevAppend(MapRange(f, logs, lo, hi - 1), [f(logs[hi - 1])]);
    assert Rev([f(logs[hi - 1])]) == [f(logs[hi - 1])];
  }

  /** The window holds the (at most five) stripped lines from `j` on, the
      line nearest to `j` last. */
  lemma {:induction false} WindowIs(logs: seq<string>, j: nat)
    requires j <= |logs|
    ensures Window(logs, j) == Rev(Stripped(logs, j, Min(j + 5, |logs|)))
    decreases |logs| - j
  {
    if j < |logs| {
      WindowIs(logs, j + 1);
      if j + 6 <= |logs| {
        RevMapDropLast(Strip, logs, j + 1, j + 6);
        RevMapCons(Strip, logs, j, j + 5);
      } else {
        RevMapCons(Strip, logs, j, |logs|);
      }
    }
  }

  /** The scan holds the anchor, the lines after it from the nearest on,
      then the lines before it from the nearest on. */
  lemma {:induction false} ScannedIs(logs: seq<string>, a: nat, j: nat)
    requires j <= a < |logs|
    ensures Scanned(logs, a, j)
      == [Strip(logs[a])] + Rev(Stripped(logs, a + 1, AfterEnd(logs, a))) + Rev(Stripped(logs, j, a))
    decreases a - j
  {
    if j == a {
      WindowIs(logs, a + 1);
      assert Rev(Stripped(logs, j, j)) == [];
    } else {
      ScannedIs(logs, a, j + 1);
      var x := [Strip(logs[a])] + Rev(Stripped(logs, a + 1, AfterEnd(logs, a)));
      var b := Rev(Stripped(logs, j + 1, a));
      RevMapCons(Strip, logs, j, a);
      AppendAssoc(x, b, [Strip(logs[j])]);
    }
  }

  /** Reversing the anchor, then two reversed runs. */
  lemma RevThree(x: seq<string>, y: seq<string>, z: seq<string>)
    ensures Rev(x + Rev(y) + Rev(z)) == z + y + Rev(x)
  {
    RevAppend(x + Rev(y), Rev(z));
    RevAppend(x, Rev(y));
    RevRev(y);
    RevRev(z);
    AppendAssoc(z, y, Rev(x));
  }

  /** Reversing what the scan collected, with `k` lines before the anchor,
      puts it in closed form. */
  lemma ScannedReversed(logs: seq<string>, a: nat, k: nat)
    requires k <= a < |logs|
    ensures Rev(Scanned(logs, a, a - k)) == AroundAsWritten(logs, a, k)
  {
    var anchor := [Strip(logs[a])];
    ScannedIs(logs, a, a - k);
    RevThree(anchor, Stripped(logs, a + 1, AfterEnd(logs, a)), Stripped(logs, a - k, a));
    assert Rev(anchor) == anchor;
  }

  // ---------------------------------------------------------------------
  // The context in file order

  /** A mapped range splits at any point in between. */
  lemma {:induction false} MapRangeSplit(f: string -> string, logs: seq<string>, lo: nat, mid: nat, hi: nat)
    requires lo <= mid <= hi <= |logs|
    ensures MapRange(f, logs, lo, hi) == MapRange(f, logs, lo, mid) + MapRange(f, logs, mid, hi)
    decreases mid - lo
  {
    if lo < mid {
      MapRangeSplit(f, logs, lo + 1, mid, hi);
      AppendAssoc([f(logs[lo])], MapRange(f, logs, lo + 1, mid), MapRange(f, logs, mid, hi));
    }
  }

  /** Element `i` of a mapped range is line `lo + i`, mapped. */
  lemma {:induction false} MapRangeIndex(f: string -> string, logs: seq<string>, lo: nat, hi: nat, i: nat)
    requires lo <= hi <= |logs| && i < hi - lo
    ensures MapRange(f, logs, lo, hi)[i] == f(logs[lo + i])
    decreases i
  {
    if i > 0 {
      MapRangeIndex(f, logs, lo + 1, hi, i - 1);
    }
  }

  /** The context the error report evidently means to show: the lines kept
      before the anchor, the anchor, and the lines after it, in the order in
      which they stand in the log. */
  function Extracted(logs: seq<string>, code: string): seq<string>
  {
    match LastMention(logs, code)
    case None => []
    case Some(a) => Around(logs, a, BeforeCount(logs, a))
  }

  /** The `k` lines before the anchor `a`, the anchor and the lines after it. */
  function Around(logs: seq<string>, a: nat, k: nat): seq<string>
    requires k <= a < |logs|
  {
    Stripped(logs, a - k, AfterEnd(logs, a))
  }

  /** The run around the anchor is the lines before it, the anchor, and the
      lines after it; line `i` of the run is line `a - k + i` of the log. */
  lemma AroundShape(logs: seq<string>, a: nat, k: nat)
    requires k <= a < |logs|
    ensures Around(logs, a, k) == Stripped(logs, a - k, a) + [Strip(logs[a])] + Stripped(logs, a + 1, AfterEnd(logs, a))
    ensures |Around(logs, a, k)| <= k + 6
    ensures forall i :: 0 <= i < |Around(logs, a, k)| ==> Around(logs, a, k)[i] == Strip(logs[a - k + i])
  {
    var e := AfterEnd(logs, a);
    MapRangeSplit(Strip, logs, a - k, a, e);
    MapRangeSplit(Strip, logs, a, a + 1, e);
    forall i | 0 <= i < e - (a - k) ensures Around(logs, a, k)[i] == Strip(logs[a - k + i]) {
      MapRangeIndex(Strip, logs, a - k, e, i);
    }
  }

  /** The corrected context is one contiguous run of the log around the
      anchor: up to 20 lines before it, the anchor at its own position, and up
      to 5 lines after it. */
  lemma ExtractedInFileOrder(logs: seq<string>, code: string, a: nat)
    requires LastMention(logs, code) == Some(a)
    ensures var k := BeforeCount(logs, a);
      var r := Extracted(logs, code);
      && r == Stripped(logs, a - k, a) + [Strip(logs[a])] + Stripped(logs, a + 1, AfterEnd(logs, a))
      && k <= 20 && |r| <= 26
      && r[k] == Strip(logs[a])
  {
    var k := BeforeCount(logs, a);
    assert Extracted(logs, code) == Around(logs, a, k);
    AroundShape(logs, a, k);
  }

  /** Line `i` of the corrected context is line `a - k + i` of the log. */
  lemma ExtractedLines(logs: seq<string>, code: string, a: nat)
    requires LastMention(logs, code) == Some(a)
    ensures var r := Extracted(logs, code);
      forall i :: 0 <= i < |r| ==> r[i] == Strip(logs[a - BeforeCount(logs, a) + i])
  {
    var k := BeforeCount(logs, a);
    assert Extracted(logs, code) == Around(logs, a, k);
    AroundShape(logs, a, k);
  }

  /** With no line mentioning the code, both versions return nothing; with one,
      neither is empty. */
  lemma ExtractedEmpty(logs: seq<string>, code: string)
    ensures Extracted(logs, code) == [] <==> forall t :: 0 <= t < |logs| ==> !Mentions(logs[t], code)
    ensures ExtractedAsWritten(logs, code) == [] <==> Extracted(logs, code) == []
  {
    LastMentionSpec(logs, code);
    match LastMention(logs, code)
    case None =>
    case Some(a) =>
      ExtractedInFileOrder(logs, code, a);
  }

  /** As written, the lines after the anchor come before the anchor, which
      ends the list; the corrected run holds the same lines in file order. */
  lemma AroundAsWrittenRotated(logs: seq<string>, a: nat, k: nat)
    requires k <= a < |logs|
    ensures var w := AroundAsWritten(logs, a, k);
      && |w| == |Around(logs, a, k)|
      && multiset(w) == multiset(Around(logs, a, k))
      && w[|w| - 1] == Strip(logs[a])
      && (a + 1 < |logs| ==> w[k] == Strip(logs[a + 1]))
  {
    var before := Stripped(logs, a - k, a);
    var after := Stripped(logs, a + 1, AfterEnd(logs, a));
    var anchor := [Strip(logs[a])];
    AroundShape(logs, a, k);
    assert AroundAsWritten(logs, a, k) == before + after + anchor;
    if a + 1 < |logs| {
      MapRangeIndex(Strip, logs, a + 1, AfterEnd(logs, a), 0);
      assert (before + after + anchor)[k] == after[0];
    }
  }

  /** The anchor is moved to the end of the list as written, and the result
      differs from the file-order context whenever the first line after the
      anchor reads differently from the anchor. */
  lemma AnchorMovedToEnd(logs: seq<string>, code: string, a: nat)
    requires LastMention(logs, code) == Some(a)
    ensures var k := BeforeCount(logs, a);
      var w := ExtractedAsWritten(logs, code);
      && multiset(w) == multiset(Extracted(logs, code))
      && w[|w| - 1] == Strip(logs[a])
      && Extracted(logs, code)[k] == Strip(logs[a])
      && (a + 1 < |logs| && Strip(logs[a + 1]) != Strip(logs[a]) ==> w[k] != Strip(logs[a]))
      && (a + 1 < |logs| && Strip(logs[a + 1]) != Strip(logs[a]) ==> w != Extracted(logs, code))
  {
    var k := BeforeCount(logs, a);
    AroundAsWrittenRotated(logs, a, k);
    AroundShape(logs, a, k);
  }
}
