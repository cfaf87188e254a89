/** The local error database of `opencli error` and the `--list` summary:
    the message picked from the extracted lines, the merge of one sighting
    into the database, the explanation lookup, and the deduplicated, counted
    and sorted list of error codes (error.py). The database file, the clock
    and the container's logs are inputs. */
module ErrorDb {
  import opened Base
  import opened Text
  import ErrorExtract

  // ---------------------------------------------------------------------
  // The message of a sighting

  /** `"error:" in line.lower() or "exception:" in line.lower()`. */
  predicate Flagged(line: string)
  {
    var lower := Lower(line);
    Contains(lower, "error:") || Contains(lower, "exception:")
  }

  /** The message found from line `i` on: the first flagged line, stripped. */
  function MessageFrom(lines: seq<string>, i: nat): string
    requires i <= |lines|
    decreases |lines| - i
  {
    if i == |lines| then ""
    else if Flagged(lines[i]) then Strip(lines[i])
    else MessageFrom(lines, i + 1)
  }

  function Message(lines: seq<string>): string
  {
    MessageFrom(lines, 0)
  }

  /** The message from `i` is empty exactly when no line from `i` on is
      flagged. */
  lemma {:induction false} MessageFromEmpty(lines: seq<string>, i: nat)
    requires i <= |lines|
    ensures MessageFrom(lines, i) == "" <==> forall j :: i <= j < |lines| ==> !Flagged(lines[j])
    decreases |lines| - i
  {
    if i < |lines| {
      if Flagged(lines[i]) {
        assert MessageFrom(lines, i) == Strip(lines[i]);
        FlaggedNotBlank(lines[i]);
      } else {
        assert MessageFrom(lines, i) == MessageFrom(lines, i + 1);
        MessageFromEmpty(lines, i + 1);
      }
    }
  }

  /** The message from `i` is the first flagged line from `i` on, stripped. */
  lemma {:induction false} MessageFromFirst(lines: seq<string>, i: nat, j: nat)
    requires i <= j < |lines| && Flagged(lines[j])
    requires forall l :: i <= l < j ==> !Flagged(lines[l])
    ensures MessageFrom(lines, i) == Strip(lines[j])
    decreases j - i
  {
    if i < j {
      assert !Flagged(lines[i]);
      assert MessageFrom(lines, i) == MessageFrom(lines, i + 1);
      MessageFromFirst(lines, i + 1, j);
    }
  }

  /** The message of a sighting: the first line that mentions `error:` or
      `exception:` in any case, stripped, and empty when there is none. */
  lemma MessageSpec(lines: seq<string>)
    ensures (forall j :: 0 <= j < |lines| ==> !Flagged(lines[j])) <==> Message(lines) == ""
    ensures forall j :: 0 <= j < |lines| && Flagged(lines[j]) && (forall l :: 0 <= l < j ==> !Flagged(lines[l])) ==>
      Message(lines) == Strip(lines[j])
  {
    MessageFromEmpty(lines, 0);
    forall j | 0 <= j < |lines| && Flagged(lines[j]) && (forall l :: 0 <= l < j ==> !Flagged(lines[l]))
      ensures Message(lines) == Strip(lines[j])
    {
      MessageFromFirst(lines, 0, j);
    }
  }

  /** A flagged line holds a letter, so it does not strip to nothing. */
  lemma FlaggedNotBlank(line: string)
    requires Flagged(line)
    ensures Strip(line) != []
  {
    var lower := Lower(line);
    var k := if Contains(lower, "error:") then Find(lower, "error:").value else Find(lower, "exception:").value;
    assert lower[k] == 'e';
    assert line[k] == 'e' || line[k] == 'E';
    StripNonBlank(line, k);
  }

  /** The message loop of `save_error_to_database`: it stops at the first
      flagged line. */
  method FindMessage(lines: seq<string>) returns (message: string)
    ensures message == Message(lines)
  {
    var i := 0;
    while i < |lines|
      invariant i <= |lines| && MessageFrom(lines, i) == Message(lines)
    {
      var lower := Lower(lines[i]);
      if Contains(lower, "error:") || Contains(lower, "exception:") {
        return Strip(lines[i]);
      }
      i := i + 1;
    }
    return "";
  }

  // ---------------------------------------------------------------------
  // save_error_to_database

  /** One record of `errors.json`; a record without a message reads as one
      with the empty message. */
  datatype Entry = Entry(firstSeen: string, lastSeen: string, count: nat, message: string)

  /** The database file as `json.load` finds it. */
  datatype Store =
    | NoFile                              // the file does not exist
    | Unreadable                          // not valid JSON, or not readable
    | Db(entries: map<string, Entry>)

  /** The dictionary a save starts from: a missing or unreadable file counts
      as an empty one. */
  function Loaded(store: Store): map<string, Entry>
  {
    if store.Db? then store.entries else map[]
  }

  /** The database after one more sighting of `code` at time `now`. */
  function Merged(db: map<string, Entry>, code: string, message: string, now: string): map<string, Entry>
  {
    if code !in db then db[code := Entry(now, now, 1, message)]
    else
      var e := db[code];
      db[code := Entry(e.firstSeen, now, e.count + 1, if message != "" && e.message == "" then message else e.message)]
  }

  /** What `save_error_to_database` writes: nothing for an empty code or no
      lines, otherwise the merged database. */
  function Saved(store: Store, code: string, lines: seq<string>, now: string): Option<map<string, Entry>>
  {
    if code == "" || lines == [] then None
    else Some(Merged(Loaded(store), code, Message(lines), now))
  }

  /** `save_error_to_database`: the record of the code is created or updated
      in place, and the whole database is written back. */
  method SaveError(store: Store, code: string, lines: seq<string>, now: string)
    returns (written: Option<map<string, Entry>>)
    ensures written == Saved(store, code, lines, now)
  {
    if code == "" || lines == [] {
      return None;
    }
    var db: map<string, Entry> := map[];
    if store.Db? {
      db := store.entries;
    }
    var message := FindMessage(lines);
    if code !in db {
      db := db[code := Entry(now, now, 1, message)];
    } else {
      var e := db[code];
      e := e.(lastSeen := now, count := e.count + 1);
      if message != "" && e.message == "" {
        e := e.(message := message);
      }
      db := db[code := e];
    }
    return Some(db);
  }

  /** A code seen for the first time gets one sighting, first and last seen
      now, and the message of the sighting; no other record changes. */
  lemma MergeNew(db: map<string, Entry>, code: string, message: string, now: string)
    requires code !in db
    ensures var r := Merged(db, code, message, now);
      && r.Keys == db.Keys + {code}
      && r[code].count == 1 && r[code].firstSeen == r[code].lastSeen == now
      && r[code].message == message
      && forall c :: c in db ==> r[c] == db[c]
  {
  }

  /** A code seen before keeps its first sighting, counts one more, is last
      seen now, and keeps a non-empty message; an empty one is filled by the
      new message. No other record changes. */
  lemma MergeExisting(db: map<string, Entry>, code: string, message: string, now: string)
    requires code in db
    ensures var r := Merged(db, code, message, now);
      && r.Keys == db.Keys
      && r[code].firstSeen == db[code].firstSeen && r[code].lastSeen == now
      && r[code].count == db[code].count + 1
      && (db[code].message != "" ==> r[code].message == db[code].message)
      && (db[code].message == "" ==> r[code].message == message)
      && forall c :: c in db && c != code ==> r[c] == db[c]
  {
  }

  /** One sighting: the message of its lines and the time of the save. */
  datatype Sighting = Sighting(message: string, at: string)

  /** The database after a series of sightings of one code. */
  function Replayed(db: map<string, Entry>, code: string, seen: seq<Sighting>): map<string, Entry>
    decreases |seen|
  {
    if seen == [] then db
    else Replayed(Merged(db, code, seen[0].message, seen[0].at), code, seen[1..])
  }

  /** The first non-empty message of a series, or the empty one. */
  function FirstMessage(seen: seq<Sighting>): (m: string)
    ensures m != "" ==> exists i :: 0 <= i < |seen| && seen[i].message == m
  {
    if seen == [] then ""
    else if seen[0].message != "" then seen[0].message
    else FirstMessage(seen[1..])
  }

  /** Over a series of sightings of a code already recorded, the record
      counts every one, keeps its first sighting, is last seen at the last
      one, and keeps its message, or takes the first non-empty one. */
  lemma {:induction false} ReplayedRecord(db: map<string, Entry>, code: string, seen: seq<Sighting>)
    requires code in db && seen != []
    ensures var r := Replayed(db, code, seen);
      && code in r
      && r[code].count == db[code].count + |seen|
      && r[code].firstSeen == db[code].firstSeen
      && r[code].lastSeen == seen[|seen| - 1].at
      && r[code].message == (if db[code].message != "" then db[code].message else FirstMessage(seen))
    decreases |seen|
  {
    var next := Merged(db, code, seen[0].message, seen[0].at);
    MergeExisting(db, code, seen[0].message, seen[0].at);
    if |seen| > 1 {
      ReplayedRecord(next, code, seen[1..]);
      assert seen[1..][|seen[1..]| - 1] == seen[|seen| - 1];
    }
  }

  /** Starting from a database that does not know the code, `n` sightings
      give a record with count `n`, first seen at the first one, last seen at
      the last one, and the first non-empty message. */
  lemma ReplayedFromNew(db: map<string, Entry>, code: string, seen: seq<Sighting>)
    requires code !in db && seen != []
    ensures var r := Replayed(db, code, seen);
      && code in r
      && r[code].count == |seen|
      && r[code].firstSeen == seen[0].at
      && r[code].lastSeen == seen[|seen| - 1].at
      && r[code].message == FirstMessage(seen)
  {
    var next := Merged(db, code, seen[0].message, seen[0].at);
    MergeNew(db, code, seen[0].message, seen[0].at);
    if |seen| > 1 {
      ReplayedRecord(next, code, seen[1..]);
      assert seen[1..][|seen[1..]| - 1] == seen[|seen| - 1];
    }
  }

  // ---------------------------------------------------------------------
  // extract_error_log_from_docker, with its save

  /** The extraction and its save, as written: the period handed to `docker
      logs`, the context returned with the anchor last, and the database
      written from that list, if any. `docker` is the container's log for that
      period, split into lines; `None` when the call fails, which returns
      nothing and saves nothing. */
  method ExtractErrorLog(code: string, period: string, docker: Option<seq<string>>, store: Store, now: string)
    returns (since: string, result: seq<string>, written: Option<map<string, Entry>>)
    ensures since == ErrorExtract.EffectivePeriod(period)
    ensures docker.None? ==> result == [] && written.None?
    ensures docker.Some? ==> result == ErrorExtract.ExtractedAsWritten(docker.value, code)
    ensures docker.Some? ==> written == Saved(store, code, result, now)
  {
    since := ErrorExtract.EffectivePeriod(period);
    if docker.None? || docker.value == [] {
      return since, [], None;
    }
    result := ErrorExtract.ExtractAsWritten(docker.value, code);
    written := SaveError(store, code, result, now);
  }

  /** The database is written exactly when the code is not empty and some log
      line mentions it, whichever order the context is in. */
  lemma SavedWhenFound(store: Store, code: string, logs: seq<string>, now: string)
    ensures Saved(store, code, ErrorExtract.ExtractedAsWritten(logs, code), now).Some? <==>
      code != "" && exists t :: 0 <= t < |logs| && ErrorExtract.Mentions(logs[t], code)
    ensures Saved(store, code, ErrorExtract.Extracted(logs, code), now).Some? <==>
      code != "" && exists t :: 0 <= t < |logs| && ErrorExtract.Mentions(logs[t], code)
  {
    ErrorExtract.ExtractedEmpty(logs, code);
  }

  // ---------------------------------------------------------------------
  // get_error_explanation

  /** The built-in explanations. */
  const Builtin: map<string, string> := map[
    "ERR-001" := "Database connection failed. Check database credentials and server status.",
    "ERR-002" := "File permission denied. Check file ownership and permissions.",
    "ERR-003" := "Invalid configuration parameter.",
    "ERR-004" := "Service failed to start. Check service configuration.",
    "ERR-005" := "Network connection timeout.",
    "ERROR-AUTH" := "Authentication failed. Check credentials.",
    "ERROR-QUOTA" := "User quota exceeded.",
    "ERR-DNS" := "DNS resolution failed. Check DNS configuration."
  ]

  /** `get_error_explanation`: the built-in table first, then the message the
      local database holds for the code, if that is not empty. */
  function Explanation(code: string, store: Store): Option<string>
  {
    if code in Builtin then Some(Builtin[code])
    else if store.Db? && code in store.entries && store.entries[code].message != "" then
      Some(store.entries[code].message)
    else None
  }

  /** A built-in explanation wins whatever the local database holds; any
      other code is explained only by a non-empty local message, and never
      when the database is missing or unreadable. No explanation is empty. */
  lemma ExplanationPrecedence(code: string, store: Store, other: Store)
    ensures code in Builtin ==> Explanation(code, store) == Explanation(code, other) == Some(Builtin[code])
    ensures code !in Builtin ==>
      (Explanation(code, store).Some? <==> store.Db? && code in store.entries && store.entries[code].message != "")
    ensures !store.Db? ==> Explanation(code, store) == (if code in Builtin then Some(Builtin[code]) else None)
    ensures Explanation(code, store) != Some("")
  {
  }

  /** After a sighting whose lines hold a flagged line, a code without a
      built-in explanation is explained by the message on record: the one
      stored before, or else the message of this sighting. */
  lemma ExplainedAfterSave(store: Store, code: string, lines: seq<string>, now: string)
    requires code != "" && code !in Builtin
    requires exists j :: 0 <= j < |lines| && Flagged(lines[j])
    ensures Saved(store, code, lines, now).Some?
    ensures var before := Explanation(code, store);
      Explanation(code, Db(Saved(store, code, lines, now).value)) ==
        (if before.Some? then before else Some(Message(lines)))
  {
    MessageSpec(lines);
    var db := Loaded(store);
    if code in db {
      MergeExisting(db, code, Message(lines), now);
    }
  }

  // ---------------------------------------------------------------------
  // find_all_error_codes

  /** One entry of the `--list` summary. */
  datatype CodeInfo = CodeInfo(code: string, count: nat, example: string)

  /** What the regular expressions find in the logs: the matches of the four
      patterns one after the other, the log split into lines, and the number
      of case-insensitive occurrences of each code. */
  datatype Scan = Scan(matches: seq<string>, lines: seq<string>, occurrences: string -> nat)

  /** `example[:100] + "..."` when the example is longer than 100 characters. */
  function Truncated(example: string): (r: string)
    ensures |r| <= 103
    ensures |example| <= 100 ==> r == example
    ensures |example| > 100 ==> |r| == 103 && r[..100] == example[..100] && r[100..] == "..."
  {
    if |example| > 100 then example[..100] + "..." else example
  }

  /** The example from line `i` on: the first line that mentions the code in
      any case, or the empty text. */
  function ExampleFrom(lines: seq<string>, code: string, i: nat): string
    requires i <= |lines|
    decreases |lines| - i
  {
    if i == |lines| then ""
    else if ErrorExtract.Mentions(lines[i], code) then lines[i]
    else ExampleFrom(lines, code, i + 1)
  }

  /** The example is the first line that mentions the code, or empty when no
      line does. */
  lemma {:induction false} ExampleFromSpec(lines: seq<string>, code: string, i: nat)
    requires i <= |lines|
    ensures var e := ExampleFrom(lines, code, i);
      || (e == "" && forall j :: i <= j < |lines| ==> !ErrorExtract.Mentions(lines[j], code))
      || exists j :: i <= j < |lines| && e == lines[j] && ErrorExtract.Mentions(lines[j], code) &&
           forall l :: i <= l < j ==> !ErrorExtract.Mentions(lines[l], code)
    decreases |lines| - i
  {
    if i < |lines| && !ErrorExtract.Mentions(lines[i], code) {
      ExampleFromSpec(lines, code, i + 1);
    }
  }

  function Info(scan: Scan, code: string): CodeInfo
  {
    CodeInfo(code, scan.occurrences(code), Truncated(ExampleFrom(scan.lines, code, 0)))
  }

  function Codes(infos: seq<CodeInfo>): (codes: seq<string>)
    ensures |codes| == |infos|
  {
    seq(|infos|, i requires 0 <= i < |infos| => infos[i].code)
  }

  /** The list after the first `n` matches: a stripped match not listed yet
      is added with its count and example. */
  function CollectedCodes(scan: Scan, n: nat): seq<CodeInfo>
    requires n <= |scan.matches|
  {
    if n == 0 then []
    else
      var prior := CollectedCodes(scan, n - 1);
      var code := Strip(scan.matches[n - 1]);
      if code in Codes(prior) then prior else prior + [Info(scan, code)]
  }

  /** The collection loop of `find_all_error_codes`. */
  method CollectCodes(scan: Scan) returns (infos: seq<CodeInfo>)
    ensures infos == CollectedCodes(scan, |scan.matches|)
  {
    infos := [];
    var i := 0;
    while i < |scan.matches|
      invariant i <= |scan.matches| && infos == CollectedCodes(scan, i)
    {
      var code := Strip(scan.matches[i]);
      if code !in Codes(infos) {
        infos := infos + [Info(scan, code)];
      }
      i := i + 1;
    }
  }

  predicate DistinctCodes(infos: seq<CodeInfo>)
  {
    forall i, j :: 0 <= i < j < |infos| ==> infos[i].code != infos[j].code
  }

  /** The list grows by at most the entry of the latest match. */
  lemma CollectedStep(scan: Scan, n: nat)
    requires 0 < n <= |scan.matches|
    ensures var prior := CollectedCodes(scan, n - 1);
      var code := Strip(scan.matches[n - 1]);
      && (code in Codes(prior) ==> CollectedCodes(scan, n) == prior)
      && (code !in Codes(prior) ==>
            CollectedCodes(scan, n) == prior + [Info(scan, code)] && Codes(CollectedCodes(scan, n)) == Codes(prior) + [code])
  {
    var prior := CollectedCodes(scan, n - 1);
    var code := Strip(scan.matches[n - 1]);
    if code !in Codes(prior) {
      assert Codes(prior + [Info(scan, code)]) == Codes(prior) + [code];
    }
  }

  /** No code is listed twice. */
  lemma {:induction false} CollectedDistinct(scan: Scan, n: nat)
    requires n <= |scan.matches|
    ensures DistinctCodes(CollectedCodes(scan, n))
  {
    if n > 0 {
      CollectedDistinct(scan, n - 1);
      CollectedStep(scan, n);
      var prior := CollectedCodes(scan, n - 1);
      var code := Strip(scan.matches[n - 1]);
      if code !in Codes(prior) {
        var infos := CollectedCodes(scan, n);
        forall i, j | 0 <= i < j < |infos| ensures infos[i].code != infos[j].code {
          if j == |prior| {
            assert infos[i].code == Codes(prior)[i];
          } else {
            assert infos[i] == prior[i] && infos[j] == prior[j];
          }
        }
      }
    }
  }

  /** A code is listed exactly when some match strips to it. */
  lemma {:induction false} CollectedCovers(scan: Scan, n: nat)
    requires n <= |scan.matches|
    ensures forall code :: code in Codes(CollectedCodes(scan, n)) <==>
      exists i :: 0 <= i < n && Strip(scan.matches[i]) == code
  {
    if n > 0 {
      CollectedCovers(scan, n - 1);
      CollectedStep(scan, n);
    }
  }

  /** Each entry carries the count and the example of its code. */
  lemma {:induction false} CollectedInfos(scan: Scan, n: nat)
    requires n <= |scan.matches|
    ensures var infos := CollectedCodes(scan, n);
      forall i :: 0 <= i < |infos| ==> infos[i] == Info(scan, infos[i].code)
  {
    if n > 0 {
      CollectedInfos(scan, n - 1);
      CollectedStep(scan, n);
    }
  }

  /** `sorted(..., key=count, reverse=True)` by insertion: an element goes
      before the first one whose count is not larger, so it stays ahead of
      the later ones with the same count. */
  function Insert(x: CodeInfo, sorted: seq<CodeInfo>): (r: seq<CodeInfo>)
    ensures |r| == |sorted| + 1
  {
    if sorted == [] || sorted[0].count <= x.count then [x] + sorted
    else [sorted[0]] + Insert(x, sorted[1..])
  }

  function SortByCount(infos: seq<CodeInfo>): (r: seq<CodeInfo>)
    ensures |r| == |infos|
  {
    if infos == [] then [] else Insert(infos[0], SortByCount(infos[1..]))
  }

  predicate Descending(infos: seq<CodeInfo>)
  {
    forall i, j :: 0 <= i < j < |infos| ==> infos[i].count >= infos[j].count
  }

  /** The entries with a given count, in their order. */
  function WithCount(infos: seq<CodeInfo>, c: nat): seq<CodeInfo>
  {
    if infos == [] then []
    else (if infos[0].count == c then [infos[0]] else []) + WithCount(infos[1..], c)
  }

  /** Inserting into a descending list keeps it descending. */
  lemma {:induction false} InsertDescending(x: CodeInfo, sorted: seq<CodeInfo>)
    requires Descending(sorted)
    ensures Descending(Insert(x, sorted))
    decreases |sorted|
  {
    if sorted != [] && sorted[0].count > x.count {
      var rest := Insert(x, sorted[1..]);
      InsertDescending(x, sorted[1..]);
      InsertMultiset(x, sorted[1..]);
      var r := Insert(x, sorted);
      assert r == [sorted[0]] + rest;
      forall j | 0 < j < |r| ensures r[0].count >= r[j].count {
        assert r[j] == rest[j - 1];
        assert rest[j - 1] in multiset(sorted[1..]) + multiset{x};
        if rest[j - 1] != x {
          var t :| 0 <= t < |sorted[1..]| && sorted[1..][t] == rest[j - 1];
          assert sorted[1 + t] == r[j];
        }
      }
    }
  }

  /** Inserting adds exactly the one element. */
  lemma {:induction false} InsertMultiset(x: CodeInfo, sorted: seq<CodeInfo>)
    ensures multiset(Insert(x, sorted)) == multiset(sorted) + multiset{x}
    decreases |sorted|
  {
    if sorted != [] && sorted[0].count > x.count {
      InsertMultiset(x, sorted[1..]);
      assert sorted == [sorted[0]] + sorted[1..];
    }
  }

  /** Among the entries with one count, the inserted element comes first. */
  lemma {:induction false} InsertWithCount(x: CodeInfo, sorted: seq<CodeInfo>, c: nat)
    ensures WithCount(Insert(x, sorted), c) ==
      (if x.count == c then [x] + WithCount(sorted, c) else WithCount(sorted, c))
    decreases |sorted|
  {
    var r := Insert(x, sorted);
    if sorted == [] || sorted[0].count <= x.count {
      assert r[1..] == sorted;
    } else {
      InsertWithCount(x, sorted[1..], c);
      assert r[1..] == Insert(x, sorted[1..]);
      assert WithCount(sorted, c) == (if sorted[0].count == c then [sorted[0]] else []) + WithCount(sorted[1..], c);
    }
  }

  /** The summary order is descending by count and holds the same entries. */
  lemma {:induction false} SortByCountSpec(infos: seq<CodeInfo>)
    ensures Descending(SortByCount(infos))
    ensures multiset(SortByCount(infos)) == multiset(infos)
    decreases |infos|
  {
    if infos != [] {
      SortByCountSpec(infos[1..]);
      InsertDescending(infos[0], SortByCount(infos[1..]));
      InsertMultiset(infos[0], SortByCount(infos[1..]));
      assert infos == [infos[0]] + infos[1..];
    }
  }

  /** Entries with equal counts keep the order in which they were found. */
  lemma {:induction false} SortByCountStable(infos: seq<CodeInfo>, c: nat)
    ensures WithCount(SortByCount(infos), c) == WithCount(infos, c)
    decreases |infos|
  {
    if infos != [] {
      SortByCountStable(infos[1..], c);
      InsertWithCount(infos[0], SortByCount(infos[1..]), c);
    }
  }

  /** `find_all_error_codes`: nothing when the logs cannot be read, otherwise
      the collected codes sorted by count, largest first. */
  function AllErrorCodes(scan: Option<Scan>): seq<CodeInfo>
  {
    match scan
    case None => []
    case Some(s) => SortByCount(CollectedCodes(s, |s.matches|))
  }

  method FindAllErrorCodes(scan: Option<Scan>) returns (infos: seq<CodeInfo>)
    ensures infos == AllErrorCodes(scan)
  {
    if scan.None? {
      return [];
    }
    var found := CollectCodes(scan.value);
    infos := SortByCount(found);
  }
}
