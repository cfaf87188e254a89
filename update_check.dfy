/** `opencli update_check`: the comparison of the installed version with the
    published one, and the notification it appends to the notifications log
    (update_check.py). The version file, the web request and the clock are
    inputs; the log is the state the notification changes. */
module UpdateCheck {
  import opened Base
  import opened Text

  // ---------------------------------------------------------------------
  // The notifications log

  /** The line `write_notification` appends. */
  function NotificationLine(now: string, title: string, message: string): string
  {
    now + " UNREAD " + title + " MESSAGE: " + message + "\n"
  }

  /** The part of a notification line that names it as an unread notice with
      a given title. */
  function UnreadMarker(title: string): string
  {
    " UNREAD " + title + " MESSAGE: "
  }

  /** The log after `text`, which ends a line, is written at its end: a last
      line without a line break is continued by it. */
  function Appended(log: File, text: string): File
  {
    match log
    case Missing => Present([text])
    case Present(lines) =>
      if lines == [] || EndsLine(lines[|lines| - 1]) then Present(lines + [text])
      else Present(lines[..|lines| - 1] + [lines[|lines| - 1] + text])
  }

  predicate EndsLine(line: string)
  {
    line != [] && line[|line| - 1] == '\n'
  }

  /** Appending adds at most one line and changes no line but the last; when
      the log ends with a line break it adds exactly the new line. */
  lemma AppendedKeepsLines(log: File, text: string)
    ensures Appended(log, text).Present?
    ensures log.Missing? ==> Appended(log, text).lines == [text]
    ensures log.Present? ==>
      var old_ := log.lines;
      var new_ := Appended(log, text).lines;
      && |old_| <= |new_| <= |old_| + 1
      && (forall i :: 0 <= i < |old_| - 1 ==> new_[i] == old_[i])
      && ((old_ == [] || EndsLine(old_[|old_| - 1])) <==> new_ == old_ + [text])
  {
    if log.Present? && log.lines != [] && !EndsLine(log.lines[|log.lines| - 1]) {
      var lines := log.lines;
      var new_ := Appended(log, text).lines;
      assert |new_| == |lines|;
    }
  }

  /** `get_last_message_content`: the last line, stripped; nothing when the
      log is missing or empty. */
  function LastMessage(log: File): Option<string>
  {
    if log.Missing? || log.lines == [] then None
    else Some(Strip(log.lines[|log.lines| - 1]))
  }

  /** A line the unread check of `is_unread_message_present` accepts. */
  predicate UnreadLine(line: string, title: string)
  {
    StartsWith(line, "UNREAD") && Contains(line, title)
  }

  /** `is_unread_message_present`: some line starts with `UNREAD` and holds the
      text; a missing log holds none. */
  method IsUnreadMessagePresent(log: File, title: string) returns (present: bool)
    ensures present <==> log.Present? && exists i :: 0 <= i < |log.lines| && UnreadLine(log.lines[i], title)
  {
    if log.Missing? {
      return false;
    }
    var i := 0;
    while i < |log.lines|
      invariant i <= |log.lines|
      invariant forall j :: 0 <= j < i ==> !UnreadLine(log.lines[j], title)
    {
      if StartsWith(log.lines[i], "UNREAD") && Contains(log.lines[i], title) {
        return true;
      }
      i := i + 1;
    }
    return false;
  }

  /** The test of `write_notification` as written: the message differs from
      the last line, and no line starting with `UNREAD` holds the title. */
  predicate WritesAsWritten(log: File, title: string, message: string)
  {
    && LastMessage(log) != Some(message)
    && !(log.Present? && exists i :: 0 <= i < |log.lines| && UnreadLine(log.lines[i], title))
  }

  /** The log after one `write_notification` as written. */
  function NotifiedAsWritten(log: File, now: string, title: string, message: string): File
  {
    if WritesAsWritten(log, title, message) then Appended(log, NotificationLine(now, title, message)) else log
  }

  /** A line that is an unread notice with the title. */
  predicate UnreadNotice(line: string, title: string)
  {
    Contains(line, UnreadMarker(title))
  }

  /** The check that evidently was meant: an unread notice with this title is
      already in the log, wherever its timestamp puts the status word. */
  method HasUnreadNotice(log: File, title: string) returns (present: bool)
    ensures present <==> log.Present? && exists i :: 0 <= i < |log.lines| && UnreadNotice(log.lines[i], title)
  {
    if log.Missing? {
      return false;
    }
    var marker := UnreadMarker(title);
    var i := 0;
    while i < |log.lines|
      invariant i <= |log.lines|
      invariant forall j :: 0 <= j < i ==> !UnreadNotice(log.lines[j], title)
    {
      if Contains(log.lines[i], marker) {
        return true;
      }
      i := i + 1;
    }
    return false;
  }

  /** The corrected test: no unread notice with the title is in the log. */
  predicate Writes(log: File, title: string)
  {
    !(log.Present? && exists i :: 0 <= i < |log.lines| && UnreadNotice(log.lines[i], title))
  }

  /** The log after one corrected `write_notification`. */
  function Notified(log: File, now: string, title: string, message: string): File
  {
    if Writes(log, title) then Appended(log, NotificationLine(now, title, message)) else log
  }

  /** The log file `/usr/local/admin/logs/notifications.log`. */
  class NotificationLog {
    var log: File

    constructor(log: File)
      ensures this.log == log
    {
      this.log := log;
    }

    /** `write_notification` as written. */
    method WriteAsWritten(now: string, title: string, message: string)
      modifies this
      ensures log == NotifiedAsWritten(old(log), now, title, message)
    {
      var current := NotificationLine(now, title, message);
      var last := LastMessage(log);
      var unread := IsUnreadMessagePresent(log, title);
      if last != Some(message) && !unread {
        log := Appended(log, current);
      }
    }

    /** `write_notification` with the duplicate check it evidently meant. */
    method Write(now: string, title: string, message: string)
      modifies this
      ensures log == Notified(old(log), now, title, message)
    {
      var current := NotificationLine(now, title, message);
      var unread := HasUnreadNotice(log, title);
      if !unread {
        log := Appended(log, current);
      }
    }
  }

  /** The notification line holds its own unread marker. */
  lemma MarkerInLine(now: string, title: string, message: string)
    ensures OccursAt(NotificationLine(now, title, message), UnreadMarker(title), |now|)
  {
    var line := NotificationLine(now, title, message);
    var marker := UnreadMarker(title);
    assert line == now + marker + message + "\n";
    assert line[|now|..|now| + |marker|] == marker;
  }

  /** A pattern found in the tail of a text is found in the text. */
  lemma OccursInTail(x: string, y: string, p: string, j: nat)
    requires OccursAt(y, p, j)
    ensures OccursAt(x + y, p, |x| + j)
  {
    assert (x + y)[|x| + j..|x| + j + |p|] == y[j..j + |p|];
  }

  /** With the corrected check, once a notice is written, a later one with
      the same title is not written: duplicates are skipped. */
  lemma NotifiedOnce(log: File, now: string, later: string, title: string, message: string, other: string)
    ensures var once := Notified(log, now, title, message);
      Notified(once, later, title, other) == once
  {
    var once := Notified(log, now, title, message);
    var line := NotificationLine(now, title, message);
    MarkerInLine(now, title, message);
    if Writes(log, title) {
      var lines := once.lines;
      var n := |lines| - 1;
      if log.Missing? || log.lines == [] || EndsLine(log.lines[|log.lines| - 1]) {
        assert lines[n] == line;
        ContainsAt(lines[n], UnreadMarker(title), |now|);
      } else {
        var last := log.lines[|log.lines| - 1];
        assert lines[n] == last + line;
        OccursInTail(last, line, UnreadMarker(title), |now|);
        ContainsAt(lines[n], UnreadMarker(title), |last| + |now|);
      }
    }
  }

  /** A line written by `write_notification` does not strip to its own
      message, when its timestamp starts with a digit. */
  lemma OwnLineIsNotMessage(now: string, title: string, message: string)
    requires now != [] && IsDigit(now[0])
    ensures Strip(NotificationLine(now, title, message)) != message
  {
    var line := NotificationLine(now, title, message);
    var p := now + " UNREAD " + title + " MESSAGE: ";
    assert line == p + message + "\n";
    assert line[0] == now[0];
    assert LStrip(line) == line;
    RStripSpec(line);
    assert !IsSpace(line[0]);
    assert message != [] ==> line[|p| + |message| - 1] == message[|message| - 1];
  }

  /** As written, the duplicate check never holds back a notice after one of
      its own lines: a log whose lines all start with a digit, as timestamps
      do, and whose last line is this very notice, still gets it again. */
  lemma RewrittenAsWritten(lines: seq<string>, now: string, title: string, message: string)
    requires forall i :: 0 <= i < |lines| ==> lines[i] != [] && IsDigit(lines[i][0])
    requires lines != [] && lines[|lines| - 1] == NotificationLine(now, title, message)
    ensures WritesAsWritten(Present(lines), title, message)
  {
    var last := lines[|lines| - 1];
    assert last[0] == now[0];
    OwnLineIsNotMessage(now, title, message);
    forall i | 0 <= i < |lines| ensures !UnreadLine(lines[i], title) {
      assert lines[i][0] != "UNREAD"[0];
    }
  }

  // ---------------------------------------------------------------------
  // update_check

  /** Python's `<` on strings: character by character, a proper prefix first. */
  predicate TextLess(a: string, b: string)
  {
    if a == [] then b != []
    else if b == [] then false
    else if a[0] != b[0] then a[0] < b[0]
    else TextLess(a[1..], b[1..])
  }

  /** Exactly one of equal, less and greater holds. */
  lemma {:induction false} TextTrichotomy(a: string, b: string)
    ensures a == b || TextLess(a, b) || TextLess(b, a)
    ensures !(TextLess(a, b) && TextLess(b, a))
    ensures TextLess(a, b) ==> a != b
  {
    if a != [] && b != [] && a[0] == b[0] {
      TextTrichotomy(a[1..], b[1..]);
      if a[1..] == b[1..] {
        assert a == [a[0]] + a[1..] && b == [b[0]] + b[1..];
      }
    }
  }

  datatype Status = UpToDate | LocalGreater | UpdateAvailable

  /** The three-way comparison of the installed and the published version. */
  function Compare(local: string, remote: string): Status
  {
    if local == remote then UpToDate
    else if TextLess(remote, local) then LocalGreater
    else UpdateAvailable
  }

  /** Exactly one status is reported: up to date when the versions are equal,
      local greater when the installed one sorts after the published one, and
      update available when it sorts before. */
  lemma CompareSpec(local: string, remote: string)
    ensures Compare(local, remote) == UpToDate <==> local == remote
    ensures Compare(local, remote) == LocalGreater <==> TextLess(remote, local)
    ensures Compare(local, remote) == UpdateAvailable <==> TextLess(local, remote)
  {
    TextTrichotomy(local, remote);
  }

  /** The comparison is by text, not by number: `0.1.9` sorts after `0.1.10`. */
  lemma CompareIsTextual()
    ensures Compare("0.1.9", "0.1.10") == LocalGreater
  {
    var a := "0.1.9";
    var b := "0.1.10";
    assert a[..4] == b[..4] && a[4] == '9' && b[4] == '1';
    assert TextLess(b[4..], a[4..]);
    assert TextLess(b[3..], a[3..]);
    assert TextLess(b[2..], a[2..]);
    assert TextLess(b[1..], a[1..]);
  }

  const UpdateTitle: string := "New OpenPanel update is available"
  const FailTitle: string := "Update check failed"
  const FailMessage: string := "Failed connecting to https://update.openpanel.co/"

  function UpdateMessage(local: string, remote: string): string
  {
    "Installed version: " + local + " | Available version: " + remote
  }

  /** What `update_check` reports; the exit status is 1 unless the versions
      were compared. */
  datatype Outcome =
    | VersionFileMissing
    | FetchFailed
    | Checked(status: Status, installed: string, latest: string)

  /** The notice `update_check` attempts, as title and message: on a failed
      fetch, and whenever the versions differ. */
  function Attempted(versionFile: Option<string>, response: Option<string>): Option<(string, string)>
  {
    match versionFile
    case None => None
    case Some(v) =>
      match response
      case None => Some((FailTitle, FailMessage))
      case Some(t) =>
        var local := Strip(v);
        var remote := Strip(t);
        if local == remote then None else Some((UpdateTitle, UpdateMessage(local, remote)))
  }

  /** A notice is attempted exactly on a failed fetch or when the versions
      differ, and never when they are equal or the version file is missing. */
  lemma AttemptedSpec(versionFile: Option<string>, response: Option<string>)
    ensures Attempted(versionFile, response).Some? <==>
      versionFile.Some? && (response.None? || Strip(versionFile.value) != Strip(response.value))
    ensures versionFile.Some? && response.Some? && Strip(versionFile.value) != Strip(response.value) ==>
      Attempted(versionFile, response).value.0 == UpdateTitle
  {
  }

  /** `update_check`: read the installed version, fetch the published one,
      compare them, and notify with `write_notification` as written (see
      RewrittenAsWritten for the duplicates this lets through). `versionFile` is the version file's text,
      `response` the body of the reply; `None` for a missing file and a failed
      request. */
  method RunUpdateCheck(versionFile: Option<string>, response: Option<string>, notifications: NotificationLog, now: string)
    returns (outcome: Outcome)
    modifies notifications
    ensures versionFile.None? ==> outcome == VersionFileMissing
    ensures versionFile.Some? && response.None? ==> outcome == FetchFailed
    ensures versionFile.Some? && response.Some? ==>
      outcome == Checked(Compare(Strip(versionFile.value), Strip(response.value)), Strip(versionFile.value), Strip(response.value))
    ensures notifications.log == match Attempted(versionFile, response)
      case None => old(notifications.log)
      case Some(notice) => NotifiedAsWritten(old(notifications.log), now, notice.0, notice.1)
  {
    if versionFile.None? {
      return VersionFileMissing;
    }
    var local := Strip(versionFile.value);
    if response.None? {
      notifications.WriteAsWritten(now, FailTitle, FailMessage);
      return FetchFailed;
    }
    var remote := Strip(response.value);
    if local == remote {
      outcome := Checked(UpToDate, local, remote);
    } else if TextLess(remote, local) {
      notifications.WriteAsWritten(now, UpdateTitle, UpdateMessage(local, remote));
      outcome := Checked(LocalGreater, local, remote);
    } else {
      notifications.WriteAsWritten(now, UpdateTitle, UpdateMessage(local, remote));
      outcome := Checked(UpdateAvailable, local, remote);
    }
  }
}
