# opencli scripts, modelled in Dafny

This project models seven of the Python scripts behind `opencli`, the
command-line tool of the OpenPanel hosting panel:

- `opencli config` reads and updates the flat `key=value` panel
  configuration. Updating `ssl`, `port` or `openpanel_proxy` also rewrites
  the reverse-proxy template (module `PanelConfig`). As written, `config.py`
  defines `main(args)` but never calls it, so the command does nothing; the
  model gives both that run and what `main` itself does.
- `opencli admin` reads the `[DEFAULT]` section of the admin configuration,
  derives the SSL and domain settings from it, and edits the notifications
  file (module `AdminConfig`). It also keeps the SQLite table of admin users
  (module `AdminUsers`, a class whose methods update the table in place).
  Every command starts with a query on the `user` table, so on a database
  without that table each one fails; `new` too, since its
  `CREATE TABLE IF NOT EXISTS` comes after the first query. `admin.py`
  never calls its `main` either; its operations are modelled one by one.
- `opencli error` extracts the context of an error code from the
  container's logs (module `ErrorExtract`). It also keeps the local error
  database, looks up explanations and builds the `--list` summary of
  error codes (module `ErrorDb`).
- `opencli update_check` compares the installed and the published version
  and appends a notice to the notifications log (module `UpdateCheck`, the
  log being a class).
- `opencli php-default_php_version` checks a PHP version, substitutes it into
  a user's `server_config.yml` and reads it back (module `PhpVersion`).
- `opencli user-loginlog` reads a user's login history (module `LoginLog`).
  As with `config.py`, `main(args)` is defined but never called; the model
  gives both that run and what `main` itself does.
- `opencli user-list` lists the users table (module `UserList`).

Modules `Text` and `Base` hold the Python string operations the scripts use
and the shared `Option`/`Result`/`File` types:

- `Text` covers `find`, `in`, `split`, `join`, `replace`, `strip` with
  Python's whitespace set, `startswith` and `lower`.
- A file is either missing or the list of lines `readlines()` returns.

Everything outside the scripts becomes a parameter:

- the files;
- the output of `docker logs` and `mysql`;
- the reply of the update server;
- the clock;
- the public IP address.

Each script's effect is an outcome value plus the text or table it writes back.

Where the code has a bug (see "## Findings"), the members that model a whole
command follow the code as written, and a corrected member beside them
states what was evidently meant. The one exception is the missing call of
`main` in `config.py` and `user/loginlog.py`: there the as-written run is a
member of its own (`RunAsWritten`), and `PanelConfig.RunCommand` and
`LoginLog.Run` model `main(args)` as if it were called.

Where the repository's documentation and the code disagree, the model follows
the code. The login-log fields are `part.split(": ")[1]`: the text between the
first and the second `": "`, not everything after the first one.

## Model

| member | source | states |
|---|---|---|
| PanelConfig.EntryStripped | config.py:120-121 | an entry line for a key, stripped, is the key, `=` and the rest of the line, so it holds an `=` to split on |
| PanelConfig.FirstEntry | config.py:119-122 | the index returned is an entry for the key and no earlier line is one; `None` means no line is an entry |
| PanelConfig.GetConfig | config.py:116-125 | the scan reports the value of the first entry for the key, "does not exist" when there is none, and "file not found" for a missing file; a value is printed only when some line is an entry |
| PanelConfig.UpdateConfig | config.py:127-142 | every line is written back with each entry for the key replaced; the service is reloaded exactly when the file exists and the key is not `autoupdate`, `default_php_version` or `autopatch` |
| PanelConfig.UpdateShape | config.py:133-136 | an update keeps the number of lines, turns every entry into `key=value\n` and leaves every other line as it was; with no entry the file is unchanged |
| PanelConfig.EntryLineIsEntry | config.py:134-135 | the line an update writes is itself an entry for the key |
| PanelConfig.UpdateKeepsFirstEntry | config.py:133-136 | the first entry for the key stays at the same index after an update |
| PanelConfig.EntryLineValue | config.py:121-135 | `get` reads back from the written line the value, right-stripped, when neither key nor value holds `=` |
| PanelConfig.GetAfterUpdate | config.py:116-136 | round trip: after `update key value` on a file that has the key, `get key` reports the value, for a key and value without `=` or a newline |
| PanelConfig.UpdateIdempotent | config.py:133-136 | updating twice with the same value is the same as updating once |
| PanelConfig.UpdateSslConfig | config.py:65-85 | `yes` and `no` rewrite the template, any other value writes nothing, and a missing template is reported before anything else |
| PanelConfig.SslLineShape | config.py:70-82 | a line without the scheme being replaced is untouched; otherwise every occurrence of it is replaced |
| PanelConfig.PortCutSample | config.py:95 | as written, `proxy_pass http://h:1;` with port `2` becomes `proxy_pass http:2;`, which has no host |
| PanelConfig.PortCutLosesHost | config.py:95 | as written, for every line and every port without a `:`, the rewritten line has no scheme and host left, since the cut is at the line's first `:` |
| PanelConfig.PortKeepsAuthority | config.py:94-95 | the corrected port rewrite keeps the scheme and host it found |
| PanelConfig.PortIdempotent | config.py:94-95 | rewriting the port twice with the same port is the same as once |
| PanelConfig.PortTemplateLosesHosts | config.py:93-96 | as written, the template keeps its lines and their number, but no rewritten upstream keeps a scheme and host |
| PanelConfig.PortTemplateKeepsHosts | config.py:93-96 | the corrected template keeps the scheme and host of every upstream and leaves every other line as it was |
| PanelConfig.UpdatePortConfig | config.py:87-99 | as written: the loop cuts every upstream line at its first `:` and appends the port, and leaves the other lines; a missing template is reported |
| PanelConfig.OldPathFollowsFirstSlash | config.py:109-110 | the old path (`split('/')[1]`) is found first right at the line's first `/` |
| PanelConfig.ProxyPathReplacesFirstSegment | config.py:108-110 | in a `location /openpanel` line the text before the first `/` is kept and the first path segment becomes the new one |
| PanelConfig.UpdateOpenpanelProxyConfig | config.py:101-114 | the template is rewritten line by line with the path rewrite; a missing template is reported |
| PanelConfig.RunAsWritten | config.py:32-144 | as written, nothing calls `main`: every run exits 0, reports nothing, leaves both files as they were and reloads nothing |
| PanelConfig.MissingMainIgnoresUpdate | config.py:39-63 | as written, `update k v` on a file holding `k=x` leaves it unchanged, where `main` writes `k=v` |
| PanelConfig.RunCommand | config.py:39-63 | `main(args)`, as if it were called: wrong argument counts or commands exit 1 and change nothing; `get` only reads; `update` rewrites the configuration, rewrites the template exactly for `ssl`, `port` and `openpanel_proxy` (the port with the cut as written), and reloads exactly for non-exempt keys |
| AdminConfig.Roles | admin.py:90-99 | the reader gives one role per line, in order: a pair, a malformed pair, or skipped (headers and all other lines) |
| AdminConfig.HeaderStep | admin.py:91-93 | a `[DEFAULT]` header sets the collection flag and adds no pair |
| AdminConfig.PairStep | admin.py:95-97 | a line with `=` read while collecting either fails to unpack or sets its stripped key to its stripped value |
| AdminConfig.OtherStep | admin.py:98-99 | any other line adds nothing; a `[` header ends the collection |
| AdminConfig.PairsErrSticks | admin.py:90-99 | once reading has failed, later lines do not change the result |
| AdminConfig.ReadLine | admin.py:90-99 | one loop step computes the flag and the dictionary after the line from those before it |
| AdminConfig.ReadConfig | admin.py:81-101 | the loop computes the reader's result over all lines |
| AdminConfig.FlagReopens | admin.py:86-99 | the collection flag is set before a line exactly when every closing header seen so far was followed by a `[DEFAULT]` header |
| AdminConfig.PairsOk | admin.py:95-97 | reading succeeds exactly when no collected line is malformed |
| AdminConfig.PairsErr | admin.py:96 | a failure names the first malformed line |
| AdminConfig.PairsKeys | admin.py:95-97 | the keys read are exactly the keys of the collected pairs |
| AdminConfig.PairsLastWins | admin.py:97 | the last pair for a key gives its value |
| AdminConfig.RoleOfLine | admin.py:91-99 | a line is collected exactly when the flag is set, it is not a `[DEFAULT]` header and it holds `=`; a pair is the stripped halves of a two-part split |
| AdminConfig.UnpackPair | admin.py:96-97 | a `k=v` line ending in whitespace, with `=` in neither part, unpacks to the stripped key and value |
| AdminConfig.SslEnabled | admin.py:104-107 | SSL is on exactly when `ssl` is set to `yes` after lower-casing |
| AdminConfig.SslSpellings | admin.py:107 | the spellings that count as on are `yes` in any mix of cases |
| AdminConfig.GetSslStatus | admin.py:104-107 | fails exactly when reading fails, otherwise reports whether SSL is on |
| AdminConfig.GetForceDomain | admin.py:110-118 | a non-empty `force_domain` wins, otherwise the public IP; fails exactly when reading fails |
| AdminConfig.FirstPrefixed | admin.py:336-337 | the index returned is the first line that starts with the name; `None` means none does |
| AdminConfig.GetNotification | admin.py:332-344 | the loop computes the value after the first `=` of the first matching line, or "does not exist" |
| AdminConfig.UpdateNotification | admin.py:347-367 | the loop replaces the first matching line, or reports "not found" and writes nothing |
| AdminConfig.UpdateTouchesFirstMatchOnly | admin.py:353-357 | only the first matching line changes; every other line, including later matches, is kept |
| AdminConfig.NotificationLineStarts | admin.py:355 | the written line starts with the name |
| AdminConfig.UpdateKeepsFirstMatch | admin.py:353-357 | the rewritten line is still the first match |
| AdminConfig.NotificationLineValue | admin.py:338-355 | the written line splits on `=` into the name and the value with its newline |
| AdminConfig.GetAfterNotificationUpdate | admin.py:332-367 | round trip: after an update, `get` of the same name reports the stripped value, for a name and value without `=` or a newline |
| AdminConfig.UpdateMissNoWrite | admin.py:359-363 | with no matching line nothing is written |
| AdminUsers.CountNamed | admin.py:265-271 | the count is positive exactly when a row has the name (and the `admin` role, when asked) |
| AdminUsers.CountAtMostOne | admin.py:177 | with unique usernames a name is counted at most once |
| AdminUsers.MaxId | admin.py:177-181 | the largest id is at least every id in the table |
| AdminUsers.AddKeepsDistinct | admin.py:169-181 | inserting a new name keeps names and ids unique and adds exactly that name |
| AdminUsers.RenameKeepsDistinct | admin.py:203-205 | renaming to a free name keeps the table consistent, keeps every id and swaps the one name |
| AdminUsers.FieldUpdatesFrame | admin.py:228-296 | setting a password or the active flag changes only that field of the named rows |
| AdminUsers.SuspendUnsuspend | admin.py:279-296 | suspending and then unsuspending an active user gives the original table back |
| AdminUsers.RemovedFrame | admin.py:323 | deleting drops exactly the rows with the name and keeps every other row |
| AdminUsers.RemovedDistinct | admin.py:323 | deleting keeps names and ids unique |
| AdminUsers.RemovedOne | admin.py:323 | with unique names, deleting a present name removes exactly one row |
| AdminUsers.RemovedAbsent | admin.py:323 | deleting a name that is not there changes nothing |
| AdminUsers.UserTable.Count | admin.py:169-170 | returns the number of matching rows, and fails when the `user` table does not exist |
| AdminUsers.UserTable.Add | admin.py:158-186 | without the `user` table the first count fails before the `CREATE TABLE`, and nothing changes; an existing name is refused and the table is unchanged; otherwise exactly one new row is appended |
| AdminUsers.UserTable.Rename | admin.py:189-210 | without the table it fails and changes nothing; a missing old name or a taken new name is refused; otherwise the one user is renamed |
| AdminUsers.UserTable.SetPassword | admin.py:213-245 | without the table it fails and changes nothing; a missing user is refused; otherwise only the named row's hash changes |
| AdminUsers.UserTable.Suspend | admin.py:261-285 | without the table it fails and changes nothing; a missing user or an `admin` is refused; otherwise the user is marked inactive |
| AdminUsers.UserTable.Unsuspend | admin.py:288-302 | without the table it fails and changes nothing; a missing user is refused; otherwise the user is marked active |
| AdminUsers.UserTable.Delete | admin.py:305-329 | without the table it fails and changes nothing; a missing user or an `admin` is refused; otherwise exactly one row is removed |
| AdminUsers.UserTable.List | admin.py:248-258 | fails exactly when the table does not exist; otherwise one `(username, role, is_active)` tuple per row, in table order |
| ErrorExtract.EffectivePeriod | error.py:170-172 | a valid period is kept and any other becomes `60m` |
| ErrorExtract.TimePeriodShape | error.py:170 | digits then one letter (with an optional final newline) is valid exactly when the letter is one of `mhsdw` |
| ErrorExtract.EffectivePeriodValid | error.py:170-172 | the period handed to `docker logs` is always valid, and correcting it twice changes nothing |
| ErrorExtract.LastMentionSpec | error.py:223-235 | the anchor mentions the code and no later line does; without an anchor no line does |
| ErrorExtract.BeforeFromSpec | error.py:227-233 | collecting the lines before the anchor goes on while no stop condition holds and ends at the first that does |
| ErrorExtract.BeforeCount | error.py:227-233 | at most 20 lines before the anchor are kept |
| ErrorExtract.BeforeStep | error.py:229-233 | collection stops after the `c`-th line exactly when `c` reaches 20, or `c` reaches 10 and the line holds `ERROR` or `WARNING` |
| ErrorExtract.SeekAnchor | error.py:223-244 | the first phase finds the last line that mentions the code, with the sliding window of the at most five stripped lines after it |
| ErrorExtract.ScanBack | error.py:223-244 | the reverse scan collects nothing exactly when no line mentions the code; otherwise it collects the anchor, the window and the counted lines before it |
| ErrorExtract.WindowIs | error.py:240-244 | the window holds the at most five stripped lines nearest after the anchor, nearest last |
| ErrorExtract.ScannedIs | error.py:227-239 | the scan holds the anchor, the window, then the lines before the anchor from the nearest on |
| ErrorExtract.ExtractAsWritten | error.py:213-246 | the script's result as written: the scan, reversed |
| ErrorExtract.AnchorMovedToEnd | error.py:237-246 | as written the anchor ends up last, after the lines that follow it in the log, so the result is not the log's order |
| ErrorExtract.AroundAsWrittenRotated | error.py:237-246 | as written, the result is the corrected context with the anchor rotated to the end |
| ErrorExtract.Extract | error.py:213-246 | the corrected extraction puts the anchor back between the lines before and after it |
| ErrorExtract.ExtractedInFileOrder | error.py:213-246 | the corrected context is one contiguous run of stripped log lines around the anchor: at most 20 before it, the anchor, at most 5 after it |
| ErrorExtract.ExtractedLines | error.py:213-246 | line `i` of the corrected context is the stripped log line `a - k + i` |
| ErrorExtract.ExtractedEmpty | error.py:223-246 | both versions return nothing exactly when no line mentions the code |
| ErrorExtract.AroundShape | error.py:227-244 | the run around the anchor is the lines before it, the anchor and the lines after it, in log order |
| ErrorDb.MessageFromEmpty | error.py:111-115 | the message from a line on is empty exactly when no line from there is flagged |
| ErrorDb.MessageFromFirst | error.py:111-115 | the message from a line on is the first flagged line from there, stripped |
| ErrorDb.MessageSpec | error.py:111-115 | the message is the first line holding `error:` or `exception:` (any case), stripped, and empty when there is none |
| ErrorDb.FlaggedNotBlank | error.py:113-114 | a flagged line does not strip to nothing |
| ErrorDb.FindMessage | error.py:111-115 | the loop returns the message |
| ErrorDb.SaveError | error.py:93-136 | nothing is written for an empty code or no lines; otherwise the loaded database (empty when missing or unreadable) is written with the sighting merged in |
| ErrorDb.MergeNew | error.py:119-125 | a new code gets count 1, first and last seen now and the message; no other record changes |
| ErrorDb.MergeExisting | error.py:126-130 | a known code keeps its first sighting, counts one more, is last seen now and gains a message only if it had none; no other record changes |
| ErrorDb.FirstMessage | error.py:129-130 | a non-empty first message is the message of some sighting |
| ErrorDb.ReplayedRecord | error.py:119-130 | after a series of sightings of a known code, the count grows by their number, the first sighting is kept, the last is the latest, and the message is the old one or the first non-empty new one |
| ErrorDb.ReplayedFromNew | error.py:119-130 | starting from a database without the code, the record counts the sightings, spans first to last, and keeps the first non-empty message |
| ErrorDb.ExtractErrorLog | error.py:157-251 | as written: the period is corrected, a failed `docker logs` gives nothing and writes nothing, otherwise the context with the anchor last is returned, and the message saved is taken from that list |
| ErrorDb.SavedWhenFound | error.py:209-249 | the database is written exactly when the code is not empty and some log line mentions it, for the context as written and as corrected alike |
| ErrorDb.ExplanationPrecedence | error.py:138-155 | a built-in explanation wins whatever the local database holds; otherwise one exists exactly when the database has a non-empty message for the code; it is never empty |
| ErrorDb.ExplainedAfterSave | error.py:93-155 | after a sighting whose lines hold a flagged line, a code without a built-in explanation is explained by its old message or by the new message |
| ErrorDb.Truncated | error.py:286 | an example of at most 100 characters is kept; a longer one is its first 100 characters and `...` |
| ErrorDb.ExampleFromSpec | error.py:281 | the example is the first line that mentions the code, or empty when none does |
| ErrorDb.CollectCodes | error.py:273-287 | the loop computes the list of distinct codes in the order first found |
| ErrorDb.CollectedStep | error.py:276-287 | each match adds its stripped code once, at the end, if it is not listed yet |
| ErrorDb.CollectedDistinct | error.py:278 | no code is listed twice |
| ErrorDb.CollectedCovers | error.py:274-287 | a code is listed exactly when some match strips to it |
| ErrorDb.CollectedInfos | error.py:283-287 | each entry carries the count and the example of its own code |
| ErrorDb.InsertDescending | error.py:289 | inserting into a list sorted by descending count keeps it sorted |
| ErrorDb.InsertMultiset | error.py:289 | inserting adds exactly the one entry |
| ErrorDb.SortByCountSpec | error.py:289 | the summary is sorted by descending count and is a permutation of the collected list |
| ErrorDb.SortByCountStable | error.py:289 | entries with equal counts keep the order in which they were found, as Python's stable sort does |
| ErrorDb.FindAllErrorCodes | error.py:253-293 | nothing when the logs cannot be read, otherwise the sorted summary of the collected codes |
| UpdateCheck.AppendedKeepsLines | update_check.py:66-67 | appending adds at most one line and changes no line but the last; when the file ends a line, the text is one new line |
| UpdateCheck.IsUnreadMessagePresent | update_check.py:50-58 | true exactly when the log exists and some line starts with `UNREAD` and contains the text |
| UpdateCheck.NotificationLog.WriteAsWritten | update_check.py:61-67 | as written: the line is appended exactly when the message differs from the last line, stripped, and no line starts with `UNREAD` and names the title |
| UpdateCheck.RewrittenAsWritten | update_check.py:54-65 | as written, the duplicate check never holds back a notice after one of the script's own lines, since those start with a timestamp |
| UpdateCheck.OwnLineIsNotMessage | update_check.py:62-65 | a line the script writes never strips to its own message, so the last-message test cannot match it |
| UpdateCheck.HasUnreadNotice | update_check.py:50-58 | the corrected check: true exactly when some line is an unread notice with the title |
| UpdateCheck.NotificationLog.Write | update_check.py:61-67 | the corrected write: the log afterwards is the log with the notice appended, unless an unread notice with the title is already there |
| UpdateCheck.MarkerInLine | update_check.py:62 | the written line carries its own unread marker with the title |
| UpdateCheck.NotifiedOnce | update_check.py:61-67 | with the corrected check, once a notice is written a later one with the same title changes nothing |
| UpdateCheck.TextTrichotomy | update_check.py:89-96 | exactly one of equal, less and greater holds for Python's string order |
| UpdateCheck.CompareSpec | update_check.py:89-96 | up to date exactly when the versions are equal, "local greater" or "update available" exactly by the text order |
| UpdateCheck.CompareIsTextual | update_check.py:91 | versions compare as text: `0.1.9` counts as greater than `0.1.10` |
| UpdateCheck.AttemptedSpec | update_check.py:80-96 | a notice is attempted exactly on a failed fetch or when the versions differ |
| UpdateCheck.RunUpdateCheck | update_check.py:70-96 | a missing version file or a failed fetch is reported; otherwise the stripped versions are compared; the log changes only by the attempted notice, written with the duplicate check as written |
| PhpVersion.ValidVersionShape | php/default_php_version.py:43-44 | a version is accepted exactly when it is digit, dot, digit (with an optional final newline) |
| PhpVersion.ValidVersionChars | php/default_php_version.py:43-44 | an accepted version is digit, dot, digit, optionally followed by one newline, and nothing else |
| PhpVersion.RunsSkipped | php/default_php_version.py:39 | the whitespace run and the version run the pattern consumes hold only whitespace and only digits or dots |
| PhpVersion.FirstMatchShape | php/default_php_version.py:39 | a match starts after the key and its whitespace, with `php` followed by a version character |
| PhpVersion.SubAtFirst | php/default_php_version.py:39 | the first match's version run is replaced by the new version, and substitution goes on after it |
| PhpVersion.FirstMatchAgree | php/default_php_version.py:39 | the first match depends only on the text up to the version's first character |
| PhpVersion.FirstMatchAfterSub | php/default_php_version.py:39 | after a substitution the first match is at the same place |
| PhpVersion.ReadAfterUpdate | php/default_php_version.py:39-72 | round trip: after setting a valid version in a text that had one, the search reads back that version |
| PhpVersion.SearchNone | php/default_php_version.py:70-71 | the search finds nothing exactly when the pattern matches at no position of the text |
| PhpVersion.FirstMatchEarliest | php/default_php_version.py:70 | the match found starts at a position where the pattern matches, and it matches at no earlier position |
| PhpVersion.SearchGroup | php/default_php_version.py:70-72 | the version found is the longest non-empty run of digits and dots right after the first match's `php` |
| PhpVersion.MissingImportBlocksUpdate | php/default_php_version.py:55 | as written, a well-formed update of an existing file raises and writes nothing, where the intended script writes the version |
| PhpVersion.Run | php/default_php_version.py:48-76 | the script with the existence check working: too few arguments is a usage error, a missing file is reported, a file is written exactly on an update with a valid version for the named user, and a version is shown only when the search finds it |
| PhpVersion.RunAsWritten | php/default_php_version.py:32-57 | as written, the script never succeeds and never writes: it fails with the usage message for fewer than two arguments and raises otherwise |
| PhpVersion.RunExitCode | php/default_php_version.py:48-76 | the script with the existence check working succeeds exactly when the file exists and either a valid version is given with `--update` or the search finds a version |
| PhpVersion.RunWritesOnlyValid | php/default_php_version.py:48-76 | the file is written only on the update path with four arguments and a valid version, with that version substituted; reading then gives it back |
| LoginLog.LastUserIs | user/loginlog.py:66-72 | the user is the last argument after the first that is not `--json`, or the first argument |
| LoginLog.ParseArgs | user/loginlog.py:66-72 | the loop yields that user and whether any later argument is `--json` |
| LoginLog.Field | user/loginlog.py:52-54 | a part has a field exactly when it holds `": "` |
| LoginLog.FieldSpec | user/loginlog.py:52-54 | the field starts after the first `": "`, holds no `": "` and ends at the end of the part or at the next `": "` |
| LoginLog.UnlabelledLineRejected | user/loginlog.py:51-54 | a line without any `": "`, a blank line among them, makes the script raise |
| LoginLog.ParseLogLine | user/loginlog.py:51-55 | round trip: a line written as three labelled parts joined by `" - "` reads back as its record |
| LoginLog.TimeStripped | user/loginlog.py:54 | the newline `readlines` keeps is stripped from the time |
| LoginLog.ProcessLoginLog | user/loginlog.py:47-55 | the loop skips the first line and gives one record per other line, in order, or fails at the first malformed one |
| LoginLog.Respond | user/loginlog.py:41-86 | a missing log is reported; plain mode prints the file; JSON mode raises exactly when some line after the first is malformed, and otherwise lists one record per such line, in order |
| LoginLog.RunAsWritten | user/loginlog.py:31-86 | as written, nothing calls `main`: every run exits 0 and prints nothing |
| LoginLog.MissingMainPrintsNothing | user/loginlog.py:59-86 | as written, asking for a user whose log exists prints nothing, where `main` prints the log, lists its records or reports a malformed line |
| LoginLog.Run | user/loginlog.py:59-86 | `main(args)`, as if it were called: no arguments is a usage error; otherwise the script responds for the last user, in JSON mode when any argument is `--json` |
| LoginLog.RespondExitCode | user/loginlog.py:41-86 | the script succeeds exactly when the log exists and, for JSON, every line after the first parses |
| UserList.ModeOf | user/list.py:38-41 | the arguments are accepted exactly when they are none or just `--json`, and JSON mode exactly for `--json` |
| UserList.NonBlankMembers | user/list.py:52 | the kept lines are exactly the lines that are not blank |
| UserList.NonBlankAppend | user/list.py:52 | filtering keeps the order and works piece by piece |
| UserList.Rows | user/list.py:51-52 | one row per kept line, each with at least one field |
| UserList.JsonUsers | user/list.py:54-57 | the JSON list exists exactly when every row has five fields, and holds fields 0 to 4 of each row in order |
| UserList.TerminalEchoes | user/list.py:59-65 | every kept line is printed exactly as the client printed it; with none the output is `No users.` |
| UserList.Run | user/list.py:37-65 | wrong arguments print the usage; with none the kept lines are echoed or `No users.` is printed; with `--json` it raises exactly when a row has fewer than five fields, and otherwise lists one user per kept line |
| UserList.RunExitCode | user/list.py:37-65 | the script fails exactly for wrong arguments and, in JSON mode, for a kept line with fewer than five fields |
| Text.JoinSplit | user/list.py:52-63 | joining the parts of a split with the separator gives the text back |
| Text.ReplaceIsJoinSplit | config.py:74 | `replace` is splitting on the pattern and joining with the replacement |
| Text.LStripSpec | config.py:121 | `lstrip` removes exactly the leading whitespace |
| Text.RStripSpec | config.py:121 | `rstrip` removes exactly the trailing whitespace |

## Left out

- `admin.py` `main` is left out. Its command dispatch, the service switches (`systemctl enable/disable`) and `detect_service_status` are process control with no state of their own. The operations they dispatch to are modelled.
- `get_public_ip` in `admin.py` is left out. Its `curl`/`wget` calls become a parameter (`publicIp`).
- The password hashes of `admin.py` become parameters: the external `hash` script is not part of this model.
- Generated ids (`MaxId + 1`) stand in for SQLite's rowid choice.
- SQL injection through the interpolated names is not modelled: names are compared as values.
- The exact texts printed and the colours are left out. Outcomes are datatypes, not strings. The `json.dumps` rendering (indentation, escaping) is left out; the JSON lists are modelled as sequences of records.
- Timestamps (`datetime.now()`) become parameters. Their format is not checked.
- ErrorExtract.TimePeriodShape: the digits are `0` to `9` only. Python's `\d` in `^\d+[mhsdw]$` also matches the other Unicode decimal digits, so a period such as `٣m` is accepted by the script.
- ErrorExtract.ValidTimePeriod: accepts ASCII digits only, for the same reason; the Unicode digit table is not modelled.
- ErrorExtract.EffectivePeriod: a period written with non-ASCII decimal digits is replaced by `60m` here, where the script hands it to `docker logs` as it is.
- PanelConfig.GetAfterUpdate: a key or value holding a newline is excluded. Files are modelled as the list of lines, and a written line is not split again, while the script writes `key=a\nb\n` as two lines and `get` then reads back only `a`.
- AdminConfig.GetAfterNotificationUpdate: a name or value holding a newline is excluded, for the same reason; the script then reads a different value, or raises.
- `config.py` runs `rm -rf /usr/local/panel/core/users/*/data.json` with no shell, so the `*` is not expanded and no cache file is removed. The model records only that the command runs (the reload flag).
- `Text.Lower` lower-cases ASCII letters only. Python's `lower()` also maps other Unicode letters.
- The two `splitlines()` calls of `error.py` are not modelled: the container's log is an input already split into lines (`docker` in `ErrorDb.ExtractErrorLog`, `Scan.lines` in `ErrorDb.FindAllErrorCodes`). `Text.Split` on `"\n"` models only the `split('\n')` of `user/list.py`.
- The four regular expressions of `find_all_error_codes` are not modelled as regular expressions. Their matches, in order, and the count of each code are an input (`Scan`).
- `json.load` of a database whose entries lack fields, and write failures of `errors.json`, are not modelled.
- `ErrorDb.SaveError`: a corrupt file is modelled as an empty start. A write error is not modelled.
- Newline translation on reading and writing files is not modelled.
- A notification whose title or message holds a newline is not modelled specially: it is appended as text.
- `LoginLog.Respond`: the plain output is modelled as the file's text plus the newline `print` adds. Writing to the terminal is left out.
- `user/list.py` reads the database name from `db.cnf` before running `mysql`. That read is left out; the client's output is the input.
- The login log path `/home/<user>/.lastlogin` is modelled as a function from the user name to the file.
- Concurrency between runs (two scripts editing the same file) is not modelled.

## Findings

| source | as written | input that shows it | evidently intended | confidence | as-written member | corrected member |
|---|---|---|---|---|---|---|
| config.py:95 | `line.split(":")[0]` cuts an upstream line at its first `:`, which is the scheme's | `proxy_pass http://h:1;` with port `2` becomes `proxy_pass http:2;` | keep scheme and host, replace only the port | high (not executed) | PanelConfig.PortCutLosesHost | PanelConfig.PortKeepsAuthority |
| update_check.py:54,65 | the duplicate check compares the message with the whole last line and looks for lines starting with `UNREAD`, but the script's own lines start with a timestamp | a log whose last line is the same notice written a minute earlier | skip a notice whose title is already unread in the log; the corrected check keeps only this half, since the two titles' messages never coincide (the failure message is fixed and the update message embeds both versions), so an equal last message means a notice with the same title | high (not executed) | UpdateCheck.RewrittenAsWritten | UpdateCheck.NotifiedOnce |
| error.py:237-246 | the anchor is appended before the lines after it, then the list is reversed, so the anchor comes last | logs `[x, CODE, y]` give `[x, y, CODE]`; the message saved is the first flagged line of that list, so `[x, CODE error: a, error: b]` saves `error: b` | the context in log order: `[x, CODE, y]` | high (not executed) | ErrorExtract.AnchorMovedToEnd | ErrorExtract.ExtractedInFileOrder |
| config.py:39 | `main(args)` is defined but never called, and nothing else runs at the top level | `update k v` on a file holding `k=x` leaves it unchanged | run `main(sys.argv[1:])`, as `user/list.py` does | high (not executed) | PanelConfig.MissingMainIgnoresUpdate | PanelConfig.RunCommand |
| user/loginlog.py:60 | `main(args)` is defined but never called | `alice` with an existing login log prints nothing | run `main(sys.argv[1:])` | high (not executed) | LoginLog.MissingMainPrintsNothing | LoginLog.Run |
| php/default_php_version.py:55 | `os.path.exists` is called but `os` is never imported | `p alice --update 8.1` with an existing configuration | check the file, then update or show the version | high (not executed) | PhpVersion.MissingImportBlocksUpdate | PhpVersion.RunWritesOnlyValid |
