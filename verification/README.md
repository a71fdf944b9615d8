# pi3ctrl in Dafny

A model of the core of pi3ctrl. pi3ctrl is a Raspberry Pi controller: each
physical button plays the sound file stored for it and blinks its LED while
doing so, and a small Flask application manages the sound files and shows the
state of the system's services.

The model has two parts.

- **The button-trigger state machine of `core.py`** (module `Trigger`). It is
  written as a discrete event system: `Press(b)` is a rising edge,
  `DbWrite(o)` is the database write of the trigger row, `CommandDone(o)` is
  the end of the shell command, and `Rearm(b)` is one debounce thread waking
  up. A state records:
  - which buttons have a `when_pressed` handler;
  - the level of every LED (`On`, `Off`, `Blinking`);
  - the firing in progress (the command lock is held exactly while there is one);
  - the outstanding debounce threads;
  - an append-only log of trigger rows and executed commands.
- **The pure helpers of the web and utility layers:**
  - `App`: sound-file naming, the upload extension filter, the
    internal-referer test, and the guard order of three views.
  - `SysUtils`: the `utils.py` subprocess wrapper `system_call`, the
    `systemd status` extraction, `systemd_status_all`, and the address choice
    of `get_ipv4_address`.
  - `AppUtils`: the older `app/utils.py` wrapper `_popen`, its
    `systemd_status`, and its list of watched units.
  - `Env`: `expand_env` and the argument normalisation of `parse_config`.
  - `Dashboard`: the status badges, the progress counter and the chart series
    of `pi3ctrl.js`.
  - `Request`: the query-string builder of `get-response.js`.

`Text` holds the Python and JavaScript string operations the helpers use:
- `split` and `join`;
- `find` and `in`;
- ASCII `lower`/`upper`;
- `str(int)` and `int(str)`;
- `rsplit('.', 1)`;
- `os.path.join` and `os.path.expandvars`.

`Base` holds `Option`, `Result` and the Python exceptions that can escape.

Subprocess outcomes are data. `Spawn` is either a spawn `OSError` or a
`Communication`. A `Communication` is one of three things:
- a finished process with its return code and its two streams (`None` when a
  stream is not valid UTF-8);
- an `OSError` from `communicate` with its `errno` and `strerror`;
- any other failure.

Where the source raises, the model returns `Raise(exc)`. Examples:
- `utils.py:147` calls `_resp_dict('error', e)` with positional arguments on a
  keyword-only builder, so a spawn `OSError` in dict mode raises `TypeError`.
- `utils.py:172-174` reads `e.errno` of an arbitrary exception. A
  `UnicodeDecodeError` has no `errno`, so an undecodable stream raises
  `AttributeError`.

Three behaviours of the code that are easy to misread:
- A raising database write skips the command and goes straight to the cleanup
  (`core.py:126-139`). It does not continue the firing.
- The sound file's last part is the printed pin object (`GPIO27`), not the bare
  pin number. `Config.pinLabels` carries that text, and
  `Trigger.SoundFileNamesAgree` links it to the web application's `soundFile`
  name.
- The debounce threads are started inside `with _execute_command_lock`, before
  the lock is released. The model's cleanup is one atomic step, so the order
  does not show.

## Model

| member | source | states |
|---|---|---|
| Trigger.Init | src/pi3ctrl/core.py:170-178 | `main` starts idle: every handler attached, every LED on, the lock free, no debounce thread outstanding, nothing logged |
| Trigger.ExecuteCommand | src/pi3ctrl/core.py:85-124 | a press on a disarmed button, or while the lock is held, changes nothing; an accepted press takes the lock, clears every handler, and leaves the pressed LED blinking and every other LED off, before any log entry |
| Trigger.RecordTrigger | src/pi3ctrl/core.py:126-139 | a committed write logs the trigger row `(button, pin)` and then the command; a raising write logs nothing and runs the cleanup; outside a firing's first stage it does nothing |
| Trigger.Finish | src/pi3ctrl/core.py:134-151 | the command returning and the command raising both end in the same cleanup |
| Trigger.Cleanup | src/pi3ctrl/core.py:139-151 | after the `finally` block the lock is free, every LED is on, every handler is cleared, one debounce thread per button is outstanding, and the log is unchanged |
| Trigger.DebounceWake | src/pi3ctrl/core.py:78-81 | a debounce thread re-arms only its own button and touches neither LEDs, lock nor log |
| Trigger.Step | src/pi3ctrl/core.py:85-151 | every event keeps the invariant (LED picture matches the lock, log made of row-then-command pairs); the log grows only when a write commits, and then by exactly that button's row and command |
| Trigger.Run | src/pi3ctrl/core.py:85-151 | any sequence of events keeps the invariant and only appends to the log |
| Trigger.AtMostOneBlinking | src/pi3ctrl/core.py:114-124 | in every reachable state at most one LED blinks, and it is the LED of the button holding the lock |
| Trigger.PressesDuringFiringDropped | src/pi3ctrl/core.py:88-90 | presses and re-arms while the lock is held change neither the firing, the LEDs nor the log |
| Trigger.OneRowPerPress | src/pi3ctrl/core.py:126-136 | along any run, the trigger rows added equal the committed writes, and there are never more of those than accepted presses |
| Trigger.RearmsApply | src/pi3ctrl/core.py:147-151 | debounce threads waking in any order each re-arm their own button and nothing else |
| Trigger.FiringCycle | src/pi3ctrl/core.py:88-151 | from idle, a press, a committed write and the command's end (success or failure), followed by all re-arms, return to the same idle state with exactly one row and one command logged |
| Trigger.FailedWriteCycle | src/pi3ctrl/core.py:126-151 | a firing whose database write raises still cleans up, and after the re-arms the state is the idle state it started from |
| Trigger.RearmAllRestores | src/pi3ctrl/core.py:78-81 | after a cleanup, one wake-up per button restores exactly the idle state apart from the log |
| Trigger.PlaysUploadedFile | src/pi3ctrl/core.py:105-111 | with the upload path expanded as the played path is, the command plays exactly the file the upload view saved for that button, for every folder and environment |
| Trigger.PlaysUploadedFileWithoutVariables | src/pi3ctrl/app/__init__.py:212 | as written, the saved path is the played one when the folder holds no `$` |
| Trigger.DefaultFolderMismatch | src/pi3ctrl/config.py:37 | with the default folder `${HOME}/Pi3Ctrl` and an absolute `HOME`, the core plays `$HOME/Pi3Ctrl/soundFile...` while the upload view saved to `${HOME}/Pi3Ctrl/soundFile...`, and the two paths differ |
| Trigger.AsWrittenCycleLogsNothing | src/pi3ctrl/core.py:130 | the `button` keyword names no column of the `Trigger` table, so every firing's database code raises: no row and no command are logged, and after the re-arms the state is the one before the press |
| Trigger.CorrectedCycleLogsPair | src/pi3ctrl/database.py:20-26 | with a `button` column added, a committed write is followed by the command and one firing logs exactly its row and its command |
| App.SoundFileRoundTrip | src/pi3ctrl/app/__init__.py:29-32 | a sound-file name reads back as the button and pin it was built from |
| App.SoundFileInjective | src/pi3ctrl/app/__init__.py:29-32 | two different (button, pin) pairs never share a sound-file name |
| App.AllowedFile | src/pi3ctrl/app/__init__.py:195-198 | accepted exactly when the name has a `.` and the lower-cased text after its last `.` is an allowed extension |
| App.FinalExtensionDecides | src/pi3ctrl/app/__init__.py:198 | only the final extension decides, whatever precedes the last `.` |
| App.FinalExtensionExamples | src/pi3ctrl/app/__init__.py:198 | `x.tar.WAV` is accepted; `x.wav.exe` and `wav` are refused |
| App.IsInternalReferer | src/pi3ctrl/app/__init__.py:76-79 | no `Referer` header is never internal; otherwise internal exactly when some configured referer occurs in the header |
| App.ReferersAccepted | src/pi3ctrl/app/__init__.py:69-79 | a header beginning with any of the three prefixes (`http://127.0.0.1`, `http://` and the lower-cased host name, `http://` and the address) is internal, whatever follows |
| App.AppendWpaSupplicant | src/pi3ctrl/app/__init__.py:146-160 | referer (403), then platform (418), then secret (403), then non-empty ssid and passphrase (400); the Wi-Fi call is made exactly when all four pass, with those two values |
| App.PyIndexFromEnd | src/pi3ctrl/app/__init__.py:205 | Python list indexing: index `i - len` names the same element as `i`, and `len` and `-len-1` are the first indices to fail |
| App.UploadSoundfile | src/pi3ctrl/app/__init__.py:200-214 | missing button (423), non-integer button or pin index out of range (exceptions), missing or empty file (422); an allowed file is saved as `soundFile(button, pin)` in the folder, and a refused extension returns nothing |
| App.DownloadSoundfile | src/pi3ctrl/app/__init__.py:216-228 | missing button or pin (422), non-integer ones (exceptions); the file is served exactly when it exists, and 403 otherwise |
| App.UploadThenDownload | src/pi3ctrl/app/__init__.py:200-228 | a file uploaded for a button is found by a download with that button and its pin |
| SysUtils.RespDictExtremes | src/pi3ctrl/utils.py:131-139 | no keywords give the defaults; all four keywords give exactly what was passed |
| SysUtils.DictCall | src/pi3ctrl/utils.py:143-176 | dict mode. A spawn error raises `TypeError`. A completed call gives `success` iff return code 0, with both streams' newlines turned into `<br>`. An `OSError` from `communicate` gives its `errno` and `strerror`. Any other failure raises `AttributeError` |
| SysUtils.FlagCall | src/pi3ctrl/utils.py:143-176 | flag mode: true exactly when the process ran and exited with 0 |
| SysUtils.FlagAgreesWithDict | src/pi3ctrl/utils.py:154-171 | where dict mode returns, its `success` is the flag mode's result |
| SysUtils.CutSince | src/pi3ctrl/utils.py:94-95 | the status is the text before its first ` since `, and the whole text when there is none; it never holds ` since ` |
| SysUtils.StatusOf | src/pi3ctrl/utils.py:92-97 | no status when stdout is empty or lacks `Active: `. Otherwise a third line without the marker raises `IndexError`, and a third line with it gives the text between its first and second marker, cut before the first ` since ` |
| SysUtils.StatusMissingLine | src/pi3ctrl/utils.py:93 | a one-line output that has the marker raises `IndexError` |
| SysUtils.SystemdStatus | src/pi3ctrl/utils.py:88-98 | the report carries the service name, every key of the call result and the extracted status; it fails exactly when the call or the extraction raises |
| SysUtils.Dedup | src/pi3ctrl/utils.py:104-107 | the keys a dict gets from a name list: each name once, nothing else |
| SysUtils.Put | src/pi3ctrl/utils.py:107 | `d[k] = v` on an insertion-ordered dict: an existing key keeps its place, a new key goes last, other entries are untouched |
| SysUtils.Collect | src/pi3ctrl/utils.py:104-108 | a built table's keys are the names, each once, in order of first appearance |
| SysUtils.CollectOk | src/pi3ctrl/utils.py:106-107 | the table is built exactly when every name can be probed |
| SysUtils.CollectRaise | src/pi3ctrl/utils.py:106-107 | a failure is the exception of one of the names |
| SysUtils.CollectTable | src/pi3ctrl/utils.py:106-107 | every entry holds the report of its own name |
| SysUtils.SystemdStatusAll | src/pi3ctrl/utils.py:101-108 | one entry per unit name, keyed by that name |
| SysUtils.SystemdStatusAllOk | src/pi3ctrl/utils.py:101-108 | the table is built exactly when every unit's status can be read, and each entry is that unit's own report |
| SysUtils.CoreServicesFirst | src/pi3ctrl/utils.py:15-21 | the seven core units come first, each once and in listed order, before any configured unit |
| SysUtils.NonLoopback | src/pi3ctrl/utils.py:41 | the kept addresses are exactly the addresses of the list not starting with `127.`; none are kept exactly when all are loop-back |
| SysUtils.NonLoopbackConcat | src/pi3ctrl/utils.py:41 | the filter keeps the list order: filtering a concatenation concatenates the filtered parts, and one address is kept exactly when it is not loop-back |
| SysUtils.NonLoopbackFirst | src/pi3ctrl/utils.py:41-43 | the first kept address is the first non-loop-back address of the list |
| SysUtils.GetIpv4Address | src/pi3ctrl/utils.py:37-50 | the first non-loop-back host address when there is one; otherwise the probed address if non-empty; `127.0.0.1` when the lookup fails or nothing else is found |
| AppUtils.Popen | src/pi3ctrl/app/utils.py:69-106 | never raises. A spawn error gives the defaults. A completed, decodable call gives `success` iff return code 0, with `<br>` line breaks. An `OSError` gives `errno`/`strerror`. Any other failure gives the defaults |
| AppUtils.PopenAgreesWithSystemCall | src/pi3ctrl/app/utils.py:84-104 | where `system_call` returns a dict, `_popen` returns the same one; where it raises, `_popen` returns the defaults |
| AppUtils.SystemdStatus | src/pi3ctrl/app/utils.py:33-43 | the same extraction over `_popen`: only the extraction can raise (`IndexError`); a status is reported only for a call that ran and decoded, and it is the one `SysUtils.StatusOf` extracts from that output |
| AppUtils.SystemdStatusAgrees | src/pi3ctrl/app/utils.py:33-43 | both modules report the same for a unit wherever `system_call` returns |
| AppUtils.CoreServicesFused | src/pi3ctrl/app/utils.py:12-17 | as written, the list has five entries; its third is `pi3ctrl-wifi.servicenginx.service`, not a unit name; neither `nginx.service` nor `pi3ctrl-wifi.service` is listed |
| AppUtils.CoreServicesRestored | src/pi3ctrl/app/utils.py:12-17 | with the comma restored the list holds six proper service unit names |
| AppUtils.CoreServicesSplitsFused | src/pi3ctrl/app/utils.py:14-15 | the restored list is the written one with the fused entry split in two |
| Env.NonLettersIgnored | src/pi3ctrl/wifi/hostapd.py:25 | inserting digits or punctuation anywhere in a name does not change whether it is read as the host name |
| Env.CaseIgnored | src/pi3ctrl/util/parse_config.py:14 | lower-casing a name does not change whether it is read as the host name |
| Env.DefaultExpandsToHost | src/pi3ctrl/wifi/hostapd.py:25-26 | the configured default `${HOSTNAME}` expands to the host name |
| Env.DigitsIgnored | src/pi3ctrl/util/parse_config.py:14-15 | `HOSTNAME1` expands to the host name |
| Env.UnderscoreIgnored | src/pi3ctrl/util/parse_config.py:14-15 | `host_name` expands to the host name |
| Env.BracedNamesAreLiteral | src/pi3ctrl/util/parse_config.py:17 | `${HOME}` is not read as the host name and is looked up literally |
| Env.FilenamesNormalForm | src/pi3ctrl/util/parse_config.py:33-34 | normalising again changes nothing, and a name reads like the one-element list of it |
| Dashboard.BadgeFor | src/pi3ctrl/app/static/js/pi3ctrl.js:444-488 | return code 4 gives `bg-secondary`, 0 gives `bg-success`; otherwise `bg-warning` when the status mentions `activating` or `inactive`, `bg-danger` for a status that mentions neither, and a `null` status throws |
| Dashboard.SetBadge | src/pi3ctrl/app/static/js/pi3ctrl.js:449-452 | the chosen badge is present, classes other than badges are untouched, and an element with at most one badge before has exactly the chosen one after |
| Dashboard.SetBadgeIdempotent | src/pi3ctrl/app/static/js/pi3ctrl.js:465-470 | setting the same badge twice is the same as once |
| Dashboard.UpdateWidget | src/pi3ctrl/app/static/js/pi3ctrl.js:442-488 | a `null` return code leaves the element untouched. Code 4 shows `not found` and stderr. Any other code shows status and stdout and sets the badge, or throws with the classes unchanged |
| Dashboard.OneBadgeAfterUpdate | src/pi3ctrl/app/static/js/pi3ctrl.js:449-486 | after an update that does not throw, an element that had at most one badge has exactly the chosen one |
| Dashboard.ReplaceFirstDot | src/pi3ctrl/app/static/js/pi3ctrl.js:438 | `replace('.', '-')` keeps the length; the one `.` with no `.` before it becomes `-`, and every other character, later dots included, is kept |
| Dashboard.ElementIdKeepsLaterDots | src/pi3ctrl/app/static/js/pi3ctrl.js:438 | the id string is `#` and the name with its first `.` turned into `-` and every other character, later dots included, kept |
| Dashboard.ElementIdAtFirstDot | src/pi3ctrl/app/static/js/pi3ctrl.js:438 | a name made of a dot-free stem, a `.` and any rest has id `#`, the stem, `-` and the rest unchanged, later dots included |
| Dashboard.StatusUpdate | src/pi3ctrl/app/static/js/pi3ctrl.js:436-491 | the loop over the reply never adds or removes elements, and elements of services not in the reply are untouched |
| Dashboard.StatusUpdateApplies | src/pi3ctrl/app/static/js/pi3ctrl.js:436-491 | when every service of the reply has its elements, no two share an element id and no report throws, each service's element ends as `UpdateWidget` makes it from its state before the loop |
| Dashboard.StatusUpdateStopsAtThrow | src/pi3ctrl/app/static/js/pi3ctrl.js:460-472 | a report that throws ends the loop: that service's texts are already replaced, its badge is not, and no later entry is applied |
| Dashboard.Tick | src/pi3ctrl/app/static/js/pi3ctrl.js:407-422 | the width stays in 0..100, and a status update fires exactly on ticks where the width was 100 |
| Dashboard.TicksClosedForm | src/pi3ctrl/app/static/js/pi3ctrl.js:401-422 | after `n` ticks the width is `n mod 101` and `n div 101` updates have fired |
| Dashboard.CountForListed | src/pi3ctrl/app/static/js/pi3ctrl.js:291-293 | with distinct keys, a listed slot holds its count |
| Dashboard.CountForUnlisted | src/pi3ctrl/app/static/js/pi3ctrl.js:289-293 | a slot no entry names stays 0 |
| Dashboard.BucketSeries | src/pi3ctrl/app/static/js/pi3ctrl.js:289-293 | the series has one slot per bucket, and each slot holds what the last entry for it assigned, or 0 |
| Dashboard.HourSeries | src/pi3ctrl/app/static/js/pi3ctrl.js:288-299 | 24 slots; slot `h` holds the count for hour `h`, and unmentioned hours are 0 |
| Dashboard.WeekdaySeries | src/pi3ctrl/app/static/js/pi3ctrl.js:328-339 | 7 slots; slot `d` holds the count for weekday `d`, and unmentioned days are 0 |
| Dashboard.Insert | src/pi3ctrl/app/static/js/pi3ctrl.js:252 | inserting into a time-sorted series keeps it sorted and adds exactly that point |
| Dashboard.SortByTime | src/pi3ctrl/app/static/js/pi3ctrl.js:244-254 | each date series is in ascending time order and is a permutation of its points |
| Request.Entries | src/pi3ctrl/app/static/js/get-response.js:13 | an object's entries in order; a string's entries are its index/character pairs |
| Request.QueryStringSplits | src/pi3ctrl/app/static/js/get-response.js:13 | the query string splits at `&` back into the rendered `key=value` entries, one per entry, when no entry contains `&` |
| Request.OpenParsesBack | src/pi3ctrl/app/static/js/get-response.js:13-23 | the request target splits at `?` into the URL alone for falsy parameters (`''` among them), and otherwise into the URL and a query string that splits at `&` into the rendered entries, when no URL, key or value holds `?` or `&` |
| Request.OpenExamples | src/pi3ctrl/app/static/js/get-response.js:19-23 | `{service: '*'}` gives `?service=*`, `{}` gives a bare `?`, and no parameters give the bare URL; the method is the given one, and `GET` for a missing or empty one |
| Text.Split | src/pi3ctrl/utils.py:93 | Python `split`: the pieces join back to the text, none contains the separator, and there is one piece exactly when the separator does not occur |
| Text.NewlinesToBreaks | src/pi3ctrl/utils.py:167-168 | `"<br>".join(s.split("\n"))` replaces every line break by `<br>` and changes nothing else |
| Text.SplitJoin | src/pi3ctrl/app/static/js/get-response.js:13 | splitting at a one-character separator undoes joining pieces that do not contain it |
| Text.ParseIntToString | src/pi3ctrl/app/__init__.py:204 | `int(str(i)) == i` |
| Text.IntToStringInjective | src/pi3ctrl/app/__init__.py:32 | different integers render to different decimal strings |
| Text.LastIndexOfChar | src/pi3ctrl/app/__init__.py:198 | the split point of `rsplit('.', 1)`: the position of the last `.`, or none when there is no `.` |
| Text.JoinedFileName | src/pi3ctrl/app/__init__.py:212 | `os.path.join(a, f)` for a file name `f` without `/`: the result starts with `a` and ends with `f`, its last `/` is the one just before `f`, and it is longer than `f` exactly when `a` is not empty |
| Text.ExpandVarsPlain | src/pi3ctrl/core.py:107 | `os.path.expandvars` leaves a text without `$` unchanged |
| Text.ExpandBraced | src/pi3ctrl/core.py:107 | `os.path.expandvars` replaces `${NAME}` of a set variable by its value and goes on after the `}` |

## Left out

- Threads and timing: the blink loop and its sleeps, the 0.3 s debounce sleep, `Thread.join`, and the race between `locked()` and `with`. Event order stands in for them.
- gpiozero `Button`/`LED` objects and the printed form of a pin: `Config.pinLabels` is a parameter.
- The `NameError` that the `finally` block raises when `core.py:98-115` raise (the command construction, `os.path.expandvars` or `logger.info`) before line 117 binds `blink_thread`: the LEDs are then not reset, no debounce thread starts and the buttons stay disabled. The model starts a firing only once line 117 has run.
- SIGINT handling, `signal.pause`, logging, and `print`: they have no effect on the modelled state.
- `os.path.expandvars` is modelled for the POSIX form `$name` and `${name}` with ASCII word characters; `~` and the Windows forms are not used by the core.
- Python's `str.lower`/`str.upper` are modelled for ASCII only; other Unicode case mappings are not modelled.
- Env.NonLettersIgnored: holds for the ASCII case mapping of the model; Python's `upper()` maps some non-ASCII letters into `A`-`Z` (`ſ` to `S`, `ß` to `SS`), so a name holding them can read as the host name in Python and not in the model.
- Env.CaseIgnored: stated for the ASCII case mapping; the same non-ASCII letters are outside it.
- Request.Entries: a string's entries are indexed by character; JavaScript indexes by UTF-16 code unit, so the two differ on characters outside the Basic Multilingual Plane.
- The database write: its outcome is the free `commit` parameter of `Trigger.RowWrite`, apart from the `TypeError` of an unknown keyword; SQLAlchemy itself is not modelled.
- Flask, CORS, SQLAlchemy, `create_app`, secret hashing, `is_raspberry_pi`, and the `get_triggers`/metrics views: the guard chains take their results (internal, is-Pi, file exists) as parameters.
- `wifi_ssid_passphrase`, `wifi_autohotspot` and the other views: only the guard order of the three named views is modelled.
- `Popen` itself: its outcome is the `Spawn` parameter.
- `app/utils.py`'s `get_ipv4_address` and `systemd_status_all`: they are the `utils.py` ones without the `OSError` handler, over `_popen`.
- ConfigParser reading, hostapd template writing, and `util/system_call.py`: file I/O.
- The `dataMetrics` date parsing (`new Date(date).getTime()`): the model takes timestamps as given integers.
- The DOM: `querySelector` is a lookup in a map from element ids to widgets, and a `null` `innerHTML` value renders as the empty string.
- Dashboard.StatusUpdateApplies: element ids are literal map keys. In the browser `querySelector` reads `id + '-status'` as a CSS selector before the `null` return-code test (`pi3ctrl.js:439-442`). A unit name holding `@` or `:` (`getty@tty1.service`) makes it throw `SyntaxError` and ends the loop, and a second `.` is read as a class selector. Neither is modelled, so the lemma also covers ids the browser cannot select.
- App.UploadSoundfile: the `OSError` that `file.save` raises when the folder does not exist (a 500 reply) is not modelled. Nothing in the application creates `SOUNDFILE_FOLDER`, so an allowed file is always taken as saved.
- JavaScript's general value-to-string conversion: query-string values are strings already.
- Dashboard.BucketSeries: requires every key to be inside the series, as the server sends only hours 0-23 and weekdays 0-6; JavaScript's growth of an array on an out-of-range index is not modelled.
- Dashboard.HourSeries: also requires the hours to be distinct, as they come from one JSON object.
- Dashboard.WeekdaySeries: also requires the weekdays to be distinct, as they come from one JSON object.

## Findings

| source | as written | input that shows it | evidently intended | confidence | as-written member | corrected member |
|---|---|---|---|---|---|---|
| src/pi3ctrl/app/utils.py:12-17 | no comma after `'pi3ctrl-wifi.service'`, so Python joins it with `'nginx.service'` and the list has five entries | the list literal itself: its third entry is `pi3ctrl-wifi.servicenginx.service` | six unit names, as in `utils.py:15-20` | high, not executed | AppUtils.CoreServicesFused | AppUtils.CoreServicesRestored |
| src/pi3ctrl/app/__init__.py:212 | the upload view saves to `os.path.join(SOUNDFILE_FOLDER, soundFile(...))` without `os.path.expandvars`, while `core.py:107-110` plays the expanded path | the default folder `${HOME}/Pi3Ctrl` (`config.py:37`) with `HOME=/home/pi`: the file is saved under a relative `${HOME}/Pi3Ctrl`, or the save raises when that directory is missing; either way the played file, `/home/pi/Pi3Ctrl/soundFile.0.GPIO27`, is not the uploaded one | both sides expand the folder, so the played file is the uploaded one | medium, not executed | Trigger.DefaultFolderMismatch | Trigger.PlaysUploadedFile |
| src/pi3ctrl/core.py:130 | `Trigger(button=button.index, pin=button.pin.number)`, but the `Trigger` table (`database.py:24-26`) has only `id`, `pin` and `created` | any accepted press: SQLAlchemy's constructor raises `TypeError` on the `button` keyword, so no row is written and the command never runs | a `button` column in the table, so a firing logs its row and runs its command | medium, not executed | Trigger.AsWrittenCycleLogsNothing | Trigger.CorrectedCycleLogsPair |
