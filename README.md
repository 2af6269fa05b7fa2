# vrclogunrotate, modelled in Dafny

VRCLogUnrotate is a Windows tray program. VRChat writes one rotated log file
per session, named `output_log_HH-MM-SS.txt`, into `LocalLow/VRChat/VRChat`,
and deletes old ones. Once a minute the program keeps each of those files by
hard-linking it into `LocalLow/KOBA789/VRCLogUnrotate/Logs/YYYY-MM/DD/`. The
date comes from the first `yyyy.MM.dd hh:mm:ss ` line found in the file's
first thirty bytes. A failed step is shown as a tray balloon. The worker
thread is guarded by a notifier that shows a "stopped" balloon if the thread
dies.

The model covers that core, one Dafny module per part of the program:

- `Types`: option, result, I/O error kinds, and an `Outcome` that separates an
  I/O error returned to the caller from a panic that unwinds the thread.
- `FileSystem`: the store as a map from paths (sequences of components) to
  directories and files (an inode and the bytes). A failure oracle, a map
  from path to error kind, stands for what the operating system may refuse.
  It has `create_dir_all` and `hard_link` as pure effects and as methods of a
  `Disk` class that owns the map.
- `Scanner`: `list_logfile_paths`, the filename filter and the collection of
  the directory listing.
- `Header`, `Decimal`, `Calendar`: the thirty-byte header, the leftmost match
  of the date pattern, its captured groups, decimal parsing and zero-padded
  formatting, and the dates `NaiveDate::from_ymd` accepts.
- `Logfile`: `VRCLogfile::new`.
- `Collection`: `with_locallow_path`, `partition_folder_path` and
  `create_link`. The last is both a pure effect and a method on the `Disk`.
- `Engine`: `Unrotate::new` and `Unrotate::step`. The step is a pure effect
  and a method whose loop is proved against it.
- `Worker`: `CrashNotifier`, the tray notices, and the worker thread of
  `SystemTray::init`. These are classes, plus a method whose loop runs over a
  finite sequence of ticks and is proved against a pure run function.
- `Scenario`: one concrete run from end to end.
- `UnicodeHeader`: the header pattern as the regex engine really reads it,
  with Unicode digits (see Findings).

On the exit taken when the tray no longer receives errors, the thread
disables its `CrashNotifier` before it ends (`src/main.rs:105`), so no crash
notice is sent on that path. `Worker.Work` states this: after a
`ConsumerGone` exit the notifier holds no sender, and the crash notice count
is unchanged.

The model departs from the code in how it reads `\d`. In both patterns (the
filename filter and the header), the code reads `\d` as any Unicode decimal
digit, and in the header that reading can panic (see Findings).
`UnicodeHeader.ClassifyAsWritten` models the header as the code reads it.
`Logfile.Classify` reads `\d` as an ASCII digit, which is the evidently
intended behaviour, and the engine and the worker are built on it. The
filename filter also reads ASCII digits. Both departures are listed under
"Left out".

## Model

| member | source | states |
|---|---|---|
| Scanner.ListLogfilePaths | src/main.rs:216-239 | An unreadable directory fails with its error. Otherwise the result is Ok exactly when no entry and no entry's file type fails to read. On Ok, a path is in the result exactly when some entry is a regular file with a Unicode name that passes the filter. On Err, the error is that of the first failing entry. |
| Scanner.LogfileNameAccepted | src/main.rs:218 | Every name `output_log_a-b-c.txt` whose groups are two digits each passes the filter. |
| Scanner.AcceptedNameIsLogfileName | src/main.rs:218 | Every name that passes the filter is exactly `output_log_a-b-c.txt` for three two-digit groups: the pattern is anchored at both ends. |
| Scanner.CollectSucceedsIff | src/main.rs:220-238 | Collecting the entries succeeds if and only if no entry fails. |
| Scanner.CollectFirstError | src/main.rs:220-238 | A failed collection carries the error of the first failing entry, and every entry before it is fine. |
| Scanner.CollectMembers | src/main.rs:222-238 | A successful collection holds exactly the watched directory joined with the names of the regular files that pass the filter. Directories, links and non-Unicode names are dropped. |
| Header.FindMatch | src/main.rs:251 | The match exists if and only if some position matches. It is the leftmost matching position. In a thirty-byte header it starts at offset 10 at the latest. |
| Header.CapturedValues | src/main.rs:261-278 | The captured year, month and day groups parse to the decimal values of the 4, 2 and 2 digit bytes at the match. |
| Header.HeaderLineRoundTrip | src/main.rs:251 | A header line written for a date and a time is matched at offset 0 and its groups parse back to that year, month and day. |
| Calendar.DaysInMonth | src/main.rs:279 | Every month has 28 to 31 days, and 29 exactly for February of a leap year. |
| Decimal.PadRoundTrip | src/main.rs:300-301 | `{:0w}` formatting gives at least `w` decimal digits (and at least one), which parse back to the number. |
| Decimal.PadWidth | src/main.rs:300-301 | A number below `10^w` is formatted in exactly `w` digits. |
| Logfile.ShortFileFails | src/main.rs:259-260 | A file shorter than thirty bytes is an `UnexpectedEof` error, not "no record". |
| Logfile.ClassifyOutcomes | src/main.rs:249-281 | The classifier returns an I/O error exactly when the header cannot be opened or read. It returns "no record" exactly when the header has no matching line. A record it returns carries the path it was given. |
| Logfile.RecordDate | src/main.rs:261-280 | A returned record is dated by the leftmost matching line of the header, which starts at offset 10 at the latest. Its year, month and day are the decimal values of that line's digits and name a real date. |
| Logfile.NeverDigitsPanic | src/main.rs:266-278 | With the pattern read as ASCII digits, the `expect("digits")` panic can never happen. The only panic left is `from_ymd` on a date that does not exist. |
| Logfile.ClassifyGameHeader | src/main.rs:249-281 | A file whose first line the game wrote for a real date is classified as a record of that date, whatever follows. |
| Logfile.ClassifyReadsOnlyItsEntry | src/main.rs:253-260 | Classification depends on the file's own entry and nothing else in the store. |
| Collection.PartitionRoundTrip | src/main.rs:298-302 | The partition directory is `root/YYYY-MM/DD`, two components of seven and two characters, from which the date reads back. |
| Collection.PartitionInjective | src/main.rs:298-302 | Different dates go to different partition directories. |
| Collection.PartitionExample | src/main.rs:298-302 | 2024-03-07 goes to `root/2024-03/07`. |
| Collection.CreateLinkAdditive | src/main.rs:304-315 | `create_link` removes and overwrites nothing. It adds only directories along the partition path and the one link, which is the source file's own node. |
| Collection.CreateLinkEstablishes | src/main.rs:304-315 | After success, every component of the partition path exists as a directory and the link exists. A link the call created is the source file. |
| Collection.CreateLinkNoopWhenLinked | src/main.rs:306-313 | When the partition directories and the destination already exist, `create_link` succeeds and changes nothing. |
| Collection.CreateLinkIdempotent | src/main.rs:304-315 | Running `create_link` again after a success succeeds and changes nothing. |
| Collection.CreateLinkErrors | src/main.rs:308-314 | An `AlreadyExists` from `hard_link` is turned into success with nothing changed. Any other link error is returned as it is. An `AlreadyExists` that does reach the caller comes from `create_dir_all`. |
| Collection.CreateLink | src/main.rs:304-315 | The method on the disk returns the outcome, and leaves the store, that the `create_link` effect gives. |
| FileSystem.HardLinkEffect | src/main.rs:308 | `hard_link` succeeds exactly when it adds the destination, which is then the source file's node. Nothing else changes. It fails with `AlreadyExists` exactly when the source is a file and the destination already exists. |
| FileSystem.CreateDirAllAddsPrefixes | src/main.rs:306 | `create_dir_all` only adds directories, and only along the requested path. |
| FileSystem.CreateDirAllMakesPrefixes | src/main.rs:306 | After a successful `create_dir_all`, every prefix of the path is a directory. |
| FileSystem.CreateDirAllExisting | src/main.rs:306 | `create_dir_all` of a path that already exists as directories succeeds and changes nothing. |
| FileSystem.Disk.CreateDirAll | src/main.rs:306 | The method's loop leaves the result and the store that the `create_dir_all` effect gives. |
| FileSystem.Disk.HardLink | src/main.rs:308 | The method leaves the result and the store that the `hard_link` effect gives. |
| Engine.NewNeedsLocalLow | src/main.rs:333-339 | An engine is built exactly when the LocalLow folder is known. Both of its directories then lie inside that folder. |
| Engine.TreesDisjoint | src/main.rs:293-296 | No path lies under both the collection (`with_locallow_path`) and the watched directory (`from_locallow_path`, lines 211-214). |
| Engine.Step | src/main.rs:324-331 | The method's loop returns the outcome, and leaves the store, that the step's effect gives. |
| Engine.StepAdditive | src/main.rs:324-331 | A step only adds entries, whatever it returns. |
| Engine.StepIdempotent | src/main.rs:324-331 | A second step over the same listing, after a successful one, succeeds and changes nothing. |
| Engine.ProcessAllAdditive | src/main.rs:325-329 | Handling the candidates never removes or changes an entry. |
| Engine.ProcessAllSplit | src/main.rs:325-329 | Candidates are handled in order: a prefix first, then the rest only if the prefix succeeded. |
| Engine.PartialFailureKeepsEarlierLinks | src/main.rs:325-329 | The step is not transactional: a failure after some candidates keeps what they linked. |
| Engine.ProcessAllFirstFailure | src/main.rs:325-329 | A failing step returns the outcome of the first candidate that did not succeed, and every candidate before it succeeded. |
| Engine.UnrecognisedFilesSkipped | src/main.rs:326 | Candidates without a dated header are skipped without error or change. |
| Engine.ProcessAllRepeat | src/main.rs:325-329 | Handling the candidates again, over any store that contains a successful pass's result, succeeds and changes nothing. |
| Worker.CrashNotifier.Disable | src/main.rs:32-34 | After `disable` the notifier holds no sender. |
| Worker.CrashNotifier.Drop | src/main.rs:36-42 | Dropping fires the held notice exactly once, and fires nothing when the notifier was disabled. |
| Worker.Work | src/main.rs:94-106 | The thread's loop leaves the store, the errors it sent, and the exit that the run function gives. The error notice fires once per error sent. The crash notice fires exactly when the thread panicked. Only the consumer-gone exit disables the notifier. |
| Worker.Init | src/main.rs:87-106 | Without a LocalLow folder, `unwrap` panics and the armed notifier fires the crash notice. Nothing is sent and the store is untouched. Otherwise the worker runs as `Work` states. |
| Worker.AliveConsumerNeverStops | src/main.rs:96-104 | While the tray keeps receiving, the loop is never left: the thread runs on or panics. |
| Worker.RunAdditive | src/main.rs:96-104 | The worker only ever adds entries to the store. |
| Worker.SentAtMostOnePerTick | src/main.rs:97-102 | At most one error is delivered per tick. |
| Worker.SteadyState | src/main.rs:96-104 | Once a step over a listing has succeeded, further ticks over the same listing keep running, deliver nothing and change nothing. |
| Scenario.ScenarioCandidates | src/main.rs:216-239 | Listing a directory that holds `output_log_24-03-07.txt` and `notalog.txt` yields only the log file. |
| Scenario.EndToEnd | src/main.rs:324-331 | For that directory, one step creates `2024-03/07/` under the collection and links the log there, and nothing else. A second step succeeds and changes nothing. |
| UnicodeHeader.FindFromU | src/main.rs:251 | With Unicode digits, the search finds the leftmost matching position at or after its start, or reports that there is none. |
| UnicodeHeader.AfterAscii | src/main.rs:251 | On ASCII bytes the Unicode reading of the pattern's elements ends exactly where the ASCII reading does, at fixed offsets. |
| UnicodeHeader.ClassifyAgreesOnAscii | src/main.rs:249-281 | On a header of ASCII bytes, the classifier as written agrees with the ASCII model. |
| UnicodeHeader.ArabicIndicMatches | src/main.rs:251 | A header starting with an Arabic-Indic digit followed by three ASCII digits and the rest of the date line matches, but its year group does not parse. |
| UnicodeHeader.ArabicIndicYearPanics | src/main.rs:261-276 | For such a header, the classifier as written panics in `expect("digits")`. The ASCII model answers "no record". |
| UnicodeHeader.ArabicIndicExample | src/main.rs:259 | A concrete thirty-byte header of that kind, with no line break, exists. |

## Left out

- The tray icon, menu, balloons and `open_explore` are left out. The two notices are modelled only as counters of how often they fired.
- `get_appdata_locallow` and the Win32 calls behind it are not modelled. Their result is a parameter (`Option<Path>`) of `Engine.New` and `Worker.Init`.
- Threads, the channel and `thread::sleep` are not modelled. The worker runs over a finite sequence of ticks, each giving the listing and whether the receiver is still alive. The model does not say the loop runs forever, only what it does over any finite prefix.
- `read_dir` is not modelled as reading the map. Its result is an input listing, because the real order of entries and their errors are the operating system's.
- Real operating-system semantics are not modelled: permissions, links across volumes, concurrent change while the step runs. Failures come from an oracle, so `create_dir_all` and `hard_link` fail where it says.
- `anyhow` error wrapping is reduced to the underlying I/O error kind.
- FileSystem.Disk.CreateDirAll: creates the missing prefixes from the top down. The standard library's recursive version reaches the same final store, but the order of attempts on partial failure is not modelled.
- Scanner.ListLogfilePaths: reads `\d` in the filename filter as ASCII digits. With Unicode `\d`, the real filter also admits names with other decimal digits. Such files are then dated by their content like any other.
- UnicodeHeader.ClassifyAsWritten: of the Unicode decimal digits, models only the ASCII and Arabic-Indic ranges. That is enough to show the finding below.
- Logfile.Classify: reads the header pattern's `\d` as an ASCII digit, and so do `Engine.Step`, `Engine.StepEffect`, `Worker.Work` and `Worker.RunEffect`, which are built on it. The program's own reading is `UnicodeHeader.ClassifyAsWritten`. Under that reading, a candidate whose header starts with a non-ASCII digit makes the real step panic and fire the crash notice. In the model the same step skips that file and the worker keeps running.
- Worker.Work and Worker.RunEffect: the environment does not change the store or the failure oracle between ticks. Only the worker's own steps change `nodes`, and `faults` is fixed for the whole run. A log file the game writes later must already be in the initial store, and a deleted source, a rewritten header, or a fault that appears or clears between ticks cannot be expressed. `Worker.SteadyState` relies on this.
- The `i32` year and `u32` month and day of the source are unbounded naturals here. A group of four or two ASCII digits never comes near those limits, so no overflow is modelled.

## Findings

| source | as written | input that shows it | evidently intended | confidence | as-written member | corrected member |
|---|---|---|---|---|---|---|
| src/main.rs:251 | `\d` in the header pattern of `regex::bytes::Regex` is Unicode-aware: it also matches the UTF-8 bytes of non-ASCII decimal digits. Such a group then fails `parse::<i32>`, and `expect("digits")` panics and ends the worker thread. | a file whose first thirty bytes are `D9 A2` followed by `024.03.07 12:34:56 Starting ` | ASCII digits only (`(?-u:\d)` or `[0-9]`): a header like that is "no record" and the thread keeps running | not executed | UnicodeHeader.ArabicIndicYearPanics | Logfile.NeverDigitsPanic |
