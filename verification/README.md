# AIOS Dome: a Dafny model of the natural-language admin shell

AIOS Dome is a small Linux administration shell. The operator types a
request in plain language (Chinese or English). A keyword router picks one
of seven modules: CPU, memory, sentinel (monitor), process, file creation,
file control and large-file search. The chosen module sends a narrow prompt
to a local inference service and reads a tag such as `[KILL:firefox]` out
of the reply. It then acts through thin wrappers around Linux: sysfs
governor files, `sched_setaffinity`, `kill`, `/proc`, a recursive directory
walk, and `ofstream`.

This project models the deterministic part of that shell in Dafny and
proves what the code promises about it.

- **Reply codec** (`ReplyCodec`). The escaping of the prompt into the
  request body and the scanner that pulls the `"response":"…"` string out
  of the reply are both modelled as loops. Each is proved equal to a
  recursive specification, and a round-trip lemma connects the two.
- **Router** (`Router`). The if-chain of `routeAndProcess` is a total
  function `Classify`. Lemmas state its priority order, its
  case-insensitivity, one reachable input per branch, and three
  consequences of the order:
  - "cpu" beats "kill";
  - "搜索" never reaches the large-file branch;
  - the process module's `ps` shortcut is unreachable.
- **Tags and decisions** (`ActionTags`, `Decisions`). Verb selection,
  argument extraction with the `size_t` wrap-around, the kill gate, the
  open/delete gate, and the creation plan are functions from the reply and
  the oracle answers to an action.
- **Process monitor** (`ProcessMonitor`). PID snapshots of `/proc` and
  new-process detection, modelled as a class whose `lastPidList` field is
  replaced wholesale.
- **Process control** (`ProcessControl`). Signals sent are kept in a log
  field, and the SIGKILL guard is kept as an invariant of that log.
- **Large-file index** (`FileIndex`). Scanning and the threshold/limit
  query, modelled as a class over `fileIndex` and `currentRootPath`.
- **File search** (`FileSearch`). The capped case-insensitive name search.
- **File creator** (`FileCreation`). The `.txt` guard.
- **CPU control** (`CpuControl`). The governor loop and the affinity
  masks, with sysfs writes and affinity calls kept in log fields.
- **Engine** (`Engine`). `AiEngine` holds the sentinel flag machine, the
  module runners that apply each decision to the sub-objects, and
  `RouteAndProcess`, which runs only the routed module.

The outside world is passed in as parameters:

- the inference reply (`resp`);
- the `/proc` directory listing (`names`/`procDirs`);
- the contents of `/proc/<pid>/comm` (`commOf`);
- `findPidByName` (`pidOf`);
- the directory traversal, as a sequence of `Entry` values (`traversal`);
- whether `kill` succeeded (`delivered`), whether each sysfs write succeeded
  (`accepts`), whether `sched_setaffinity` succeeded (`succeeds`), and
  whether the file opened (`canOpen`);
- the number of cores (`cores`);
- the operator's confirmation and choice lines.

Five behaviours of the code differ from what a reader of its prompts and
messages would expect. The model follows the code in each:

- **Verb matching is case-sensitive.** Every module looks for its verbs with
  `resp.find("VERB")`, so "kill" in lower case is not a KILL. Only keyword
  routing is case-insensitive, through `hasKey`.
- **The kill gate refuses PIDs below 1000, and 1000 itself is killed.**
  `KillGateRanges` states the refused and "not found" ranges, and
  `KillGateBoundaries` the 999/1000 boundary.
- **Empty queries always rescan.** A size query rescans whenever its first
  answer is empty, even if the index is already populated, not only when
  no scan has happened yet.
- **Limits of 0 or below return one entry.** `getLargeFiles` checks the
  limit after each push, so such a limit (other than -1) still returns one
  entry when any file qualifies, rather than none.
- **"y" confirms creation but not deletion.** The create module asks
  "(yes/no)" and fills the file with generated text after "yes" or "y"; the
  delete confirmation accepts only "yes". `ShortYesCreatesButNeverDeletes`
  states the two side by side.

## Model

| member | source | states |
|---|---|---|
| Text.IndexOf | core/ai_engine.cpp:56 | `find` gives the first position where the key occurs, and `None` exactly when it occurs nowhere |
| Text.IndexOfChar | core/ai_engine.cpp:379-380 | the position of the first occurrence of a character, and `None` when the character is absent |
| Text.Trim | core/ai_engine.cpp:384-385 | the two `erase` calls that strip leading and then trailing spaces from an extracted name; what the result is, is stated by `TrimSpec` |
| Text.TrimSpec | core/ai_engine.cpp:384-385 | the two `erase` calls leave the infix left after removing the leading and trailing runs of spaces; the result has no space at either end |
| Text.TrimIdempotent | core/ai_engine.cpp:384-385 | trimming a trimmed name changes nothing |
| Text.DecimalRoundTrip | process/proc_monitor.cpp:69-70 | reading back the digits that `to_string` prints gives the number printed |
| ReplyCodec.Escaped | core/ai_engine.cpp:20-29 | the escape of the prompt, one character at a time; `JsonEscape` is proved to compute it and `RoundTrip` to be undone by extraction |
| ReplyCodec.JsonEscape | core/ai_engine.cpp:20-29 | the loop's output is the character-wise escape of the input: a quote or a backslash gains a backslash, a newline becomes a space, and every other character is copied |
| ReplyCodec.EscapedHasNoNewline | core/ai_engine.cpp:20-29 | escaped text never holds a newline, so the request body stays on one line |
| ReplyCodec.Unescaped | core/ai_engine.cpp:36-46 | the scan after the key with its escape flag: a backslash is dropped and the next character copied, the first unescaped quote ends the value; stated by `UnescapedPlain`, `UnescapedStopsAtQuote` and `UnescapeOne` |
| ReplyCodec.Extracted | core/ai_engine.cpp:31-48 | the value of the first `"response":"` string in a reply, "" without the key; `ExtractJson` is proved to compute it |
| ReplyCodec.ExtractJson | core/ai_engine.cpp:31-48 | the scanner returns "" when the key is missing. Otherwise it copies the text after the first key, drops each backslash and copies the next character literally, and stops at the first unescaped quote or at the end |
| ReplyCodec.ExtractedWithoutKey | core/ai_engine.cpp:33-34 | a reply without `"response":"` extracts to the empty string |
| ReplyCodec.UnescapedPlain | core/ai_engine.cpp:38-46 | with no closing quote, plain text is copied to the end of the input |
| ReplyCodec.UnescapedStopsAtQuote | core/ai_engine.cpp:43 | the first unescaped quote ends the value, and whatever follows it is ignored |
| ReplyCodec.UnescapeOne | core/ai_engine.cpp:20-48 | the scanner undoes the escape of any one character, except that a newline comes back as a space |
| ReplyCodec.RoundTrip | core/ai_engine.cpp:20-48 | extracting from the key, then the escaped text, then a quote, then any suffix gives the text with newlines turned into spaces |
| ReplyCodec.RoundTripExact | core/ai_engine.cpp:20-48 | the round trip returns the text unchanged exactly when the text holds no newline |
| Router.HasKey | core/ai_engine.cpp:51-57 | `hasKey`: both sides lower-cased, then a substring search; that routing ignores letter case is stated by `ClassifyIgnoresCase` and `ClassifyOfLower` |
| Router.Classify | core/ai_engine.cpp:170-226 | the routing if-chain of `routeAndProcess` over the seven keyword groups; its order and totality are stated by `ClassifyFirstMatch` and `ClassifyUnrecognised` |
| Router.ClassifyFirstMatch | core/ai_engine.cpp:170-226 | an input lands in a group's domain iff that group matches and no earlier group does, in the order CPU, memory, monitor, process, create, file control, file |
| Router.ClassifyUnrecognised | core/ai_engine.cpp:224-225 | an input is unrecognised iff no keyword group matches it |
| Router.ClassifyIgnoresCase | core/ai_engine.cpp:51-57 | inputs that agree after ASCII lower-casing are routed alike |
| Router.ClassifyOfLower | core/ai_engine.cpp:51-57 | lower-casing the input first does not change its route |
| Router.CpuBeatsKill | core/ai_engine.cpp:173-177 | any input mentioning "cpu" goes to the CPU module, whatever else it says (for example "kill") |
| Router.SearchWordNeverReachesFile | core/ai_engine.cpp:210-222 | an input with "搜索" never reaches the large-file branch, because the file-control group is tried first |
| Router.PsIsUnrecognised | core/ai_engine.cpp:170-226 | "ps" matches no group, so the process module's `ps` shortcut (line 359) is unreachable |
| Router.TopIsProcess | core/ai_engine.cpp:196-200 | "top" reaches the process module |
| Router.ProcessWordIsProcess | core/ai_engine.cpp:196-200 | "进程" reaches the process module |
| Router.CpuReachable | core/ai_engine.cpp:173-177 | the CPU branch is reachable ("cpu") |
| Router.MemoryReachable | core/ai_engine.cpp:180-184 | the memory branch is reachable ("mem") |
| Router.MonitorReachable | core/ai_engine.cpp:187-192 | the monitor branch is reachable ("监控") |
| Router.FileCreateReachable | core/ai_engine.cpp:203-207 | the file-creation branch is reachable ("新建") |
| Router.FileControlReachable | core/ai_engine.cpp:210-215 | the file-control branch is reachable ("打开") |
| Router.FileReachable | core/ai_engine.cpp:218-222 | the large-file branch is reachable ("文件") |
| Router.Reaches | core/ai_engine.cpp:170-226 | a keyword of one group, typed alone, reaches that group's domain if no keyword of an earlier group can occur in it |
| ActionTags.Substr | core/ai_engine.cpp:381 | `substr(pos, count)` yields at most `count` characters starting at `pos` |
| ActionTags.RawArgument | core/ai_engine.cpp:378-380 | `resp.substr(s+1, e-s-1)` on the first ':' and first ']' with the `size_t` length, "" when either is missing; its three cases are stated by `RawArgumentCases` |
| ActionTags.Argument | core/ai_engine.cpp:378-385 | the trimmed text of `resp.substr(s+1, e-s-1)` between the first ':' and the first ']', "" when either is missing; its cases are stated by `RawArgumentCases` and `ArgumentBetween` |
| ActionTags.WrappedLength | core/ai_engine.cpp:381 | the length `e - s - 1` computed in `size_t` is the true length when the colon comes first, and wraps to a value beyond the reply when the bracket comes first |
| ActionTags.RawArgumentCases | core/ai_engine.cpp:379-381 | with no ':' or no ']' the argument is empty. If ':' comes first, the argument is the text strictly between them. If ']' comes first, the `size_t` length wraps and the argument is everything after ':' |
| ActionTags.ArgumentBetween | core/ai_engine.cpp:379-385 | with ':' before ']', the argument is the trimmed text between them |
| ActionTags.ArgumentMissing | core/ai_engine.cpp:381 | a reply lacking ':' or ']' has the empty argument |
| ActionTags.BlankArgumentIsEmpty | core/ai_engine.cpp:384-385 | an all-space argument trims to empty |
| ActionTags.ArgumentShape | core/ai_engine.cpp:384-385 | a non-empty argument has no space at either end |
| ActionTags.TagArgument | core/ai_engine.cpp:378-385 | from a well-formed tag, with no ':' or ']' before its colon or inside its argument, the trimmed argument is read back whatever follows the tag |
| ActionTags.KillTagExample | core/ai_engine.cpp:378-385 | "blah [KILL:firefox] blah" carries the argument "firefox" |
| ActionTags.BracketBeforeColonExample | core/ai_engine.cpp:381 | "] x:abc" carries "abc": the wrapped length runs to the end |
| ActionTags.FirstVerb | core/ai_engine.cpp:246-266 | the index of the first verb, in the order the if-chain tries them, that the reply contains, and the verb count when none is contained |
| Decisions.CpuDecision | core/ai_engine.cpp:246-266 | the CPU module's if-chain over CHECK, BOOST, RESTORE; stated by `CpuDecisionByVerb` |
| Decisions.MemDecision | core/ai_engine.cpp:287-302 | the memory module's if-chain over CHECK, CLEAN; stated by `MemDecisionByVerb` |
| Decisions.MonitorDecision | core/ai_engine.cpp:322-334 | the monitor module's if-chain over the three sentinel verbs; stated by `MonitorDecisionByVerb` |
| Decisions.ProcDecision | core/ai_engine.cpp:355-405 | the process module: shortcut words, LIST, then KILL with the name lookup and the PID gate; when it kills is stated by `ProcKillIff`, and which non-kill outcome a looked-up PID gets by `KillGateRanges` |
| Decisions.CpuDecisionByVerb | core/ai_engine.cpp:246-266 | the CPU module acts on the first of CHECK, BOOST, RESTORE found anywhere in the reply, and on none when the reply holds none |
| Decisions.MemDecisionByVerb | core/ai_engine.cpp:287-302 | the memory module acts on the first of CHECK, CLEAN in the reply |
| Decisions.MonitorDecisionByVerb | core/ai_engine.cpp:322-334 | the monitor module acts on the first of START_MONITOR, STOP_MONITOR, STATUS_MONITOR in the reply |
| Decisions.ProcKillIff | core/ai_engine.cpp:355-405 | a kill is decided iff all of these hold: the input is not a shortcut word, KILL is the first process verb, the argument is a non-empty name, and that name resolves to a PID of at least 1000 |
| Decisions.KillTargetsPassGuard | core/ai_engine.cpp:394-396 | every PID the engine kills passes `killProcess`'s own guard, so that guard never decides there |
| Decisions.EmptyNameNoLookup | core/ai_engine.cpp:387-388 | an empty name does not consult the PID lookup and is never a kill |
| Decisions.QuickListIgnoresReply | core/ai_engine.cpp:359-366 | "top", "ps" and "进程" list processes without reading any reply |
| Decisions.KillGateRanges | core/ai_engine.cpp:391-401 | on a KILL with a non-empty name, every PID of 0 or below (such as the -1 that `findPidByName` returns on failure) is "not found", and every PID from 1 to 999 is refused with that PID |
| Decisions.KillGateBoundaries | core/ai_engine.cpp:391-401 | on a KILL with a name: PID 0 is "not found", 999 is refused, and 1000 is killed |
| Decisions.TargetName | core/ai_engine.cpp:528-538 | the file-control target: the trimmed argument, extracted only when the reply holds ':'; `TargetNameIsArgument` shows the guard changes nothing |
| Decisions.TargetNameIsArgument | core/ai_engine.cpp:528-538 | the guard on ':' is redundant: the target is always the trimmed argument |
| Decisions.FileControlDecision | core/ai_engine.cpp:528-594 | the file-control module: target extraction, SEARCH, OPEN and DELETE with their gates; stated by `FileControlByVerb`, `OpenIff` and `DeleteIff` |
| Decisions.FileControlByVerb | core/ai_engine.cpp:528-594 | with no target nothing is done. Otherwise SEARCH lists, OPEN goes through the open gate and DELETE through the delete gate, all on the search for the target, taking the first of these verbs in the reply; with none of them nothing is done |
| Decisions.OpenGate | core/ai_engine.cpp:558-571 | OPEN on the search results: nothing found, the single match opened, or several listed; stated by `OpenGateIff` |
| Decisions.DeleteGate | core/ai_engine.cpp:573-594 | DELETE on the search results: nothing found, the single match deleted only after exactly "yes", or several listed; stated by `DeleteGateIff` |
| Decisions.OpenGateIff | core/ai_engine.cpp:562-570 | the open gate opens a path iff the search found exactly that one path |
| Decisions.DeleteGateIff | core/ai_engine.cpp:577-593 | the delete gate deletes a path iff the search found exactly that one path and the confirmation is exactly "yes" |
| Decisions.EmptyTargetDoesNothing | core/ai_engine.cpp:540-543 | an empty target returns before any search |
| Decisions.OpenIff | core/ai_engine.cpp:558-571 | a file is opened iff the target is non-empty, OPEN is the first file-control verb, and the search finds exactly that one file |
| Decisions.DeleteIff | core/ai_engine.cpp:573-594 | a file is deleted iff the target is non-empty, DELETE is the first file-control verb, the search finds exactly that one file, and the confirmation is exactly "yes" |
| Decisions.ShortYesNeverDeletes | core/ai_engine.cpp:584 | the answer "y" never deletes |
| Decisions.ConfirmOnlyForSingleDelete | core/ai_engine.cpp:573-594 | outside a DELETE with a single match, the confirmation line has no influence |
| Decisions.RemoveQuotes | core/ai_engine.cpp:651 | generated content loses every '"' and keeps every other character, with the same count of each; text without a quote is left as it is |
| Decisions.RemoveQuotesAppend | core/ai_engine.cpp:651 | removal works piece by piece, so, like `std::remove`, it keeps the remaining characters in their order |
| Decisions.CreateFileName | core/ai_engine.cpp:614-622 | the create module's name: the trimmed argument of a reply holding "CREATE:", "" otherwise; stated by `CreatePlanShape` |
| Decisions.WithTxt | core/ai_engine.cpp:630-633 | ".txt" is appended unless the name already holds ".txt" anywhere, case-sensitively; stated by `WithTxtAccepted`, `UpperCaseNameGetsSuffix` and `InfixTxtIsRefused` |
| Decisions.CreateDecision | core/ai_engine.cpp:610-659 | the file-create module up to `createTxtFile`: the name, the `.txt` suffix rule and the quote-free content; stated by `CreatePlanShape` |
| Decisions.CreatePlanShape | core/ai_engine.cpp:614-656 | creation is reached iff the reply holds "CREATE:" and a non-empty argument. The path is that name with the `.txt` rule applied. The content is the generated text with its quotes removed when the answer is "yes" or "y", and empty for any other answer |
| Decisions.ShortYesCreatesButNeverDeletes | core/ai_engine.cpp:584-656 | an answer of "y" fills a new file with the quote-free generated text, yet the same "y" never confirms a deletion |
| Decisions.WithTxtAccepted | core/ai_engine.cpp:630-633 | a name without ".txt" gets the suffix and then passes the creator's check |
| Decisions.UpperCaseNameGetsSuffix | core/ai_engine.cpp:630-633 | "A.TXT" becomes "A.TXT.txt", because the engine's search is case-sensitive |
| Decisions.InfixTxtIsRefused | core/ai_engine.cpp:630-633 | "a.txt.bak" is left alone, and the creator then refuses it without writing |
| Sorting.SortBy | process/proc_monitor.cpp:75 | the sorted sequence is ordered by the key and is a permutation of its input |
| ProcessMonitor.ParsePid | process/proc_monitor.cpp:68-71 | a PID comes only from an entry whose first character is a digit, and it is at most INT_MAX |
| ProcessMonitor.ParsePidOfDecimal | process/proc_monitor.cpp:68-71 | an entry named after a PID parses back to that PID |
| ProcessMonitor.AllPids | process/proc_monitor.cpp:60-77 | the sorted PIDs of the parsable `/proc` entries; stated by `AllPidsSpec` and computed by `GetAllPids` |
| ProcessMonitor.AllPidsSpec | process/proc_monitor.cpp:60-77 | the snapshot is ascending, and it holds a PID iff some listed entry parses to it |
| ProcessMonitor.NewPids | process/proc_monitor.cpp:85-88 | the PIDs of the current snapshot missing from the stored one, in snapshot order; stated by `NewPidsMembers` and `NewPidsAscending` |
| ProcessMonitor.NewPidsMembers | process/proc_monitor.cpp:85-88 | a PID is reported iff it is in the current snapshot and not in the stored one |
| ProcessMonitor.NewPidsAscending | process/proc_monitor.cpp:87-103 | report lines come in ascending PID order when the snapshot is ascending |
| ProcessMonitor.NewPidsOfSame | process/proc_monitor.cpp:85-107 | nothing is new against an unchanged snapshot |
| ProcessMonitor.NewPidsExample | process/proc_monitor.cpp:85-88 | stored [1,2,3] and current [2,3,4] report only 4 |
| ProcessMonitor.ProcName | process/proc_monitor.cpp:90-99 | the name is "Unknown" when the read fails. Otherwise it is the line read, less one trailing newline when there is one |
| ProcessMonitor.ReportLine | process/proc_monitor.cpp:102 | each line ends in a newline and, for a name without one, holds no other |
| ProcessMonitor.Report | process/proc_monitor.cpp:87-104 | one `ReportLine` per new PID, in order; stated by `ReportEmptyIff` and computed by `NewProcessReport` |
| ProcessMonitor.ReportEmptyIff | process/proc_monitor.cpp:102 | the report is empty iff no PID is new |
| ProcessMonitor.SecondDetectionIsSilent | process/proc_monitor.cpp:85-107 | a second detection against an unchanged listing reports nothing |
| ProcessMonitor.ProcMonitor.constructor | process/proc_monitor.cpp:15-18 | the baseline is the snapshot at construction, so PIDs present then are not reported by the next detection while they remain |
| ProcessMonitor.ProcMonitor.GetAllPids | process/proc_monitor.cpp:60-77 | the push loop and the sort yield the ascending snapshot of the parsable entries |
| ProcessMonitor.ProcMonitor.DetectNewProcesses | process/proc_monitor.cpp:80-109 | the report has one line per PID that is new against the stored snapshot, and the stored snapshot is then replaced by the current one |
| ProcessMonitor.ProcMonitor.NewProcessReport | process/proc_monitor.cpp:85-104 | the loop over the new snapshot, with its lookup in a set of the stored PIDs, yields one line per PID missing from the stored snapshot, in snapshot order |
| ProcessControl.NoProtectedKillAppend | process/proc_control.cpp:14-28 | appending a signal keeps the log free of kills of PID 1 or below iff the new signal is not such a kill |
| ProcessControl.ProcControl.constructor | process/proc_control.cpp:11 | no signal has been sent |
| ProcessControl.ProcControl.KillProcess | process/proc_control.cpp:14-28 | PID 1 or below is refused with nothing sent. Otherwise exactly one SIGKILL goes to that PID and the result is whether it was delivered. The log never holds a kill of PID 1 or below |
| ProcessControl.ProcControl.LockProcess | process/proc_control.cpp:30-39 | exactly one SIGSTOP is sent, with no guard on the PID |
| ProcessControl.ProcControl.UnlockProcess | process/proc_control.cpp:41-50 | exactly one SIGCONT is sent, with no guard on the PID |
| FileIndex.LargeOnly | file/file_monitor.cpp:50-63 | scanDirectory's filter: the regular entries of more than 10 MiB, in traversal order; stated by `LargeOnlyMembers` |
| FileIndex.LargeOnlyMembers | file/file_monitor.cpp:50-63 | a file is collected iff a regular entry larger than 10 MiB describes it |
| FileIndex.QualifyingMembers | file/file_monitor.cpp:81-83 | a file qualifies iff it is in the index and reaches the threshold |
| FileIndex.QualifyingOfDescending | file/file_monitor.cpp:69-87 | on a largest-first index, the qualifying files are a prefix of it |
| FileIndex.LargeFiles | file/file_monitor.cpp:76-89 | the threshold and limit query over the index; stated by `LargeFilesSpec` and computed by `GetLargeFiles` |
| FileIndex.LargeFilesSpec | file/file_monitor.cpp:76-89 | the result is a prefix of the qualifying files in index order, and each file in it reaches the threshold. Its length: all of them for limit -1, min(limit, count) for limit ≥ 1, at most one for any other limit ≤ 0 |
| FileIndex.LargeFilesAreLargest | file/file_monitor.cpp:69-89 | after a scan, the answer is a prefix of the index: the largest files |
| FileIndex.LargeFilesAtCut | file/file_monitor.cpp:85 | once the limit is reached the loop may stop: the files already taken are the answer |
| FileIndex.ExampleLargeOnly | file/file_monitor.cpp:50-63 | of files of 5, 15 and 200 MiB, only the 15 and 200 MiB files are collected |
| FileIndex.ScanExample | file/file_monitor.cpp:54-71 | whatever order the sort leaves, scanning files of 5, 15 and 200 MiB indexes [200 MiB, 15 MiB] |
| FileIndex.FileMonitor.constructor | file/file_monitor.cpp:15-21 | the root starts at the home directory and the index starts empty |
| FileIndex.FileMonitor.GetCurrentRoot | file/file_monitor.cpp:25-27 | returns the root and changes nothing |
| FileIndex.FileMonitor.ScanDirectory | file/file_monitor.cpp:42-74 | the root is replaced, and the index holds exactly the large regular files of the traversal, largest first. The count returned is the size of the index |
| FileIndex.FileMonitor.GetLargeFiles | file/file_monitor.cpp:76-89 | the loop with its early break returns exactly the specified query answer and changes nothing |
| FileSearch.NameMatches | file/file_control.cpp:39-44 | the match test: the lower-cased file name contains the lower-cased keyword; stated by `SearchIgnoresKeywordCase` and `SearchResultsSpec` |
| FileSearch.Hits | file/file_control.cpp:37-45 | the paths of all matching entries in traversal order, before the cap of ten; stated by `PathsWhereMembers` and `SearchResultsSpec` |
| FileSearch.PathsWhereMembers | file/file_control.cpp:37-47 | a path is collected iff some entry with that path is accepted |
| FileSearch.SearchResults | file/file_control.cpp:28-52 | the first ten case-insensitive name hits of the walk; stated by `SearchResultsSpec` and computed by `SearchFile` |
| FileSearch.SearchResultsSpec | file/file_control.cpp:28-52 | at most ten results. They are the first hits in traversal order, each the path of an entry whose lower-cased name contains the lower-cased keyword. There are exactly min(10, number of hits) of them, so all hits are returned when there are ten or fewer |
| FileSearch.SearchIgnoresKeywordCase | file/file_control.cpp:30-31 | the keyword's letter case does not matter |
| FileSearch.SearchEmptyKeyword | file/file_control.cpp:44 | the empty keyword matches everything, so the first ten paths are returned |
| FileSearch.SearchFile | file/file_control.cpp:28-52 | the loop that stops at ten returns exactly the specified search results |
| FileSearch.SearchCut | file/file_control.cpp:46 | once ten hits are held, the loop may stop: those hits are the answer |
| FileCreation.CreateTxtFile | file/file_creator.cpp:22-39 | succeeds iff the path ends in ".txt" (any letter case) and the file opens. On success it writes exactly that content to exactly that path; otherwise it writes nothing |
| FileCreation.IsTxtExtension | file/file_creator.cpp:14-20 | the last four characters, lower-cased, are ".txt"; stated by `TxtExtensionCases` and `IsTxtExtensionIgnoresCase` |
| FileCreation.IsTxtExtensionIgnoresCase | file/file_creator.cpp:14-20 | the extension check ignores letter case |
| FileCreation.AppendedSuffixAccepted | file/file_creator.cpp:14-20 | any name with ".txt" appended passes the check |
| FileCreation.TxtExtensionCases | file/file_creator.cpp:14-20 | "A.TXT" and ".txt" pass, while "a.txt.bak" and every path shorter than four characters fail |
| CpuControl.GovernorPath | modules/cpu/cpu_control.cpp:75 | the sysfs governor file of one core; `GovernorPathInjective` shows distinct cores get distinct files |
| CpuControl.GovernorPathInjective | modules/cpu/cpu_control.cpp:75 | different cores have different governor files |
| CpuControl.GovernorWrites | modules/cpu/cpu_control.cpp:73-81 | one pass writes the governor to the file of each core 0..n-1, in increasing order |
| CpuControl.AllCores | modules/cpu/cpu_control.cpp:150-152 | the full mask holds exactly the cores 0..n-1 |
| CpuControl.AllCoresSize | modules/cpu/cpu_control.cpp:150-152 | the full mask has one member per core |
| CpuControl.CpuControl.constructor | modules/cpu/cpu_control.cpp:36-38 | the core count is fixed, and no write or affinity call has been made |
| CpuControl.CpuControl.SetAllCoresGovernor | modules/cpu/cpu_control.cpp:69-90 | every core is written, in order, with no stop after a failure. The result is true iff every write was accepted, so it is true with no cores |
| CpuControl.CpuControl.BoostPerformance | modules/cpu/cpu_control.cpp:96-98 | every core is set to "performance" |
| CpuControl.CpuControl.RestoreDefault | modules/cpu/cpu_control.cpp:104-108 | every core is set to "schedutil" |
| CpuControl.CpuControl.BindProcessToCore | modules/cpu/cpu_control.cpp:117-138 | an out-of-range core is refused with no call. Otherwise there is one call whose mask holds exactly that core |
| CpuControl.CpuControl.UnbindProcess | modules/cpu/cpu_control.cpp:144-161 | one call whose mask holds exactly every core |
| Engine.AiEngine.constructor | core/ai_engine.cpp:63-82 | both sentinel flags start false, and the sub-objects start in their initial states |
| Engine.AiEngine.StartMonitor | core/ai_engine.cpp:86-104 | does nothing while running. Otherwise it refreshes the PID baseline and then raises both flags |
| Engine.AiEngine.StopMonitor | core/ai_engine.cpp:106-121 | always ends with both flags down, and the flags agree at every boundary |
| Engine.AiEngine.Shutdown | core/ai_engine.cpp:147-151 | the destructor always ends with the sentinel stopped |
| Engine.AiEngine.RunMonitorModule | core/ai_engine.cpp:319-335 | START starts, STOP stops, and STATUS or an unknown reply changes nothing and reports the flag |
| Engine.AiEngine.RunProcModule | core/ai_engine.cpp:355-405 | exactly one SIGKILL is sent when the decision is a kill, to its PID; otherwise no signal is sent |
| Engine.AiEngine.RunCpuModule | core/ai_engine.cpp:242-268 | BOOST and RESTORE write every core's governor, and CHECK or an unknown reply writes nothing |
| Engine.AiEngine.RunFileModule | core/ai_engine.cpp:454-509 | a size query rescans iff its first answer is empty, and then asks again once (at most one rescan). SCAN_DISK rescans and lists five. Otherwise twenty are listed from the index as it stands |
| Engine.AiEngine.RouteAndProcess | core/ai_engine.cpp:170-226 | the routed module runs with the effect its runner promises: one SIGKILL exactly for a kill decision, every governor written for BOOST or RESTORE, the sentinel started or stopped as decided, the index rescanned exactly when the file module's query comes back empty or on SCAN_DISK. No signal, governor write, index change or sentinel change happens outside its own module, and an unrecognised input changes nothing |

## Left out

- The sentinel thread body (`backgroundMonitorTask`) is not modelled: its sleeps, console redraws and concurrency. Starting and stopping are modelled sequentially, and a completed `join` is taken to mean the loop has exited.
- `detectAbnormalProcesses` is not part of this model. It is called from the thread body but defined in no file of the system.
- `callOllama` is not modelled: it shells out to curl. Each reply is a parameter, and the prompt texts are not modelled.
- Console I/O is not modelled. This covers the messages printed, the main `start()` loop, `main`, and reading the confirmation and choice lines (both are parameters).
- The floating-point code is not modelled: `_getFileSizeFromInput`, `formatSize`, the conversion of the MB threshold to bytes, and the temperature display. The file module takes the operator's size as an optional threshold already in bytes.
- The CPU and memory monitors are not modelled. They read `/proc` and `/sys` and compute in floating point.
- The memory module's `dropCache` is not modelled: it runs `system("sync")` and writes one file. Only the memory module's verb choice is modelled.
- `getTopCpuProcesses` and `findPidByName` run `ps`/`pgrep`. The listing is not modelled, and the PID lookup is the oracle `pidOf`.
- `openFile` and `deleteFile` are not modelled: they run external commands. The model decides which file would be opened or deleted, but runs no file-control or file-creation effect.
- Entries the directory walk skips after an exception are simply absent from the given traversal.
- `ScanDirectory` and `SearchFile` do not model the exceptions that end a directory walk early (the outer `catch` of each walk); the traversal they are given is the sequence of entries actually visited.
- `std::sort` is unstable. The scan's contract states only the order and the permutation, and leaves the order of equal sizes open.
- `CpuControl.CpuControl.constructor` fixes the core count once, whereas `getCpuCount` is called on every operation.
- `CpuControl.CpuControl.BindProcessToCore` does not model the `CPU_SETSIZE` bound of `cpu_set_t`. Neither does `UnbindProcess`.
- `FileIndex.FileMonitor.ScanDirectory` returns an unbounded count, and does not model overflow of the `int` counter.
- `ProcessMonitor.ProcName` does not model the 127-character limit of `fgets`: the oracle gives the line already as read.
- `Text.LowerChar` lower-cases ASCII letters only; every other character is unchanged, as `::tolower` leaves every byte of a multi-byte UTF-8 character.
