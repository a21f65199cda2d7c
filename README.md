# LogFileMonitor in Dafny

A Dafny model of the sequential core of LogFileMonitor (`LogFileMonitor/LogFileMonitor.py`). That program tails growing text log files and forwards the lines appended to them. The model covers:

- the `Monitor` lifecycle: created OFFLINE, ready in STANDBY, and moving between RUNNING and STANDBY through `Start` and `Stop`;
- one iteration of a running monitor's polling loop, which sends the lines appended since the first size sample of that iteration, and the loop made of such iterations;
- `get_latest_log`: of the files matching `prefix*.txt`, the first one with the greatest modification time;
- the registry commands on the `MONITORS` list and the `PATHS` table: add, remove, list, start, stop and path;
- the numbered-menu answer check shared by those commands (all digits, value in 1..n);
- the retry counter of the command loop.

File sizes, modification times, directory listings, prompted answers, the outcome of launching a thread and the exceptions raised by a command are all parameters. Nothing is read from a disk, a clock, a socket or a terminal.

Files, one module each:
- `wrappers.dfy`: `Option`.
- `text_lines.dfy`: `readlines()` on decoded text.
- `tail.dfy`: the tail step and the polling loop, as written and corrected.
- `latest_log.dfy`: latest-log resolution.
- `selection.dfy`: menu answers and the prompt loop.
- `monitor.dfy`: the `Monitor` class.
- `registry.dfy`: `MONITORS`, `PATHS` and the commands.
- `wizard.dfy`: the retry counter.

Modelling choices:
- A monitor's name, path and encoding are `const` fields. The program sets them in `__init__` and never assigns them again, so `Start` and `Stop` cannot change them.
- `status` and the thread handle are mutable fields. `Monitor.Valid()` is the invariant that `Start` and `Stop` preserve: the status is never OFFLINE after construction, and a thread handle is held exactly while RUNNING.
- A monitor's path is `Option<string>`. `get_latest_log` returns None when nothing matches, and the add command still creates a monitor with that None path. Its duplicate-path check compares None like any other value.
- `PATHS` is an insertion-ordered dictionary, because the path menu numbers `list(PATHS.keys())`. It is modelled as a sequence of entries with distinct names.
- The registry invariant `Registry.Valid()` says that monitor names, monitor paths and path names are each distinct, and that every monitor is valid. `Add`, `Remove`, `StartSelected`, `StopSelected` and `ConfigPath` preserve it.

Behaviour of the code that the model keeps as it is:
- A running monitor can be removed: line 253 does not check the status before removing it.
- An unresolved latest log is not an error: the add command builds the monitor with the None path (lines 214-231).
- Every line read from the old size onward is sent, a trailing partial line included, as one item holding the list of lines (lines 105-107).
- Ties between equal modification times go to the first file in listing order (line 321).

## Model

| member | source | states |
|---|---|---|
| TextLines.ReadLines | LogFileMonitor/LogFileMonitor.py:106 | the lines concatenate back to the text read; each is non-empty and contains a newline only as its last character; every line but the last ends in a newline; an empty text gives no lines |
| TextLines.ReadLinesOfConcat | LogFileMonitor/LogFileMonitor.py:106 | reading back: any well-formed sequence of lines is exactly what `readlines()` returns for the text it spells out |
| Tail.TailStep | LogFileMonitor/LogFileMonitor.py:99-107 | an item is sent exactly when the second size exceeds the first; the item is a non-empty list of well-formed lines spelling out the content from the old size to the end |
| Tail.TailStepOnAppend | LogFileMonitor/LogFileMonitor.py:99-107 | on a file only appended to during the iteration, an item is sent exactly when something was appended, and old content plus the item's lines is the new content |
| Tail.PollAsWritten | LogFileMonitor/LogFileMonitor.py:97-108 | the loop as written, re-sampling the watermark every iteration, sends the tail step's item for each iteration in which the file grew, in order, at most one per iteration |
| Tail.AsWrittenLosesAppendBetweenCycles | LogFileMonitor/LogFileMonitor.py:97-108 | on an append-only history "", "a\n", "a\nb\n", "a\nb\n", the loop as written sends only "a\n", so text appended between two iterations is lost |
| Tail.PollWatermark | LogFileMonitor/LogFileMonitor.py:97-108 | the corrected loop keeps its watermark across iterations and sends exactly the items of the reference definition `WatermarkItems` |
| Tail.WatermarkSendsEverything | LogFileMonitor/LogFileMonitor.py:97-108 | with the watermark kept, over any append-only history the lines sent spell out exactly the text appended after the first sample, and the watermark equals the latest size |
| LatestLog.MatchesLogPatternIff | LogFileMonitor/LogFileMonitor.py:314-316 | a name matches `prefix*.txt` exactly when it is prefix + anything + ".txt" (a name starting with '.' only when the prefix does, as glob hides dot files) |
| LatestLog.Glob | LogFileMonitor/LogFileMonitor.py:314-316 | the files kept are exactly the listed files whose names match the pattern |
| LatestLog.MaxByMtime | LogFileMonitor/LogFileMonitor.py:321 | the position `max(..., key=getmtime)` picks: no file has a later time, and every file before it has a strictly earlier time |
| LatestLog.LatestLog | LogFileMonitor/LogFileMonitor.py:312-323 | None exactly when no file matches; otherwise a listed, matching file whose time is at least that of every matching file |
| LatestLog.GlobPosition | LogFileMonitor/LogFileMonitor.py:316 | each match glob returns sits at a position of the listing, and the matches before it in the result are exactly the matches listed before that position |
| LatestLog.LatestIsFirstOfTheNewest | LogFileMonitor/LogFileMonitor.py:316-321 | on ties the result is the file at a position of the listing before which every matching file is strictly older |
| LatestLog.JoinPath | LogFileMonitor/LogFileMonitor.py:314 | `os.path.join`: an absolute second argument is the result; otherwise the second argument follows the first directly exactly when the first is empty or ends in '/', and after one added '/' otherwise |
| LatestLog.AfterLastSlash | LogFileMonitor/LogFileMonitor.py:316 | the position just after the last '/' of the pattern, or 0 when it has none, where glob splits the pattern into directory and name |
| LatestLog.StripTrailingSlashes | LogFileMonitor/LogFileMonitor.py:316 | `rstrip('/')`: the longest prefix not ending in '/', all that is cut being slashes |
| LatestLog.SplitHeadShape | LogFileMonitor/LogFileMonitor.py:316 | the head of `os.path.split` is a prefix of the pattern up to its last '/', only slashes are cut off, an all-slash head is kept whole, and any other head does not end in '/' |
| LatestLog.GlobDirectory | LogFileMonitor/LogFileMonitor.py:316 | an all-slash directory is kept whole; any other loses exactly its trailing slashes and then does not end in '/' |
| LatestLog.GlobPath | LogFileMonitor/LogFileMonitor.py:316 | the path glob reports for a match ends with the match's name |
| LatestLog.PatternHeadIsGlobDirectory | LogFileMonitor/LogFileMonitor.py:314-316 | for a prefix without '/', the directory glob lists and joins its matches to is the given directory with trailing slashes removed, kept whole when it is all slashes |
| LatestLog.GetLatestLog | LogFileMonitor/LogFileMonitor.py:312-323 | None exactly when no file matches; otherwise the path glob reports for a matching file that no matching file is newer than: its name joined to the head of the split pattern |
| LatestLog.LatestPathUnderGlobDirectory | LogFileMonitor/LogFileMonitor.py:312-323 | for a prefix without '/', the path returned is the newest match's name under that stripped directory |
| LatestLog.TrailingSlashesCollapse | LogFileMonitor/LogFileMonitor.py:316 | a directory with any number of extra trailing slashes is reported without them |
| LatestLog.TrailingSlashesDoNotMatter | LogFileMonitor/LogFileMonitor.py:312-323 | `get_latest_log("logs//", …)` returns what `get_latest_log("logs", …)` returns, so differently slashed entries of one directory resolve to the same path |
| LatestLog.NewerOfTwoWins | LogFileMonitor/LogFileMonitor.py:316-321 | of two logs of a set and an unrelated file, the newer log is the one resolved |
| Selection.SelectedIndex | LogFileMonitor/LogFileMonitor.py:205-210 | an answer is accepted exactly when it is all digits with value in 1..count; the index selected is the value less one, within bounds |
| Selection.ListedNumberSelectsItsItem | LogFileMonitor/LogFileMonitor.py:200-210 | each number 1..count, typed back as the menu prints it, selects the item printed beside it |
| Selection.FirstAccepted | LogFileMonitor/LogFileMonitor.py:264-271 | no selection exactly when every answer is refused; a selection is always a valid index (so none with an empty list) |
| Selection.Prompt | LogFileMonitor/LogFileMonitor.py:264-268 | the prompt loop returns the index of the first accepted answer, having refused every answer before it, or none after refusing them all |
| Monitors.Monitor.constructor | LogFileMonitor/LogFileMonitor.py:48-59 | a new monitor has the given name, path and encoding, status STANDBY and no thread |
| Monitors.Monitor.Start | LogFileMonitor/LogFileMonitor.py:117-135 | a RUNNING monitor is left as it was; otherwise a successful launch means RUNNING with a thread, and a failed launch leaves the status unchanged and the handle cleared; the invariant is kept |
| Monitors.Monitor.Stop | LogFileMonitor/LogFileMonitor.py:137-147 | the monitor ends in STANDBY without a thread; a STANDBY monitor is left as it was; the invariant is kept |
| Monitors.Monitor.Describe | LogFileMonitor/LogFileMonitor.py:149-150 | `str(monitor)` begins with the name and " - ", and the rest reads back as the status |
| Registry.ChosenEncoding | LogFileMonitor/LogFileMonitor.py:219-228 | custom modes take menu entry `choice - 1` of utf-8, utf-16, utf-32; other modes take the argument when non-empty, else "utf-8" |
| Registry.Put | LogFileMonitor/LogFileMonitor.py:306 | saving a path either keeps the table's length, a key being overwritten, or appends the entry; the entry is in the table afterwards (its order and lookup are stated by the next three rows) |
| Registry.PutKeys | LogFileMonitor/LogFileMonitor.py:306 | saving a path keeps the key order, adding a new key last |
| Registry.PutKeepsKeysDistinct | LogFileMonitor/LogFileMonitor.py:306 | saving a path never makes two entries share a name |
| Registry.PutLookup | LogFileMonitor/LogFileMonitor.py:306 | after saving, the name reads the new entry and every other name reads what it read before |
| Registry.PutOverwrites | LogFileMonitor/LogFileMonitor.py:296-306 | saving the same name twice equals saving it once with the second value |
| Registry.KeyedEntry | LogFileMonitor/LogFileMonitor.py:210-212 | with distinct keys, the entry `PATHS[list(PATHS.keys())[i]]` the path menu selects is the table's `i`th entry, which is the entry `Add` reads as `paths[pathIndex]` |
| Registry.AppendingKeepsDistinct | LogFileMonitor/LogFileMonitor.py:214-232 | appending a monitor whose name and path were checked to be new adds one name and one path at the end and keeps names and paths unique |
| Registry.Lookup | LogFileMonitor/LogFileMonitor.py:212 | a key is found exactly when it is among the keys, and then an entry of that name is returned |
| Registry.FirstNamed | LogFileMonitor/LogFileMonitor.py:252-253 | the first monitor with the name: none exactly when no monitor has it, otherwise every earlier monitor has another name |
| Registry.DescriptionsLength | LogFileMonitor/LogFileMonitor.py:241-244 | the list command writes one description per monitor |
| Registry.DescriptionAt | LogFileMonitor/LogFileMonitor.py:241-244 | the `i`th description written is `str()` of the `i`th monitor |
| Registry.ListingEmptyIff | LogFileMonitor/LogFileMonitor.py:237-246 | the listing is "No monitors found" exactly when there are no monitors |
| Registry.TerminatedIsLine | LogFileMonitor/LogFileMonitor.py:244 | a description without a newline, written with its newline, is one whole line |
| Registry.ListingReadsBack | LogFileMonitor/LogFileMonitor.py:241-246 | when no description contains a newline (descriptions are `str()` of monitors, whose names are single input lines), a non-empty listing read line by line gives each monitor's description plus a newline, in list order |
| Registry.RemovingKeepsDistinct | LogFileMonitor/LogFileMonitor.py:252-255 | removing one monitor keeps names and paths distinct, and its name no longer occurs |
| Registry.Registry.constructor | LogFileMonitor/LogFileMonitor.py:450-451 | the registry starts with no monitors over a path table with distinct names |
| Registry.Registry.Add | LogFileMonitor/LogFileMonitor.py:177-235 | a used name, then an empty path table, then a resolved path already monitored each return their message with the list unchanged; the entry read is `paths[pathIndex]`, which `KeyedEntry` shows is `PATHS[list(PATHS.keys())[i]]` under the invariant's distinct keys; otherwise exactly one new monitor goes last with the name, the resolved path and the chosen encoding, RUNNING only in the starting modes after a successful launch; earlier monitors are untouched; the invariant is kept |
| Registry.Registry.Remove | LogFileMonitor/LogFileMonitor.py:248-257 | without a match the result is "not found" and the list is unchanged; otherwise only the first monitor with the name is removed, the others keep their order, and the name is gone |
| Registry.Registry.List | LogFileMonitor/LogFileMonitor.py:237-246 | the loop builds the listing of the monitors' descriptions |
| Registry.Registry.StartSelected | LogFileMonitor/LogFileMonitor.py:259-274 | the first accepted answer selects a monitor within bounds, which is started as `Start` says; the others and the list are unchanged |
| Registry.Registry.StopSelected | LogFileMonitor/LogFileMonitor.py:277-292 | the first accepted answer selects a monitor within bounds, which ends in STANDBY without a thread; the others and the list are unchanged |
| Registry.Registry.ConfigPath | LogFileMonitor/LogFileMonitor.py:294-310 | the path table becomes `Put` of the old table with the new entry, the monitors are unchanged, and the message names the entry |
| Wizard.Run | LogFileMonitor/LogFileMonitor.py:424-444 | the loop ends at the first interrupt, or at the round where the failures counted since the start, never reset, exceed 5; otherwise it is still running when the rounds run out |

## Left out

- Threads and timing: `threading.Thread`, `start`, `join`, `time.sleep` and `_stop_event` are left out. `Start` is told whether the launch succeeded, and the polling loop runs for as many iterations as it is given.
- Monitors.Monitor.Stop: modelled as returning. In the code, the polling loop tests `_status` (line 97) and not `_stop_event`, and `_status` becomes STANDBY only after the join (lines 143-147). So `join` on a RUNNING monitor returns only if the observer thread died of an exception, for example `getsize` raising on a missing file or a None path.
- `_defunc_observer_thread_func` (lines 62-90): dead code built on the watchfiles library.
- `socket_thread`, `_dummy_socket`, `communicate_out` and `OUTPUT_QUEUE`: network I/O and a concurrent queue. `Communicate` is modelled as adding one item to the sequence the poll loop returns.
- `_load_json`, `_save_json`, `initialize`, `deinitialize` and the `__main__` block: file I/O, socket creation and process exit.
- `log_monitor_wizard`: command dispatch after Unicode `lower()` and `strip()`. Each command it dispatches is modelled as its own method.
- `opr.sanitize_text`, `opr.clean_path`, `opr.print_from` and `opr.input_from` come from a library that is not part of this model. Names, paths and answers arrive already sanitised. `clean_path` is taken as the identity, so the model cannot show that line 216 compares an uncleaned path with the cleaned stored paths.
- Registry.Registry.Add has no mode, encoding or path prompt loops (lines 180-184, 203-207 and 222-226). It takes the values those loops settle on: a `Mode`, a menu choice in 1..3 and a path index. It resolves the path from one supplied directory listing. The `name` and `path` arguments of `_add_monitor` are not modelled, because the wizard always calls it without them.
- Text decoding, byte offsets and text-mode seek: a file is a sequence of decoded characters, its size is that sequence's length, and newline translation is assumed done.
- Tail.TailStep: the content read at lines 104-106 is taken to be the content at the second size sample. The code reads to the end of the file at the time of reading.
- Selection.SelectedIndex: only ASCII digits are modelled. `isdigit()` also accepts other Unicode digits. `int()` rejects some of them, such as superscripts, with an exception, and accepts decimal digits of other scripts, such as fullwidth '１' or Arabic-Indic '٣'; for those the code selects an item where the model refuses the answer. `int()` also raises ValueError on a string of more than 4300 digits (since Python 3.10.7), so at lines 205, 266 and 284 an all-digit answer longer than that aborts the command, which the command loop then counts as a failure (lines 438-440). The model instead accepts or refuses such an answer by its value: "1" followed by 4300 zeros is refused as out of range, and 4300 zeros followed by "1" selects the first item.
- Selection.Prompt: with no monitors, the start and stop prompt loops (lines 264-268 and 282-286) accept no answer, because `range(1, 1)` is empty, and never end. The model runs out of answers and returns None, and `StartSelected` and `StopSelected` then change nothing.
- Glob patterns: the prefix and the directory are taken literally; glob metacharacters (`*`, `?`, `[`) in either are not modelled, although glob would treat a directory containing them as a pattern of directories. A prefix containing '/' is not modelled either: glob would then list a subdirectory and match only the part after the last '/'. Matching is case-sensitive, the separator is '/', and modification times are integers.
- The order in which glob lists a directory is defined by the operating system. It is taken as given.

## Findings

| source | as written | input that shows it | evidently intended | confidence | as-written member | corrected member |
|---|---|---|---|---|---|---|
| LogFileMonitor/LogFileMonitor.py:97-108 | `last_size` is re-read at the top of every iteration (line 99), so `last_size = current_size` (line 108) has no effect and text appended after one iteration's read and before the next iteration's first sample is never sent | the file grows from "" to "a\n" during the first iteration and to "a\nb\n" before the second's first sample: only "a\n" is sent | sample the size once before the loop and, on growth, advance the watermark to the position the read ended at (`f.tell()`), so everything appended is sent once; the model takes each read to end at the size sampled just before it, and advancing to that sample instead would send again text appended between the sample and the read | not executed; high | Tail.AsWrittenLosesAppendBetweenCycles | Tail.WatermarkSendsEverything |
