# yAlgo asynchronous logger and path helpers, in Dafny

This project models two pieces of the yAlgo SDK and proves what they promise.

**The asynchronous logger** is `AsyncLogger` in `sdk/log/async_logger.cpp` and `sdk/log/async_logger.h`, together with its logging macros and the `LogStream` helper:

- Application code calls `log` (directly, through the `YLOG_*` macros or through a `LogStream`).
- `log` checks the runtime level, formats the line as `[time] [LEVEL] message` and pushes it onto a queue bounded at 100000 lines. When the queue is full, the newest record is dropped and counted.
- A background worker pops lines in FIFO order. It reads the level back from the line's second bracketed tag, writes the line to the console (coloured), to the log file (rotating first by day or by size) and to syslog, and accounts the write time.
- The destructor stops the worker, which drains whatever is still queued.
- The configuration comes from `init`, `updateConfig` or an INI-style file read by `loadConfigFromFile`.

**The path helpers** are in `sdk/utils/exec_path_utils.cpp`: `normalizePath` (collapse runs of separators), `pathJoin`, the directory part of `getExecutableDir`, and the argument check of `getFileInExeDir`.

Modules:

- `LogTypes`: the header's value types. `LogLevel` and its ordinals, `LogConfig` and its defaults, `LogStats`, and `MAX_QUEUE_SIZE`.
- `Digits`, `LogTime`: the decimal and `strftime` renderings the logger produces (`%Y%m%d`, `%Y%m%d_%H%M%S`, the microsecond log time). They are proved injective and free of brackets.
- `LogText`: the pure text logic. This covers `parseLogLevel`, the line format of `log`, the worker's `find`/`substr` tag extraction (with `npos` arithmetic written out), `getColorCode`, the syslog priority table and the rotated file's name.
- `ConfigFile`: the parse loop of `loadConfigFromFile` over the file's lines. It covers trimming, comments, sections, `key=value` splitting at the first `=`, the boolean words and `std::stoi`.
- `LoggerSpec`: the logger as a single-threaded state machine. Each lock-protected region is one transition function, and a run of operations is a sequence of them. The lemmas state the gate, the queue bound, the counter relations, FIFO order, drain at shutdown and the rotation decision.
- `Logger`: the class `AsyncLogger`, with the fields the C++ object updates in place. Each public operation (`init`, `loadConfigFromFile`, `setRuntimeLogLevel`, `updateConfig`, `log`, `getStats`, `resetStats`, one iteration of the worker, shutdown) is proved to leave exactly the state its `LoggerSpec` function describes and to keep the invariant. The private helpers state their effect on the fields instead. `CheckLogRotation` and `DispatchLine` are proved against `CheckRotationSpec` and `DispatchSpec`. `OpenFile`, `RotateLogFile`, `ParseConfigLines` and `Drain` state the new fields directly. The shutdown drain and the config-file parse loop are `while` loops with invariants.
- `LogMacros`: the compile-time gate and message shape of `YLOG_<LEVEL>` and `YLOG_MODULE_<LEVEL>`, and the class `LogStream` (accumulate, then submit once).
- `ExecPathUtils`: `normalizePath` as a loop proved against its specification, plus `pathJoin`, the executable-directory logic and `getFileInExeDir`. The separator and the executable's path are parameters.

Clock readings, the outcome of opening a file, the size of the open file and the time a write took are all parameters of the operations that use them. The `formatLog` expansion of a printf-style format is an input string.

Behaviour that the model makes explicit:

- **A clock error breaks the level tag.** When the clock cannot be read, the time field is `TimeError[<errno>]`. The worker then takes the errno for the level tag, so an ERROR line is coloured and sent to syslog as an unrecognised level (`LogText.TimeErrorMisreadsLevel`).
- **An executable in the root directory has an empty directory.** For `/app` the directory is `""`, not `"/"` (`ExecPathUtils.RootExecutableDir`).
- **Module macros and streams differ on an empty module.** A module macro given an empty module writes `"[] "`, and a module stream does not (`LogMacros.StreamMatchesMacro`).
- **Some behaviour differs from the documented design, and the model follows the code:**
  - `log` returns nothing; a dropped record is visible only in the counters.
  - A second `init` with file output on cannot reopen a stream that is already open. `ofstream::open` fails on it and sets its failbit, and the stream stays open on the old file (`LoggerSpec.InitKeepsOpenFile`). This holds even when the configuration is identical.
  - While the failbit is set, `tellp` reports -1, the largest `size_t`. So the next dispatch always rotates: it renames and reopens the configured path, which is the new path if `init` named another. Before that dispatch, a shutdown drain writes none of the queued lines to the file (`LoggerSpec.RepeatedInitFailsStream`).
  - A failed reopen after rotation is not reported. Later file writes are simply skipped while the stream is closed.
  - Turning file output off through `updateConfig` does not close the stream.

## Model

| member | source | states |
|---|---|---|
| LogTypes.FromOrdinal | sdk/log/async_logger.h:32-38 | an enumerator exists for an integer exactly when it is 0..4, and its ordinal is that integer |
| LogTypes.OrdinalRoundTrip | sdk/log/async_logger.h:32-38 | every level's ordinal maps back to that level |
| LogTypes.OrdinalOrder | sdk/log/async_logger.h:32-38 | OFF < LOG_ERROR < WARN < INFO < DEBUG, and distinct levels have distinct ordinals |
| LogTypes.AdmitsMonotone | sdk/log/async_logger.cpp:414 | a larger runtime threshold admits every level a smaller one admits |
| LogTypes.Admits | sdk/log/async_logger.cpp:414 | the `level > runtime_level_` gate: threshold OFF rejects every named severity, threshold DEBUG admits every level, and a record at level OFF always passes |
| LogTypes.DefaultConfig | sdk/log/async_logger.h:43-57 | every member initialiser of `LogConfig`: file `yutils_log.txt`, INFO, console/file/colour on, 524288000 bytes, 10 backups, rotate by day, syslog off, ident `yutils`, empty lists |
| LogTypes.InitialStats | sdk/log/async_logger.h:61-66 | all four counters start at zero |
| LogTime.DateString | sdk/log/async_logger.cpp:143-153 | the `%Y%m%d` date is eight digits |
| LogTime.StampString | sdk/log/async_logger.cpp:397-398 | the `%Y%m%d_%H%M%S` stamp is 15 characters: the date, `_`, six digits |
| LogTime.LogTimeString | sdk/log/async_logger.cpp:320-321 | the log time `%Y-%m-%d %H:%M:%S.` plus six microsecond digits is 26 characters |
| LogTime.LogTimeHasNoBrackets | sdk/log/async_logger.cpp:320-321 | a real clock reading contains neither `[` nor `]` |
| LogTime.DateStringInjective | sdk/log/async_logger.cpp:365-372 | two date strings are equal exactly when year, month and day are, so day rotation fires exactly on a change of calendar day |
| LogTime.StampStringInjective | sdk/log/async_logger.cpp:397-400 | two stamps are equal exactly when the times are |
| LogText.ParseLogLevel | sdk/log/async_logger.cpp:267-273 | the result is not OFF exactly when the string is one of the four labels (case-sensitive, exact), and then the level's label is that string |
| LogText.ParseLabel | sdk/log/async_logger.cpp:267-273 | each label the macros pass maps back to its own level |
| LogText.FindFrom | sdk/log/async_logger.cpp:497-498 | `find(c, from)`: the first position at or after `from` holding `c`, or none when no such position exists |
| LogText.TagStart | sdk/log/async_logger.cpp:497 | the start of the level tag (one past the second `[`, or 0 when a search fails because `npos + 1` wraps) never lies past the end of the line |
| LogText.ExtractTag | sdk/log/async_logger.cpp:497-499 | the extracted tag holds no `]` and is no longer than the line |
| LogText.FormatLine | sdk/log/async_logger.cpp:425-428 | the queued line is `[`, the time, `] [`, the level string, `] `, then the message: its length is their lengths plus six, with the brackets at those positions |
| LogText.LevelOfLine | sdk/log/async_logger.cpp:496-504 | the worker's level is a named severity exactly when the extracted tag is one of the four labels, and then its label is that tag; any other tag gives OFF |
| LogText.ExtractRecoversLabel | sdk/log/async_logger.cpp:497-499 | for the line `"[" + time + "] [" + levelStr + "] " + message` built at 425-428, the extraction returns `levelStr` whenever `time` has no `[` and `levelStr` no `]` |
| LogText.WorkerRecoversLevel | sdk/log/async_logger.cpp:497-504 | a line logged with a real clock reading and a macro label is dispatched at that very level |
| LogText.TimeErrorMisreadsLevel | sdk/log/async_logger.cpp:305-316 | with the fallback time `TimeError[22]` an ERROR line's tag reads `22` and its level OFF |
| LogText.ColorCode | sdk/log/async_logger.cpp:334-348 | empty exactly when colour is off; with colour on, ESC`[31m` for ERROR, ESC`[33m` for WARN, ESC`[32m` for INFO, ESC`[36m` for DEBUG, and the reset code ESC`[0m` for OFF |
| LogText.ColorCodesDistinct | sdk/log/async_logger.cpp:341-346 | distinct levels get distinct colours |
| LogText.SyslogPriority | sdk/log/async_logger.cpp:536-541 | ERROR, WARN and DEBUG map to LOG_ERR, LOG_WARNING and LOG_DEBUG exactly; INFO and OFF map to LOG_INFO |
| LogText.BackupName | sdk/log/async_logger.cpp:397-400 | the backup name is the log path, `_`, then the 15-character stamp |
| LogText.BackupNamesDistinct | sdk/log/async_logger.cpp:397-404 | rotations at different seconds pick different names, and no backup takes the active file's path |
| ConfigFile.TrimLeftFacts | sdk/log/async_logger.cpp:176 | left trimming removes a run of blanks (space, tab) from the front and stops at a non-blank |
| ConfigFile.TrimRightFacts | sdk/log/async_logger.cpp:177 | right trimming removes a run of blanks from the back and stops at a non-blank |
| ConfigFile.Trim | sdk/log/async_logger.cpp:175-177 | the result has no blank at either end, is no longer than the input, and is empty exactly when the line is all blanks |
| ConfigFile.TrimIsInfix | sdk/log/async_logger.cpp:175-177 | the trimmed line is a contiguous piece of the line |
| ConfigFile.TrimPadded | sdk/log/async_logger.cpp:175-177 | trimming a string padded with blanks on both sides gives the string back |
| ConfigFile.Classify | sdk/log/async_logger.cpp:174-203 | section names, keys and values come out trimmed |
| ConfigFile.IgnoresBlankAndComments | sdk/log/async_logger.cpp:179-182 | blank lines and lines starting with `;` or `#` are skipped |
| ConfigFile.IgnoresLinesWithoutEquals | sdk/log/async_logger.cpp:192-196 | a line that is not a header and has no `=` is skipped |
| ConfigFile.HeaderSelectsTrimmedSection | sdk/log/async_logger.cpp:184-190 | `[name]` with blanks inside or outside the brackets selects section `name` |
| ConfigFile.EntrySplitsAtFirstEquals | sdk/log/async_logger.cpp:174-203 | a padded `key = value` line yields that key and value, split at the first `=`: the value may contain `=`, either side may be empty (`log_file=`, `=x`), and a key may start with `[` unless the value ends in `]` (then the line is a header) |
| ConfigFile.Stoi | sdk/log/async_logger.cpp:220 | `std::stoi` yields only values within `int` |
| ConfigFile.StoiReadsInt | sdk/log/async_logger.cpp:218-229 | every `int` from INT_MIN to INT_MAX, written as `operator<<` writes it (a `-` before the digits of a negative number), reads back as itself after leading white space and before trailing text that does not start with a digit |
| ConfigFile.ReadUnsigned | sdk/log/async_logger.cpp:218-229 | unsigned digits are read as their value when it is at most INT_MAX and rejected above it |
| ConfigFile.ReadNegative | sdk/log/async_logger.cpp:218-229 | digits after `-` are read as the negated value when it is at least INT_MIN and rejected below it |
| ConfigFile.StoiRejectsOutOfRange | sdk/log/async_logger.cpp:218-229 | a number above INT_MAX, or below INT_MIN with its `-`, throws `out_of_range` and is ignored |
| ConfigFile.StoiRejects | sdk/log/async_logger.cpp:218-229 | every value that, after leading white space, is empty, starts with neither a digit nor a sign, or has a sign not followed by a digit throws `invalid_argument` and is ignored |
| ConfigFile.SignAloneRejected | sdk/log/async_logger.cpp:218-229 | a sign not followed by a digit throws |
| ConfigFile.NoDigitsRejected | sdk/log/async_logger.cpp:218-229 | text starting with neither a digit nor a sign throws |
| ConfigFile.ParseBool | sdk/log/async_logger.cpp:210-215 | a flag is true exactly for `true`, `1` or `yes` |
| ConfigFile.SizeT | sdk/log/async_logger.cpp:220 | the `int` to `size_t` conversion is below 2^64 and the identity on values already in range |
| ConfigFile.ApplyEntry | sdk/log/async_logger.cpp:205-230 | applying an entry never changes the section, changes the runtime level only for key `level`, and changes nothing for a key outside the seven known keys |
| ConfigFile.Step | sdk/log/async_logger.cpp:174-231 | one loop iteration: only a header changes the section (to its trimmed name); outside section `logger` a line changes neither configuration nor level; an entry with an unknown key changes nothing |
| ConfigFile.StepKnownKeys | sdk/log/async_logger.cpp:205-230 | inside section `logger`: `level` sets both the configuration's and the runtime level to `parseLogLevel(value)`; `enable_console`, `enable_file`, `enable_color` take the boolean word; `log_file` takes the value; `max_file_size` takes the `stoi` value times 1024 × 1024 as `size_t`, and `max_backup_files` the `stoi` value; each of the two is left unchanged when `stoi` throws; nothing else changes |
| ConfigFile.MaxFileSizeInMegabytes | sdk/log/async_logger.cpp:218-223 | `max_file_size` n becomes n × 1048576 bytes; an unparseable value leaves everything unchanged |
| ConfigFile.NoLoggerSectionNoChange | sdk/log/async_logger.cpp:205-206 | a file that never opens section `logger` leaves configuration and level as they were |
| ConfigFile.ParseLinesAppend | sdk/log/async_logger.cpp:174-231 | parsing two pieces of a file in turn is parsing the whole file |
| LoggerSpec.InitStartsWorkerOnce | sdk/log/async_logger.cpp:112-160 | a worker starts exactly when none runs, and a second `init` never starts another; the configuration and level are replaced, and the date is recorded |
| LoggerSpec.InitIdempotent | sdk/log/async_logger.cpp:112-160 | a repeated `init` with the same configuration and date changes nothing when file output is off; once the file is open it changes only the stream's failbit, which it sets |
| LoggerSpec.InitKeepsOpenFile | sdk/log/async_logger.cpp:135-141 | an already open stream stays on its file; with file output on, the failed open sets its failbit |
| LoggerSpec.LoadConfigRules | sdk/log/async_logger.cpp:163-241 | an unreadable file changes nothing and returns false; a readable one returns true, leaves the logger running (starting a worker only if none ran) and touches only configuration and level; without a `logger` section, nothing at all |
| LoggerSpec.SetLevelRangeChecked | sdk/log/async_logger.cpp:244-248 | values 0..4 set the level to that ordinal; anything else is a no-op; nothing but the level changes |
| LoggerSpec.UpdateConfigReopens | sdk/log/async_logger.cpp:251-263 | the configuration and level are replaced; the file is reopened only when file output is on and the path changed, and the reopen's outcome sets or clears the failbit; queue, counters and run flag are untouched |
| LoggerSpec.LogGate | sdk/log/async_logger.cpp:412-416 | a call changes the state if and only if the logger runs and the level is admitted |
| LoggerSpec.LogAppends | sdk/log/async_logger.cpp:418-446 | an accepted record is appended, formatted, at the back; the total rises by one, the dropped count stays, the peak covers the new length and never decreases |
| LoggerSpec.LogDropsNewest | sdk/log/async_logger.cpp:431-437 | with the queue full, the queue is unchanged, and both total and dropped rise by one |
| LoggerSpec.NothingLoggedBeforeInit | sdk/log/async_logger.cpp:83-96 | the freshly constructed logger ignores every record |
| LoggerSpec.ResetStatsZeroes | sdk/log/async_logger.cpp:457-460 | all four counters read zero after a reset; queue and configuration are kept |
| LoggerSpec.RotationPriority | sdk/log/async_logger.cpp:351-383 | no rotation without file output and an open file; a new day rotates first; a size rotation happens exactly when the day rule does not fire and either size ≥ limit or the stream is failed (`tellp` gives -1); an open, failed stream is always rotated |
| LoggerSpec.RotationOncePerDay | sdk/log/async_logger.cpp:363-374 | a day rotation moves the file to its backup name, reopens the path (failbit cleared exactly when the reopen succeeds) and records the date, so the same day cannot rotate by day again |
| LoggerSpec.RotationFrame | sdk/log/async_logger.cpp:386-409 | a rotation changes only the stream, its failbit and the rotation date, and leaves no open stream failed; a backup name is reported exactly when a rotation happened |
| LoggerSpec.WorkerTakesFront | sdk/log/async_logger.cpp:466-556 | the worker dispatches the front line and leaves the rest in order; only the write time is added; console and syslog output exactly as configured; the line reaches the file exactly when file output is on and the stream was open before and after the rotation check; a failed stream is always rotated first |
| LoggerSpec.WorkerHonoursSeverity | sdk/log/async_logger.cpp:497-541 | a logged line is coloured and sent to syslog at the level it was logged with |
| LoggerSpec.WorkerStepQueueAndStats | sdk/log/async_logger.cpp:466-556 | a worker iteration removes the front line, if any, and leaves total, dropped and peak unchanged |
| LoggerSpec.ShutdownDrains | sdk/log/async_logger.cpp:559-588 | after shutdown the queue is empty and nothing is accepted; every line still queued was written in order to the console if enabled and to an open file without its failbit set; a failed stream gets none |
| LoggerSpec.RepeatedInitFailsStream | sdk/log/async_logger.cpp:136-137 | after a second `init` with file output on and the file open, the stream is failed, so the next rotation check rotates whatever the size, and a shutdown drain writes nothing to the file |
| LoggerSpec.StepOpQueue | sdk/log/async_logger.cpp:431-483 | one operation adds at most one line at the back or removes one at the front |
| LoggerSpec.RunIsFifo | sdk/log/async_logger.cpp:438-483 | over any run, lines dequeued then lines still queued equal lines queued at the start then lines enqueued, in order |
| LoggerSpec.RunThenShutdownDeliversAll | sdk/log/async_logger.cpp:466-588 | over any run then shutdown, the worker's lines followed by the drain's console (or file) output are exactly the initially queued lines followed by those enqueued, in order, for each output that is on (and, for the file, open and not failed) |
| LoggerSpec.LogKeepsInv | sdk/log/async_logger.cpp:431-446 | `log` keeps the queue within 100000 lines, dropped ≤ total, and the peak within capacity |
| LoggerSpec.WorkerStepKeepsInv | sdk/log/async_logger.cpp:476-487 | a worker iteration keeps the invariant |
| LoggerSpec.StepOpKeepsInv | sdk/log/async_logger.cpp:431-438 | every operation keeps the invariant |
| LoggerSpec.RunKeepsInv | sdk/log/async_logger.cpp:431-438 | the queue never exceeds 100000 lines and dropped never exceeds total, along every run |
| LoggerSpec.InitialInv | sdk/log/async_logger.cpp:83-96 | the constructed logger satisfies the invariant |
| LoggerSpec.StepOpCounts | sdk/log/async_logger.cpp:419-437 | each counted submission is either enqueued or dropped |
| LoggerSpec.RunCountsSubmissions | sdk/log/async_logger.cpp:419-437 | without a reset, the growth of the total equals lines enqueued plus the growth of dropped, and neither counter decreases |
| Logger.AsyncLogger.constructor | sdk/log/async_logger.cpp:83-96 | stopped, level OFF, default configuration, empty queue, zero counters |
| Logger.AsyncLogger.OpenFile | sdk/log/async_logger.cpp:137 | `ofstream::open`: an open stream stays open with its failbit set; a closed stream opens and clears it when allowed, otherwise stays closed and sets it |
| Logger.AsyncLogger.Init | sdk/log/async_logger.cpp:112-160 | leaves exactly the `InitSpec` state and reports whether it started the worker |
| Logger.AsyncLogger.LoadConfigFromFile | sdk/log/async_logger.cpp:163-241 | leaves exactly the `LoadConfigSpec` state and result |
| Logger.AsyncLogger.ParseConfigLines | sdk/log/async_logger.cpp:174-231 | the line loop updates configuration and level in place to the result of parsing all lines, and touches nothing else |
| Logger.AsyncLogger.SetRuntimeLogLevel | sdk/log/async_logger.cpp:244-248 | leaves exactly the `SetLevelSpec` state |
| Logger.AsyncLogger.UpdateConfig | sdk/log/async_logger.cpp:251-263 | leaves exactly the `UpdateConfigSpec` state |
| Logger.AsyncLogger.Log | sdk/log/async_logger.cpp:412-447 | leaves exactly the `LogSpec` state and keeps the invariant |
| Logger.AsyncLogger.GetStats | sdk/log/async_logger.cpp:451-454 | returns the counters of the abstract state |
| Logger.AsyncLogger.ResetStats | sdk/log/async_logger.cpp:457-460 | zeroes the counters and nothing else |
| Logger.AsyncLogger.RotateLogFile | sdk/log/async_logger.cpp:386-409 | reports the backup name and reopens the configured path; nothing else changes |
| Logger.AsyncLogger.CheckLogRotation | sdk/log/async_logger.cpp:351-383 | leaves exactly the `CheckRotationSpec` state and backup |
| Logger.AsyncLogger.WorkerStep | sdk/log/async_logger.cpp:466-487 | one main-loop iteration: pops the front line and dispatches it as `WorkerStepSpec` says; keeps the invariant |
| Logger.AsyncLogger.DispatchLine | sdk/log/async_logger.cpp:489-556 | console, rotation check and file, syslog and write time for one line, as `DispatchSpec` says |
| Logger.AsyncLogger.Drain | sdk/log/async_logger.cpp:559-588 | pops every remaining line and writes each, in order, to the console and to the file as configured; a stream with its failbit set takes none; only the queue changes |
| Logger.AsyncLogger.Shutdown | sdk/log/async_logger.cpp:98-109 | stops, drains and closes, as `ShutdownSpec` says, including the failed-stream case |
| Digits.IntString | sdk/log/async_logger.h:260 | an `int` prints non-empty, with a leading `-` exactly when negative |
| LogMacros.SitePrefix | sdk/log/async_logger.h:258-263 | the call-site prefix opens with `[`, the file name and `:`, closes with `] `, and is five characters longer than file, line number and function together |
| LogMacros.MacroMessage | sdk/log/async_logger.h:258-308 | the message starts with `[`, ends with the formatted text, and in the module variants starts with `[module] ` |
| LogMacros.Expand | sdk/log/async_logger.h:251-308 | a macro expands to a `log` call exactly when `YUTILS_LOG_LEVEL` reaches its severity's ordinal, and the call carries that severity, its label and the macro's message |
| LogMacros.CompileTimeGate | sdk/log/async_logger.h:251-299 | a higher `YUTILS_LOG_LEVEL` keeps every macro a lower one keeps; the default 4 keeps all, 0 none |
| LogMacros.MacroMessageShape | sdk/log/async_logger.h:303-308 | the plain message starts with the call-site prefix; a module variant is the plain message with `[module] ` in front |
| LogMacros.MacroRecordRoundTrip | sdk/log/async_logger.h:258-263 | a compiled-in macro record is queued when accepted and read back by the worker at its own level |
| LogMacros.StreamMessage | sdk/log/async_logger.cpp:67-74 | the stream's message starts with `[`, ends with the accumulated text, starts with `[module] ` for a non-empty module, and is the call-site prefix then the text otherwise |
| LogMacros.StreamMatchesMacro | sdk/log/async_logger.cpp:67-74 | the stream's message equals the macros' message, except for an empty module |
| LogMacros.LogStream.constructor | sdk/log/async_logger.cpp:60-64 | stores the call site, with empty text, not yet submitted |
| LogMacros.LogStream.Append | sdk/log/async_logger.h:232-236 | `operator<<` appends to the text and returns the same stream |
| LogMacros.LogStream.Submit | sdk/log/async_logger.cpp:67-74 | the destructor submits the message once at the stream's level and label |
| LogMacros.StreamStatement | sdk/log/async_logger.h:346-392 | `STREAM << a << b;` submits the message with text `a + b` exactly once |
| ExecPathUtils.NormalizePath | sdk/utils/exec_path_utils.cpp:147-162 | the loop computes `Normalize` |
| ExecPathUtils.NormalizePrefixFacts | sdk/utils/exec_path_utils.cpp:152-158 | after each iteration the result ends with the last character read, holds no adjacent separators, and keeps the non-separators |
| ExecPathUtils.NormalizeHasNoAdjacentSeparators | sdk/utils/exec_path_utils.cpp:152-158 | the output never contains two adjacent separators |
| ExecPathUtils.NormalizeRemovesOnlySeparators | sdk/utils/exec_path_utils.cpp:149-161 | non-separators are kept in order; the output is no longer; first and last characters are kept; empty exactly for empty |
| ExecPathUtils.NormalizeFixedPoints | sdk/utils/exec_path_utils.cpp:152-158 | a path is unchanged exactly when it has no adjacent separators |
| ExecPathUtils.NormalizeIdempotent | sdk/utils/exec_path_utils.cpp:147-162 | normalising twice equals normalising once |
| ExecPathUtils.PathJoin | sdk/utils/exec_path_utils.cpp:80-100 | the method computes `JoinResult` |
| ExecPathUtils.JoinWithEmptySide | sdk/utils/exec_path_utils.cpp:81-82 | an empty side returns the other unchanged, not normalised |
| ExecPathUtils.JoinBothSides | sdk/utils/exec_path_utils.cpp:84-99 | with both sides present: no adjacent separators, the non-separators of the directory then of the name, and the directory's first character first |
| ExecPathUtils.JoinedParts | sdk/utils/exec_path_utils.cpp:85-97 | before normalising, the string keeps the non-separators of both sides |
| ExecPathUtils.JoinCleanParts | sdk/utils/exec_path_utils.cpp:84-99 | a clean directory and a clean relative name are joined with exactly one separator |
| ExecPathUtils.FindLast | sdk/utils/exec_path_utils.cpp:72 | `find_last_of`: the last position holding the separator, or none |
| ExecPathUtils.ExecutableDir | sdk/utils/exec_path_utils.cpp:70-77 | `"."` when the path holds no separator; otherwise the part of the path before a separator that has no separator after it |
| ExecPathUtils.DirectoryOfPath | sdk/utils/exec_path_utils.cpp:70-77 | the directory is the text before the last separator, and `"."` when there is none |
| ExecPathUtils.RootExecutableDir | sdk/utils/exec_path_utils.cpp:70-77 | for `/app` the directory is `""`, and files resolve to bare names |
| ExecPathUtils.GetFileInExeDir | sdk/utils/exec_path_utils.cpp:112-125 | the method computes `FileInExeDir` |
| ExecPathUtils.FileInExeDirChecks | sdk/utils/exec_path_utils.cpp:112-125 | an error exactly for the empty name; `..` is accepted; otherwise the name is joined to the directory |
| ExecPathUtils.FileNextToExecutable | sdk/utils/exec_path_utils.cpp:112-125 | for a clean executable path `dir/exe` and a clean relative name the result is `dir/name` |

## Left out

- **Threads and synchronisation.** Threads, mutexes, the condition variable and `std::atomic` are not modelled. Each lock-protected region is one atomic step, and the worker's main loop is split into single iterations the caller interleaves.
- **Unsynchronised reads.** The race between `log` reading `running_` and a concurrent shutdown is not modelled, and neither is the worker reading `log_file_` outside the config lock.
- **Real I/O.** This covers:
  - console writes and `std::endl` flushing;
  - file writes, `seekp`/`tellp`, `rename`/`MoveFileA`;
  - `openlog`/`syslog`/`closelog`, the Windows Event Log, and `std::ifstream`/`getline`.

  File size, open success and file contents are inputs. Dispatches are returned as values.
- **Stream state beyond the failbit set by `open`.** The model tracks the failbit that a failed `open` sets and a successful one clears. It does not model a write failure (a full disk, say) or `badbit`. A line written to an open stream without the failbit counts as written.
- **Windows console set-up and the Event Log.** Only the Linux syslog priority mapping is modelled. The Windows event-type mapping (lines 523-534 of `sdk/log/async_logger.cpp`) is not.
- **`loadConfigFromEnv`.** It reads `getenv`, which is outside the model.
- **`formatLog`.** It is a `vsnprintf` wrapper; its result is an input string.
- **Clocks.** `getFormattedTime`, `time`/`localtime_r`/`strftime` and the `high_resolution_clock` timings are inputs (`LocalTime`, a time string, a write cost). The model also does not capture these timing details:
  - `checkLogRotation` and `rotateLogFile` read the clock separately, but the model passes one `now` to both;
  - the years are limited to four digits.
- **Fields that are never read.** `enable_modules`, `filter_keywords` and `max_backup_files` are stored but never read, so no filtering or backup pruning is modelled.
- **The bookkeeping field `current_queue_size_`.** It is set from the queue's length after a push or a worker pop (lines 439 and 481 of `sdk/log/async_logger.cpp`) and read only right after being set (line 443), where it equals the queue's length. The shutdown drain pops without updating it (line 567), but nothing reads it afterwards. The model uses the queue's length in its place.
- ConfigFile.MaxFileSizeInMegabytes: states the product only for 0..2047. `stoi(value) * 1024 * 1024` overflows `int` (undefined behaviour) beyond that. The model reduces the product modulo 2^64 and claims nothing there.
- **Counter wrap-around.** The counters are unbounded naturals; `uint64_t` wrap-around is not modelled.
- LoggerSpec.RunCountsSubmissions: holds only for runs without `resetStats`, which zeroes the counters.
- **`getExecutablePath` and `checkFileInExeDir`.** These are OS calls (`readlink`, `GetModuleFileNameW`, `stat`). The executable's path is a parameter.
- **The earth and math modules.** They are floating-point numerics, and neither is part of this model.
