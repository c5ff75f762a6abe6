/** The logger singleton as a single-threaded state machine. Each public operation and
    each iteration of the background worker is a function from the old state (and the
    operation's inputs: clock readings, the outcome of opening a file, the size of the
    open file, the time a write took) to the new state and what the operation emits.
    The class in module `Logger` is proved to follow these functions; the lemmas here
    state what the logger promises about them. */
module LoggerSpec {
  import opened Wrappers
  import opened LogTypes
  import opened LogTime
  import opened LogText
  import opened ConfigFile

  /** The observable fields of `AsyncLogger`. `openFile` is the path the file stream is
      open on, or `None` when it is closed; `fileFailed` is the stream's failbit. */
  datatype LoggerState = LoggerState(
    running: bool,
    runtimeLevel: LogLevel,
    config: LogConfig,
    queue: seq<string>,
    stats: LogStats,
    lastRotateDate: string,
    openFile: Option<string>,
    fileFailed: bool)

  /** The state the private constructor leaves: stopped, threshold OFF, default
      configuration, empty queue, zero statistics, no rotation date, no file. */
  function Initial(): LoggerState
  {
    LoggerState(false, Off, DefaultConfig(), [], InitialStats(), "", None, false)
  }

  /** What every reachable state satisfies: the queue never exceeds its capacity, drops
      are among the submissions counted, the recorded peak is a possible queue length,
      and no queued line is empty. */
  predicate Inv(s: LoggerState)
  {
    |s.queue| <= MaxQueueSize
    && s.stats.droppedLogs <= s.stats.totalLogs
    && s.stats.maxQueueSize <= MaxQueueSize
    && forall i | 0 <= i < |s.queue| :: s.queue[i] != []
  }

  /** `ofstream::open`, giving the new open path and failbit. It fails on a stream that is
      already open, which then stays open on its old file with its failbit set. On a
      closed stream it opens `path` and clears the failbit when the system allows it, and
      sets the failbit otherwise. (`close` on an open stream keeps the failbit.) */
  function Open(current: Option<string>, path: string, ok: bool): (r: (Option<string>, bool))
    ensures r.1 <==> current.Some? || !ok
    ensures current.Some? ==> r.0 == current
    ensures current.None? ==> r.0 == (if ok then Some(path) else None)
  {
    if current.Some? then (current, true) else if ok then (Some(path), false) else (None, true)
  }

  // ---------------------------------------------------------------- init

  /** `init`: adopt the configuration and its runtime level, open the file when file
      output is on, record today's date for rotation, and start the worker unless it is
      already running. The second component says whether a worker was started. */
  function InitSpec(s: LoggerState, config: LogConfig, now: LocalTime, openOk: bool): (LoggerState, bool)
    requires ValidTime(now)
  {
    var (file, failed) := if config.enableFile then Open(s.openFile, config.logFile, openOk) else (s.openFile, s.fileFailed);
    (s.(config := config, runtimeLevel := config.runtimeLevel, openFile := file, fileFailed := failed,
        lastRotateDate := DateString(now), running := true),
     !s.running)
  }

  /** A worker is started exactly when none was running; afterwards the logger runs with
      the given configuration and level, dated today. */
  lemma InitStartsWorkerOnce(s: LoggerState, config: LogConfig, now: LocalTime, openOk: bool)
    requires ValidTime(now)
    ensures InitSpec(s, config, now, openOk).1 <==> !s.running
    ensures var s1 := InitSpec(s, config, now, openOk).0;
      s1.running && s1.config == config && s1.runtimeLevel == config.runtimeLevel
      && s1.lastRotateDate == DateString(now) && s1.queue == s.queue && s1.stats == s.stats
    ensures !InitSpec(InitSpec(s, config, now, openOk).0, config, now, openOk).1
  {
  }

  /** Calling `init` again with the same configuration at the same date starts no second
      worker. With file output off it changes nothing; with the file open, the second
      open fails and changes nothing but the stream's failbit, which it sets. */
  lemma InitIdempotent(s: LoggerState, config: LogConfig, now: LocalTime, ok1: bool, ok2: bool)
    requires ValidTime(now)
    requires InitSpec(s, config, now, ok1).0.openFile.Some? || !config.enableFile
    ensures var s1 := InitSpec(s, config, now, ok1).0;
      !config.enableFile ==> InitSpec(s1, config, now, ok2).0 == s1
    ensures var s1 := InitSpec(s, config, now, ok1).0;
      config.enableFile ==> InitSpec(s1, config, now, ok2).0 == s1.(fileFailed := true)
  {
  }

  /** A stream that is already open stays on its file, even when `init` names another path:
      it cannot be reopened while open, and with file output on the attempt sets its
      failbit. */
  lemma InitKeepsOpenFile(s: LoggerState, config: LogConfig, now: LocalTime, openOk: bool)
    requires ValidTime(now) && s.openFile.Some?
    ensures InitSpec(s, config, now, openOk).0.openFile == s.openFile
    ensures config.enableFile ==> InitSpec(s, config, now, openOk).0.fileFailed
    ensures !config.enableFile ==> InitSpec(s, config, now, openOk).0.fileFailed == s.fileFailed
  {
  }

  // ---------------------------------------------------------------- loadConfigFromFile

  /** `loadConfigFromFile` given the file's lines, or `None` when it cannot be opened. The
      lines are parsed from an empty section into the current configuration and level; a
      worker is started if none runs. Components: new state, the returned flag, and
      whether a worker was started. The log file is not (re)opened here. */
  function LoadConfigSpec(s: LoggerState, contents: Option<seq<string>>): (LoggerState, bool, bool)
  {
    match contents
    case None => (s, false, false)
    case Some(lines) =>
      var ps := ParseLines(ParseState("", s.config, s.runtimeLevel), lines);
      (s.(config := ps.config, runtimeLevel := ps.level, running := true), true, !s.running)
  }

  /** An unreadable file changes nothing and reports failure; a readable one reports
      success, leaves the logger running and touches nothing but configuration and level.
      A file that never opens section `logger` leaves them as they were. */
  lemma LoadConfigRules(s: LoggerState, contents: Option<seq<string>>)
    ensures contents.None? ==> LoadConfigSpec(s, contents) == (s, false, false)
    ensures contents.Some? ==>
      var (s1, ok, started) := LoadConfigSpec(s, contents);
      ok && s1.running && (started <==> !s.running)
      && s1.queue == s.queue && s1.stats == s.stats && s1.openFile == s.openFile
      && s1.lastRotateDate == s.lastRotateDate
    ensures contents.Some? && (forall i | 0 <= i < |contents.value| :: Classify(contents.value[i]) != SectionHeader("logger")) ==>
      LoadConfigSpec(s, contents).0.config == s.config && LoadConfigSpec(s, contents).0.runtimeLevel == s.runtimeLevel
  {
    if contents.Some? && (forall i | 0 <= i < |contents.value| :: Classify(contents.value[i]) != SectionHeader("logger")) {
      NoLoggerSectionNoChange(ParseState("", s.config, s.runtimeLevel), contents.value);
    }
  }

  // ---------------------------------------------------------------- setRuntimeLogLevel

  /** `setRuntimeLogLevel`: the argument is the enumeration's underlying integer; a value
      outside OFF..DEBUG is ignored. The stored configuration is not touched. */
  function SetLevelSpec(s: LoggerState, raw: int): LoggerState
  {
    match FromOrdinal(raw)
    case None => s
    case Some(l) => s.(runtimeLevel := l)
  }

  lemma SetLevelRangeChecked(s: LoggerState, raw: int)
    ensures 0 <= raw <= 4 ==> Ordinal(SetLevelSpec(s, raw).runtimeLevel) == raw
    ensures !(0 <= raw <= 4) ==> SetLevelSpec(s, raw) == s
    ensures SetLevelSpec(s, raw) == s.(runtimeLevel := SetLevelSpec(s, raw).runtimeLevel)
  {
  }

  // ---------------------------------------------------------------- updateConfig

  /** `updateConfig`: when file output is on and the path changed, close the stream and
      open the new path; then adopt the configuration and its level. */
  function UpdateConfigSpec(s: LoggerState, config: LogConfig, openOk: bool): LoggerState
  {
    var (file, failed) := if config.enableFile && config.logFile != s.config.logFile
      then Open(None, config.logFile, openOk) else (s.openFile, s.fileFailed);
    s.(config := config, runtimeLevel := config.runtimeLevel, openFile := file, fileFailed := failed)
  }

  /** The file is switched only for a new path with file output on; turning file output
      off does not close the stream. The queue, statistics and run flag are untouched. */
  lemma UpdateConfigReopens(s: LoggerState, config: LogConfig, openOk: bool)
    ensures var s1 := UpdateConfigSpec(s, config, openOk);
      s1.config == config && s1.runtimeLevel == config.runtimeLevel
      && s1.queue == s.queue && s1.stats == s.stats && s1.running == s.running
      && s1.lastRotateDate == s.lastRotateDate
    ensures config.enableFile && config.logFile != s.config.logFile ==>
      UpdateConfigSpec(s, config, openOk).openFile == (if openOk then Some(config.logFile) else None)
      && UpdateConfigSpec(s, config, openOk).fileFailed == !openOk
    ensures !(config.enableFile && config.logFile != s.config.logFile) ==>
      UpdateConfigSpec(s, config, openOk).openFile == s.openFile
      && UpdateConfigSpec(s, config, openOk).fileFailed == s.fileFailed
  {
  }

  // ---------------------------------------------------------------- log

  /** Whether `log` enqueues: running, admitted by the runtime level, and room left. */
  predicate Accepts(s: LoggerState, level: LogLevel)
  {
    s.running && Admits(level, s.runtimeLevel) && |s.queue| < MaxQueueSize
  }

  /** `log`: records above the runtime level, or submitted while stopped, vanish without
      trace; every other record is counted, then either appended (formatted with the time
      reading `time`) and the peak queue length updated, or, with the queue full, dropped
      and counted as dropped. */
  function LogSpec(s: LoggerState, level: LogLevel, levelStr: string, message: string, time: string): LoggerState
  {
    if !s.running || !Admits(level, s.runtimeLevel) then s
    else
      var counted := s.stats.(totalLogs := s.stats.totalLogs + 1);
      if |s.queue| >= MaxQueueSize then
        s.(stats := counted.(droppedLogs := counted.droppedLogs + 1))
      else
        var q := s.queue + [FormatLine(time, levelStr, message)];
        s.(queue := q, stats := counted.(maxQueueSize := if |q| > counted.maxQueueSize then |q| else counted.maxQueueSize))
  }

  /** The gate, both ways: a call changes the state if and only if the logger is running
      and the level is admitted. */
  lemma LogGate(s: LoggerState, level: LogLevel, levelStr: string, message: string, time: string)
    ensures LogSpec(s, level, levelStr, message, time) == s <==> !(s.running && Admits(level, s.runtimeLevel))
  {
    if s.running && Admits(level, s.runtimeLevel) {
      assert LogSpec(s, level, levelStr, message, time).stats.totalLogs == s.stats.totalLogs + 1;
    }
  }

  /** An accepted record lands at the back of the queue, formatted; it is counted, not
      dropped, and the peak covers the new length. */
  lemma LogAppends(s: LoggerState, level: LogLevel, levelStr: string, message: string, time: string)
    requires Accepts(s, level)
    ensures var s1 := LogSpec(s, level, levelStr, message, time);
      s1.queue == s.queue + [FormatLine(time, levelStr, message)]
      && s1.stats.totalLogs == s.stats.totalLogs + 1 && s1.stats.droppedLogs == s.stats.droppedLogs
      && s1.stats.maxQueueSize >= |s1.queue| && s1.stats.maxQueueSize >= s.stats.maxQueueSize
      && s1.stats.totalWriteTime == s.stats.totalWriteTime
      && s1 == s.(queue := s1.queue, stats := s1.stats)
  {
  }

  /** With the queue full, the newest record is the one dropped: the queue is unchanged
      and both the total and the dropped count go up by one. */
  lemma LogDropsNewest(s: LoggerState, level: LogLevel, levelStr: string, message: string, time: string)
    requires s.running && Admits(level, s.runtimeLevel) && |s.queue| >= MaxQueueSize
    ensures var s1 := LogSpec(s, level, levelStr, message, time);
      s1.queue == s.queue && s1.stats.totalLogs == s.stats.totalLogs + 1
      && s1.stats.droppedLogs == s.stats.droppedLogs + 1
      && s1.stats.maxQueueSize == s.stats.maxQueueSize
  {
  }

  /** Nothing is logged before `init` (or `loadConfigFromFile`) has started the logger. */
  lemma NothingLoggedBeforeInit(level: LogLevel, levelStr: string, message: string, time: string)
    ensures LogSpec(Initial(), level, levelStr, message, time) == Initial()
  {
  }

  // ---------------------------------------------------------------- statistics

  /** `resetStats`: all four counters back to zero. */
  function ResetStatsSpec(s: LoggerState): LoggerState
  {
    s.(stats := InitialStats())
  }

  lemma ResetStatsZeroes(s: LoggerState)
    ensures var r := ResetStatsSpec(s).stats;
      r.totalLogs == 0 && r.droppedLogs == 0 && r.totalWriteTime == 0 && r.maxQueueSize == 0
    ensures ResetStatsSpec(s).queue == s.queue && ResetStatsSpec(s).config == s.config
    ensures ResetStatsSpec(ResetStatsSpec(s)) == ResetStatsSpec(s)
  {
  }

  // ---------------------------------------------------------------- rotation

  datatype Rotation = NoRotation | RotateForNewDay | RotateForSize

  /** `checkLogRotation`'s decision, given the clock and the size of the open file. On a
      stream whose failbit is set, `seekp` does nothing and `tellp` returns -1, which as a
      `size_t` is the largest size there is: the size limit is always reached. */
  function RotationFor(s: LoggerState, now: LocalTime, fileSize: nat): Rotation
    requires ValidTime(now)
  {
    if !s.config.enableFile || s.openFile.None? then NoRotation
    else if s.config.rotateByDay && DateString(now) != s.lastRotateDate then RotateForNewDay
    else if s.fileFailed || fileSize >= s.config.maxFileSize then RotateForSize
    else NoRotation
  }

  /** `checkLogRotation` with `rotateLogFile`: close the stream, rename the configured file
      to its backup name, reopen the configured path; a day rotation also records the new
      date. The second component is the backup name, when a rotation took place. */
  function CheckRotationSpec(s: LoggerState, now: LocalTime, fileSize: nat, reopenOk: bool): (LoggerState, Option<string>)
    requires ValidTime(now)
  {
    match RotationFor(s, now, fileSize)
    case NoRotation => (s, None)
    case RotateForNewDay =>
      var (file, failed) := Open(None, s.config.logFile, reopenOk);
      (s.(openFile := file, fileFailed := failed, lastRotateDate := DateString(now)),
       Some(BackupName(s.config.logFile, now)))
    case RotateForSize =>
      var (file, failed) := Open(None, s.config.logFile, reopenOk);
      (s.(openFile := file, fileFailed := failed), Some(BackupName(s.config.logFile, now)))
  }

  /** No rotation without an open file and file output; a change of date wins over the
      size limit; the size limit applies when the date is unchanged or day rotation is off,
      and a failed stream always reaches it. */
  lemma RotationPriority(s: LoggerState, now: LocalTime, fileSize: nat)
    requires ValidTime(now)
    ensures !s.config.enableFile || s.openFile.None? ==> RotationFor(s, now, fileSize) == NoRotation
    ensures s.config.enableFile && s.openFile.Some? && s.config.rotateByDay && DateString(now) != s.lastRotateDate
      ==> RotationFor(s, now, fileSize) == RotateForNewDay
    ensures RotationFor(s, now, fileSize) == RotateForSize <==>
      (s.config.enableFile && s.openFile.Some? && !(s.config.rotateByDay && DateString(now) != s.lastRotateDate)
       && (s.fileFailed || fileSize >= s.config.maxFileSize))
    ensures s.config.enableFile && s.openFile.Some? && s.fileFailed ==> RotationFor(s, now, fileSize) != NoRotation
  {
  }

  /** After a rotation the stream is open on the configured path (if reopening worked) and
      the old contents sit under the backup name; a day rotation happens once per date:
      checked again the same day, only the size limit can rotate. */
  lemma RotationOncePerDay(s: LoggerState, now: LocalTime, fileSize: nat, reopenOk: bool, laterSize: nat)
    requires ValidTime(now) && RotationFor(s, now, fileSize) == RotateForNewDay
    ensures var (s1, backup) := CheckRotationSpec(s, now, fileSize, reopenOk);
      backup == Some(BackupName(s.config.logFile, now)) && backup.value != s.config.logFile
      && s1.openFile == (if reopenOk then Some(s.config.logFile) else None) && s1.fileFailed == !reopenOk
      && RotationFor(s1, now, laterSize) != RotateForNewDay
      && (reopenOk && laterSize < s.config.maxFileSize ==> RotationFor(s1, now, laterSize) == NoRotation)
  {
    BackupNamesDistinct(s.config.logFile, now, now);
  }

  /** A rotation changes only the stream and the rotation date, and leaves no stream open
      with its failbit set. */
  lemma RotationFrame(s: LoggerState, now: LocalTime, fileSize: nat, reopenOk: bool)
    requires ValidTime(now)
    ensures var s1 := CheckRotationSpec(s, now, fileSize, reopenOk).0;
      s1 == s.(openFile := s1.openFile, fileFailed := s1.fileFailed, lastRotateDate := s1.lastRotateDate)
    ensures var s1 := CheckRotationSpec(s, now, fileSize, reopenOk).0;
      s.config.enableFile && s.openFile.Some? && s1.openFile.Some? ==> !s1.fileFailed
    ensures CheckRotationSpec(s, now, fileSize, reopenOk).1.None? <==> RotationFor(s, now, fileSize) == NoRotation
  {
  }

  // ---------------------------------------------------------------- the worker

  /** What one worker iteration emits for a dequeued line: the level read from its tag,
      the console text (colour, line, reset) if console output is on, the backup name
      if the file was rotated, whether the line reached an open, unfailed file, and the syslog
      priority if syslog output is on. */
  datatype Dispatch = Dispatch(
    line: string,
    level: LogLevel,
    console: Option<string>,
    backup: Option<string>,
    toFile: bool,
    syslog: Option<nat>)

  /** One iteration of `processLogs`' main loop: with an empty queue the worker waits (or
      leaves the loop), which changes nothing. Otherwise it pops the front line; an empty
      line is skipped. A line is written to the console, checked for rotation and written
      to the file, sent to syslog, and the time the writes took (`cost`) is added. */
  function WorkerStepSpec(s: LoggerState, now: LocalTime, fileSize: nat, reopenOk: bool, cost: nat): (LoggerState, Option<Dispatch>)
    requires ValidTime(now)
  {
    if s.queue == [] then (s, None)
    else
      var line := s.queue[0];
      var s1 := s.(queue := s.queue[1..]);
      if line == [] then (s1, None)
      else
        var (s2, d) := DispatchSpec(s1, line, now, fileSize, reopenOk, cost);
        (s2, Some(d))
  }

  /** The writes for one non-empty dequeued line, with the rotation check before the
      file write, and the time they took added to the statistics. */
  function DispatchSpec(s: LoggerState, line: string, now: LocalTime, fileSize: nat, reopenOk: bool, cost: nat): (LoggerState, Dispatch)
    requires ValidTime(now)
  {
    var level := LevelOfLine(line);
    var console := if s.config.enableConsole
      then Some(ColorCode(s.config.enableColor, level) + line + ResetColor()) else None;
    var fileOut := s.config.enableFile && s.openFile.Some?;
    var (s2, backup) := if fileOut then CheckRotationSpec(s, now, fileSize, reopenOk) else (s, None);
    var syslog := if s.config.enableSyslog then Some(SyslogPriority(level)) else None;
    (s2.(stats := s2.stats.(totalWriteTime := s2.stats.totalWriteTime + cost)),
     Dispatch(line, level, console, backup, fileOut && s2.openFile.Some? && !s2.fileFailed, syslog))
  }

  /** The worker takes lines from the front: it dispatches the oldest line, leaves the
      rest in order, and adds the write time to the statistics. The line reaches the file
      whenever the stream is still open after the rotation check, since a failed stream is
      always rotated (and so reopened or closed) first. */
  lemma WorkerTakesFront(s: LoggerState, now: LocalTime, fileSize: nat, reopenOk: bool, cost: nat)
    requires ValidTime(now) && s.queue != [] && s.queue[0] != []
    ensures var (s1, d) := WorkerStepSpec(s, now, fileSize, reopenOk, cost);
      d.Some? && d.value.line == s.queue[0] && s1.queue == s.queue[1..]
      && s1.stats == s.stats.(totalWriteTime := s.stats.totalWriteTime + cost)
      && s1.config == s.config && s1.running == s.running && s1.runtimeLevel == s.runtimeLevel
      && (d.value.console.Some? <==> s.config.enableConsole)
      && (d.value.syslog.Some? <==> s.config.enableSyslog)
      && (d.value.toFile <==> s.config.enableFile && s.openFile.Some? && s1.openFile.Some?)
      && (s.config.enableFile && s.openFile.Some? && s.fileFailed ==> d.value.backup.Some?)
  {
    var s1 := s.(queue := s.queue[1..]);
    assert WorkerStepSpec(s, now, fileSize, reopenOk, cost).0 == DispatchSpec(s1, s.queue[0], now, fileSize, reopenOk, cost).0;
    RotationFrame(s1, now, fileSize, reopenOk);
  }

  /** A line `log` formatted with a real clock reading and a macro's label is dispatched at
      its own severity: coloured for it on the console and sent to syslog at its priority. */
  lemma WorkerHonoursSeverity(s: LoggerState, now: LocalTime, fileSize: nat, reopenOk: bool, cost: nat,
                              t: LocalTime, micros: nat, level: LogLevel, message: string)
    requires ValidTime(now) && ValidTime(t) && micros < 1000000 && level != Off
    requires s.queue != [] && s.queue[0] == FormatLine(LogTimeString(t, micros), Label(level), message)
    ensures var d := WorkerStepSpec(s, now, fileSize, reopenOk, cost).1;
      d.Some? && d.value.level == level
      && (s.config.enableConsole ==> d.value.console == Some(ColorCode(s.config.enableColor, level) + s.queue[0] + ResetColor()))
      && (s.config.enableSyslog ==> d.value.syslog == Some(SyslogPriority(level)))
  {
    WorkerRecoversLevel(t, micros, level, message);
  }

  // ---------------------------------------------------------------- shutdown

  /** The destructor: clear the run flag, let the worker drain what is left (each line
      printed plainly to the console and appended to the file, as configured; the drain
      checks no rotation, so a stream with its failbit set writes nothing), then close the
      file. Components: new state, console lines, file lines. */
  function ShutdownSpec(s: LoggerState): (LoggerState, seq<string>, seq<string>)
  {
    (s.(running := false, queue := [], openFile := None),
     if s.config.enableConsole then s.queue else [],
     if s.config.enableFile && s.openFile.Some? && !s.fileFailed then s.queue else [])
  }

  /** After shutdown nothing is queued, nothing more is accepted, and every line that was
      still queued was written, in order, to each enabled output; a failed stream gets
      none of them. */
  lemma ShutdownDrains(s: LoggerState, level: LogLevel, levelStr: string, message: string, time: string)
    ensures var (s1, console, file) := ShutdownSpec(s);
      s1.queue == [] && !s1.running && s1.openFile.None?
      && (s.config.enableConsole ==> console == s.queue)
      && (s.config.enableFile && s.openFile.Some? && !s.fileFailed ==> file == s.queue)
      && (s.fileFailed ==> file == [])
      && LogSpec(s1, level, levelStr, message, time) == s1
  {
  }

  /** A repeated `init` with file output on, once the file is open, leaves the stream
      failed: the next worker dispatch rotates the file whatever its size, and a shutdown
      before that dispatch writes none of the queued lines to the file. */
  lemma RepeatedInitFailsStream(s: LoggerState, config: LogConfig, now: LocalTime, ok1: bool, ok2: bool,
                                later: LocalTime, fileSize: nat)
    requires ValidTime(now) && ValidTime(later) && config.enableFile
    requires InitSpec(s, config, now, ok1).0.openFile.Some?
    ensures var s2 := InitSpec(InitSpec(s, config, now, ok1).0, config, now, ok2).0;
      s2.fileFailed && RotationFor(s2, later, fileSize) != NoRotation && ShutdownSpec(s2).2 == []
  {
    var s1 := InitSpec(s, config, now, ok1).0;
    InitKeepsOpenFile(s1, config, now, ok2);
    RotationPriority(InitSpec(s1, config, now, ok2).0, later, fileSize);
  }

  // ---------------------------------------------------------------- runs of operations

  datatype Op =
    | Init(config: LogConfig, now: LocalTime, openOk: bool)
    | LoadConfig(contents: Option<seq<string>>)
    | SetLevel(raw: int)
    | UpdateConfig(newConfig: LogConfig, reopenOk: bool)
    | Submit(level: LogLevel, levelStr: string, message: string, time: string)
    | ResetStats
    | Work(clock: LocalTime, fileSize: nat, rotateOk: bool, cost: nat)

  predicate ValidOp(op: Op)
  {
    (op.Init? ==> ValidTime(op.now)) && (op.Work? ==> ValidTime(op.clock))
  }

  /** The effect of one operation: the new state, the line it enqueued (if any) and the
      line it dequeued (if any). */
  datatype Effect = Effect(state: LoggerState, enqueued: seq<string>, dequeued: seq<string>)

  function StepOp(s: LoggerState, op: Op): Effect
    requires ValidOp(op)
  {
    match op
    case Init(config, now, openOk) => Effect(InitSpec(s, config, now, openOk).0, [], [])
    case LoadConfig(contents) => Effect(LoadConfigSpec(s, contents).0, [], [])
    case SetLevel(raw) => Effect(SetLevelSpec(s, raw), [], [])
    case UpdateConfig(config, openOk) => Effect(UpdateConfigSpec(s, config, openOk), [], [])
    case Submit(level, levelStr, message, time) =>
      Effect(LogSpec(s, level, levelStr, message, time),
             if Accepts(s, level) then [FormatLine(time, levelStr, message)] else [], [])
    case ResetStats => Effect(ResetStatsSpec(s), [], [])
    case Work(now, fileSize, reopenOk, cost) =>
      Effect(WorkerStepSpec(s, now, fileSize, reopenOk, cost).0, [], if s.queue == [] then [] else [s.queue[0]])
  }

  /** Running a sequence of operations, first one first. */
  function Run(s: LoggerState, ops: seq<Op>): Effect
    requires forall i | 0 <= i < |ops| :: ValidOp(ops[i])
    decreases |ops|
  {
    if ops == [] then Effect(s, [], [])
    else
      var e := StepOp(s, ops[0]);
      var rest := Run(e.state, ops[1..]);
      Effect(rest.state, e.enqueued + rest.enqueued, e.dequeued + rest.dequeued)
  }

  /** A worker iteration removes the front line, if any, and changes no counter but the
      write time. */
  lemma WorkerStepQueueAndStats(s: LoggerState, now: LocalTime, fileSize: nat, reopenOk: bool, cost: nat)
    requires ValidTime(now)
    ensures var s1 := WorkerStepSpec(s, now, fileSize, reopenOk, cost).0;
      s1.queue == (if s.queue == [] then [] else s.queue[1..])
      && s1.stats.totalLogs == s.stats.totalLogs && s1.stats.droppedLogs == s.stats.droppedLogs
      && s1.stats.maxQueueSize == s.stats.maxQueueSize
  {
    if s.queue != [] && s.queue[0] != [] {
      var s1 := s.(queue := s.queue[1..]);
      assert WorkerStepSpec(s, now, fileSize, reopenOk, cost).0 == DispatchSpec(s1, s.queue[0], now, fileSize, reopenOk, cost).0;
      RotationFrame(s1, now, fileSize, reopenOk);
    }
  }

  /** One operation moves at most one line into or out of the queue, at the right end. */
  lemma StepOpQueue(s: LoggerState, op: Op)
    requires ValidOp(op)
    ensures s.queue + StepOp(s, op).enqueued == StepOp(s, op).dequeued + StepOp(s, op).state.queue
  {
    match op
    case Work(now, fileSize, reopenOk, cost) =>
      WorkerStepQueueAndStats(s, now, fileSize, reopenOk, cost);
      if s.queue != [] {
        assert s.queue == [s.queue[0]] + s.queue[1..];
      }
    case _ =>
  }

  /** First in, first out: over any run, the lines dequeued followed by those still queued
      are exactly the lines queued at the start followed by those enqueued, in order. */
  lemma {:induction false} RunIsFifo(s: LoggerState, ops: seq<Op>)
    requires forall i | 0 <= i < |ops| :: ValidOp(ops[i])
    ensures s.queue + Run(s, ops).enqueued == Run(s, ops).dequeued + Run(s, ops).state.queue
    decreases |ops|
  {
    if ops != [] {
      var e := StepOp(s, ops[0]);
      StepOpQueue(s, ops[0]);
      RunIsFifo(e.state, ops[1..]);
      var rest := Run(e.state, ops[1..]);
      assert Run(s, ops) == Effect(rest.state, e.enqueued + rest.enqueued, e.dequeued + rest.dequeued);
      Assoc(s.queue, e.enqueued, rest.enqueued);
      Assoc(e.dequeued, e.state.queue, rest.enqueued);
      Assoc(e.dequeued, rest.dequeued, rest.state.queue);
    }
  }

  /** Concatenation regrouped, kept apart so that the induction above stays cheap. */
  lemma Assoc(a: seq<string>, b: seq<string>, c: seq<string>)
    ensures a + (b + c) == (a + b) + c
  {
  }

  /** Delivered exactly once: a run followed by shutdown hands every line that was queued
      or enqueued to the worker or to the drain, once each, in enqueue order; the drain
      writes what the worker left to the console and to a sound open file. */
  lemma RunThenShutdownDeliversAll(s: LoggerState, ops: seq<Op>)
    requires forall i | 0 <= i < |ops| :: ValidOp(ops[i])
    ensures var r := Run(s, ops);
      r.state.config.enableConsole ==> r.dequeued + ShutdownSpec(r.state).1 == s.queue + r.enqueued
    ensures var r := Run(s, ops);
      r.state.config.enableFile && r.state.openFile.Some? && !r.state.fileFailed ==>
        r.dequeued + ShutdownSpec(r.state).2 == s.queue + r.enqueued
  {
    RunIsFifo(s, ops);
  }

  /** `log` keeps the invariant: an appended line is never empty, and it is appended
      only below capacity. */
  lemma LogKeepsInv(s: LoggerState, level: LogLevel, levelStr: string, message: string, time: string)
    requires Inv(s)
    ensures Inv(LogSpec(s, level, levelStr, message, time))
  {
    var s1 := LogSpec(s, level, levelStr, message, time);
    if Accepts(s, level) {
      var line := FormatLine(time, levelStr, message);
      assert line[0] == '[';
      assert s1.queue == s.queue + [line];
      forall i | 0 <= i < |s1.queue| ensures s1.queue[i] != [] {
        if i < |s.queue| { assert s1.queue[i] == s.queue[i]; }
      }
    }
  }

  /** A worker iteration keeps the invariant: it only shortens the queue and adds time. */
  lemma WorkerStepKeepsInv(s: LoggerState, now: LocalTime, fileSize: nat, reopenOk: bool, cost: nat)
    requires ValidTime(now) && Inv(s)
    ensures Inv(WorkerStepSpec(s, now, fileSize, reopenOk, cost).0)
  {
    var s1 := WorkerStepSpec(s, now, fileSize, reopenOk, cost).0;
    WorkerStepQueueAndStats(s, now, fileSize, reopenOk, cost);
    if s.queue != [] {
      forall i | 0 <= i < |s1.queue| ensures s1.queue[i] != [] {
        assert s1.queue[i] == s.queue[i + 1];
      }
    }
  }

  /** Every operation keeps the invariant. */
  lemma StepOpKeepsInv(s: LoggerState, op: Op)
    requires ValidOp(op) && Inv(s)
    ensures Inv(StepOp(s, op).state)
  {
    match op
    case Submit(level, levelStr, message, time) =>
      LogKeepsInv(s, level, levelStr, message, time);
    case Work(now, fileSize, reopenOk, cost) =>
      WorkerStepKeepsInv(s, now, fileSize, reopenOk, cost);
    case _ =>
  }

  /** The invariant holds initially and along every run. */
  lemma {:induction false} RunKeepsInv(s: LoggerState, ops: seq<Op>)
    requires forall i | 0 <= i < |ops| :: ValidOp(ops[i])
    requires Inv(s)
    ensures Inv(Run(s, ops).state)
    decreases |ops|
  {
    if ops != [] {
      StepOpKeepsInv(s, ops[0]);
      RunKeepsInv(StepOp(s, ops[0]).state, ops[1..]);
    }
  }

  lemma InitialInv()
    ensures Inv(Initial())
  {
  }

  /** One operation other than `resetStats` counts each submission it enqueues or drops. */
  lemma StepOpCounts(s: LoggerState, op: Op)
    requires ValidOp(op) && !op.ResetStats?
    ensures var e := StepOp(s, op);
      e.state.stats.droppedLogs >= s.stats.droppedLogs
      && e.state.stats.totalLogs == s.stats.totalLogs + |e.enqueued| + (e.state.stats.droppedLogs - s.stats.droppedLogs)
  {
    match op
    case Work(now, fileSize, reopenOk, cost) =>
      WorkerStepQueueAndStats(s, now, fileSize, reopenOk, cost);
    case _ =>
  }

  /** Without a `resetStats`, each counted submission is either enqueued or dropped:
      the growth of `totalLogs` is the number of lines enqueued plus the growth of
      `droppedLogs`, and neither counter ever decreases. */
  lemma {:induction false} RunCountsSubmissions(s: LoggerState, ops: seq<Op>)
    requires forall i | 0 <= i < |ops| :: ValidOp(ops[i]) && !ops[i].ResetStats?
    ensures var r := Run(s, ops).state.stats;
      r.droppedLogs >= s.stats.droppedLogs
      && r.totalLogs == s.stats.totalLogs + |Run(s, ops).enqueued| + (r.droppedLogs - s.stats.droppedLogs)
    decreases |ops|
  {
    if ops != [] {
      var e := StepOp(s, ops[0]);
      StepOpCounts(s, ops[0]);
      RunCountsSubmissions(e.state, ops[1..]);
    }
  }
}
