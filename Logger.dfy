/** The logger object itself: the fields `AsyncLogger` updates in place and one method per
    operation, each proved to follow its function in `LoggerSpec`. The worker's main
    loop is split into single iterations (`WorkerStep`), so that the interleaving of
    submissions and dispatches is the caller's choice; the loop after it, which drains
    the queue at shutdown, is a loop here. */
module Logger {
  import opened Wrappers
  import opened LogTypes
  import opened LogTime
  import opened LogText
  import opened ConfigFile
  import opened LoggerSpec

  class AsyncLogger {
    var running: bool
    var runtimeLevel: LogLevel
    var config: LogConfig
    var queue: seq<string>
    var stats: LogStats
    var lastRotateDate: string
    /** The path the file stream is open on; `None` while it is closed. */
    var openFile: Option<string>
    /** The stream's failbit. */
    var fileFailed: bool

    function State(): LoggerState
      reads this
    {
      LoggerState(running, runtimeLevel, config, queue, stats, lastRotateDate, openFile, fileFailed)
    }

    predicate Valid()
      reads this
    {
      Inv(State())
    }

    /** The private constructor of the singleton. */
    constructor ()
      ensures State() == Initial() && Valid()
    {
      running := false;
      runtimeLevel := Off;
      config := DefaultConfig();
      queue := [];
      stats := InitialStats();
      lastRotateDate := "";
      openFile := None;
      fileFailed := false;
    }

    /** `ofstream::open` on the stream: an open stream stays open and fails; a closed one
        opens and is cleared, or stays closed and fails. */
    method OpenFile(path: string, ok: bool)
      modifies this
      ensures (openFile, fileFailed) == Open(old(openFile), path, ok)
      ensures State() == old(State()).(openFile := openFile, fileFailed := fileFailed)
    {
      if openFile.Some? || !ok {
        fileFailed := true;
      } else {
        openFile := Some(path);
        fileFailed := false;
      }
    }

    method Init(cfg: LogConfig, now: LocalTime, openOk: bool) returns (started: bool)
      requires ValidTime(now) && Valid()
      modifies this
      ensures (State(), started) == InitSpec(old(State()), cfg, now, openOk)
      ensures Valid()
    {
      config := cfg;
      runtimeLevel := cfg.runtimeLevel;
      if config.enableFile {
        OpenFile(config.logFile, openOk);
      }
      lastRotateDate := DateString(now);
      started := false;
      if !running {
        running := true;
        started := true;
      }
    }

    /** `loadConfigFromFile`, given the file's lines (`None` when it cannot be opened). */
    method LoadConfigFromFile(contents: Option<seq<string>>) returns (ok: bool, started: bool)
      requires Valid()
      modifies this
      ensures (State(), ok, started) == LoadConfigSpec(old(State()), contents)
      ensures Valid()
    {
      if contents.None? {
        return false, false;
      }
      ParseConfigLines(contents.value);
      started := false;
      if !running {
        running := true;
        started := true;
      }
      ok := true;
    }

    /** The parse loop of `loadConfigFromFile`: the section is tracked in a local, and each
        line updates the configuration and the runtime level in place (`Step` holds the
        per-line trimming, classification and key dispatch). */
    method ParseConfigLines(lines: seq<string>)
      modifies this
      ensures var ps := ParseLines(ParseState("", old(config), old(runtimeLevel)), lines);
        State() == old(State()).(config := ps.config, runtimeLevel := ps.level)
    {
      ghost var start := ParseState("", config, runtimeLevel);
      var section := "";
      var i := 0;
      while i < |lines|
        invariant 0 <= i <= |lines|
        invariant ParseState(section, config, runtimeLevel) == ParsePrefix(start, lines, i)
        invariant running == old(running) && queue == old(queue) && stats == old(stats)
        invariant lastRotateDate == old(lastRotateDate) && openFile == old(openFile) && fileFailed == old(fileFailed)
      {
        var st := Step(ParseState(section, config, runtimeLevel), lines[i]);
        section, config, runtimeLevel := st.section, st.config, st.level;
        i := i + 1;
        ParsePrefixNext(start, lines, i);
      }
    }

    /** `setRuntimeLogLevel`, taking the enumeration's underlying integer. */
    method SetRuntimeLogLevel(raw: int)
      requires Valid()
      modifies this
      ensures State() == SetLevelSpec(old(State()), raw)
      ensures Valid()
    {
      if 0 <= raw <= 4 {
        runtimeLevel := FromOrdinal(raw).value;
      }
    }

    method UpdateConfig(cfg: LogConfig, openOk: bool)
      requires Valid()
      modifies this
      ensures State() == UpdateConfigSpec(old(State()), cfg, openOk)
      ensures Valid()
    {
      if cfg.enableFile && cfg.logFile != config.logFile {
        openFile := None;
        OpenFile(cfg.logFile, openOk);
      }
      config := cfg;
      runtimeLevel := cfg.runtimeLevel;
    }

    /** `log`, with the time reading `time` that `getFormattedTime` produced. */
    method Log(level: LogLevel, levelStr: string, message: string, time: string)
      requires Valid()
      modifies this
      ensures State() == LogSpec(old(State()), level, levelStr, message, time)
      ensures Valid()
    {
      if !running || Ordinal(level) > Ordinal(runtimeLevel) {
        return;
      }
      stats := stats.(totalLogs := stats.totalLogs + 1);
      var finalMsg := FormatLine(time, levelStr, message);
      if |queue| >= MaxQueueSize {
        stats := stats.(droppedLogs := stats.droppedLogs + 1);
        LogKeepsInv(old(State()), level, levelStr, message, time);
        return;
      }
      queue := queue + [finalMsg];
      if |queue| > stats.maxQueueSize {
        stats := stats.(maxQueueSize := |queue|);
      }
      LogKeepsInv(old(State()), level, levelStr, message, time);
    }

    method GetStats() returns (r: LogStats)
      ensures r == State().stats
    {
      r := stats;
    }

    method ResetStats()
      requires Valid()
      modifies this
      ensures State() == ResetStatsSpec(old(State()))
      ensures Valid()
    {
      stats := InitialStats();
    }

    /** `rotateLogFile`: close, rename the configured file to its backup name, reopen. */
    method RotateLogFile(now: LocalTime, reopenOk: bool) returns (backup: string)
      requires ValidTime(now)
      modifies this
      ensures backup == BackupName(config.logFile, now)
      ensures (openFile, fileFailed) == Open(None, config.logFile, reopenOk)
      ensures State() == old(State()).(openFile := openFile, fileFailed := fileFailed)
    {
      openFile := None;
      backup := config.logFile + "_" + StampString(now);
      OpenFile(config.logFile, reopenOk);
    }

    /** `checkLogRotation`, given the clock and the current size of the file. */
    method CheckLogRotation(now: LocalTime, fileSize: nat, reopenOk: bool) returns (backup: Option<string>)
      requires ValidTime(now)
      modifies this
      ensures (State(), backup) == CheckRotationSpec(old(State()), now, fileSize, reopenOk)
    {
      if !config.enableFile || openFile.None? {
        return None;
      }
      if config.rotateByDay {
        var currentDate := DateString(now);
        if currentDate != lastRotateDate {
          var name := RotateLogFile(now, reopenOk);
          lastRotateDate := currentDate;
          return Some(name);
        }
      }
      // `tellp` on a failed stream reports -1, the largest `size_t`
      if fileFailed || fileSize >= config.maxFileSize {
        var name := RotateLogFile(now, reopenOk);
        return Some(name);
      }
      return None;
    }

    /** One iteration of the worker's main loop. */
    method WorkerStep(now: LocalTime, fileSize: nat, reopenOk: bool, cost: nat) returns (d: Option<Dispatch>)
      requires ValidTime(now) && Valid()
      modifies this
      ensures (State(), d) == WorkerStepSpec(old(State()), now, fileSize, reopenOk, cost)
      ensures Valid()
    {
      if queue == [] {
        return None;
      }
      var logMsg := queue[0];
      queue := queue[1..];
      if logMsg == [] {
        return None;
      }
      var dispatch := DispatchLine(logMsg, now, fileSize, reopenOk, cost);
      d := Some(dispatch);
      WorkerStepKeepsInv(old(State()), now, fileSize, reopenOk, cost);
    }

    /** The body of the worker's main loop for one dequeued, non-empty line: console,
        rotation check and file, syslog, then the write time. */
    method DispatchLine(logMsg: string, now: LocalTime, fileSize: nat, reopenOk: bool, cost: nat) returns (d: Dispatch)
      requires ValidTime(now)
      modifies this
      ensures (State(), d) == DispatchSpec(old(State()), logMsg, now, fileSize, reopenOk, cost)
    {
      var current := config;
      var level := LevelOfLine(logMsg);
      var console := None;
      if current.enableConsole {
        console := Some(ColorCode(current.enableColor, level) + logMsg + ResetColor());
      }
      var backup := None;
      var toFile := false;
      if current.enableFile && openFile.Some? {
        backup := CheckLogRotation(now, fileSize, reopenOk);
        toFile := openFile.Some? && !fileFailed;
      }
      var syslog := None;
      if current.enableSyslog {
        syslog := Some(SyslogPriority(level));
      }
      stats := stats.(totalWriteTime := stats.totalWriteTime + cost);
      d := Dispatch(logMsg, level, console, backup, toFile, syslog);
    }

    /** The loop after the worker's main loop: pop and write every remaining line, plainly,
        to the console and to the file as configured; a stream with its failbit set takes
        none of them. */
    method Drain() returns (console: seq<string>, file: seq<string>)
      modifies this
      ensures console == (if old(config).enableConsole then old(queue) else [])
      ensures file == (if old(config).enableFile && old(openFile).Some? && !old(fileFailed) then old(queue) else [])
      ensures State() == old(State()).(queue := [])
    {
      console, file := [], [];
      ghost var n := 0;
      while queue != []
        invariant 0 <= n <= |old(queue)| && queue == old(queue)[n..]
        invariant State() == old(State()).(queue := queue)
        invariant console == (if config.enableConsole then old(queue)[..n] else [])
        invariant file == (if config.enableFile && openFile.Some? && !fileFailed then old(queue)[..n] else [])
        decreases |queue|
      {
        var msg := queue[0];
        assert old(queue)[..n + 1] == old(queue)[..n] + [msg];
        queue := queue[1..];
        if config.enableConsole {
          console := console + [msg];
        }
        if config.enableFile && openFile.Some? && !fileFailed {
          file := file + [msg];
        }
        n := n + 1;
      }
      assert old(queue)[..n] == old(queue);
    }

    /** The destructor: stop, drain, close the file. */
    method Shutdown() returns (console: seq<string>, file: seq<string>)
      requires Valid()
      modifies this
      ensures (State(), console, file) == ShutdownSpec(old(State()))
      ensures Valid()
    {
      running := false;
      console, file := Drain();
      openFile := None;
    }
  }
}
