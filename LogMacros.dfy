/** The header's logging front ends: the printf-style macros `YLOG_<LEVEL>` and
    `YLOG_MODULE_<LEVEL>`, switched on and off at compile time by `YUTILS_LOG_LEVEL`, and
    the stream helper `LogStream`, which accumulates text and submits it when destroyed.
    The `formatLog` expansion of the format string is an input (`text`). */
module LogMacros {
  import opened Wrappers
  import opened Digits
  import opened LogTypes
  import opened LogText
  import opened LoggerSpec
  import opened Logger

  /** `YUTILS_LOG_LEVEL` when the build does not define it: DEBUG, so every macro is in. */
  const DefaultBuildLevel: int := 4

  /** The `#if YUTILS_LOG_LEVEL >= n` guard around the macro for a severity. */
  predicate CompiledIn(buildLevel: int, level: LogLevel)
    requires level != Off
  {
    buildLevel >= Ordinal(level)
  }

  /** `"[" __FILE__ ":" __LINE__ ":" __func__ "] "`. */
  function SitePrefix(file: string, line: int, func: string): (r: string)
    ensures |r| == |file| + |IntString(line)| + |func| + 5
    ensures r[0] == '[' && r[1..|file| + 1] == file && r[|file| + 1] == ':' && r[|r| - 2..] == "] "
  {
    var r := ("[" + file + ":") + (IntString(line) + ":" + func + "] ");
    assert r[1..|file| + 1] == ("[" + file + ":")[1..|file| + 1];
    r
  }

  /** The message a printf-style macro passes to `log`; the module variants put
      `"[" module "] "` in front. */
  function MacroMessage(moduleName: Option<string>, file: string, line: int, func: string, text: string): (r: string)
    ensures r != [] && r[0] == '['
    ensures |r| >= |text| && r[|r| - |text|..] == text
    ensures moduleName.Some? ==> |r| >= |moduleName.value| + 3 && r[..|moduleName.value| + 3] == "[" + moduleName.value + "] "
  {
    match moduleName
    case None => SitePrefix(file, line, func) + text
    case Some(m) => "[" + m + "] " + SitePrefix(file, line, func) + text
  }

  /** The `log` call a macro use turns into. */
  datatype LogCall = LogCall(level: LogLevel, levelStr: string, message: string)

  /** The expansion of `YLOG_<level>(...)` (`module == None`) or
      `YLOG_MODULE_<level>(module, ...)`: a call to `log` with the severity's label, or
      the empty statement when the build level excludes it. */
  function Expand(buildLevel: int, level: LogLevel, moduleName: Option<string>,
                  file: string, line: int, func: string, text: string): (r: Option<LogCall>)
    requires level != Off
    ensures r.Some? <==> buildLevel >= Ordinal(level)
    ensures r.Some? ==>
      && r.value.level == level && r.value.levelStr == Label(level)
      && r.value.message == MacroMessage(moduleName, file, line, func, text)
  {
    if CompiledIn(buildLevel, level) then Some(LogCall(level, Label(level), MacroMessage(moduleName, file, line, func, text)))
    else None
  }

  /** A higher build level keeps every macro a lower one keeps; the default build level
      keeps them all, and level 0 none. */
  lemma CompileTimeGate(buildLevel: int, level: LogLevel, moduleName: Option<string>,
                        file: string, line: int, func: string, text: string)
    requires level != Off
    ensures Expand(buildLevel, level, moduleName, file, line, func, text).Some? ==>
      Expand(buildLevel + 1, level, moduleName, file, line, func, text).Some?
    ensures Expand(DefaultBuildLevel, level, moduleName, file, line, func, text).Some?
    ensures Expand(0, level, moduleName, file, line, func, text).None?
  {
  }

  /** The plain message starts with the call site; a module variant is the plain message
      behind `"[" module "] "`. */
  lemma MacroMessageShape(moduleName: Option<string>, file: string, line: int, func: string, text: string)
    ensures var site := SitePrefix(file, line, func);
      moduleName.None? ==> MacroMessage(moduleName, file, line, func, text)[..|site|] == site
    ensures moduleName.Some? ==>
      MacroMessage(moduleName, file, line, func, text) == "[" + moduleName.value + "] " + MacroMessage(None, file, line, func, text)
  {
    var site := SitePrefix(file, line, func);
    var msg := MacroMessage(moduleName, file, line, func, text);
    if moduleName.None? {
      assert msg == site + text;
      assert msg[..|site|] == site;
    } else {
      assert msg == ("[" + moduleName.value + "] " + site) + text;
    }
  }

  /** From macro to worker: a record made by a compiled-in macro at a real clock reading
      reaches the queue exactly when the logger accepts its severity, and the worker then
      reads that severity back from the queued line. */
  lemma MacroRecordRoundTrip(s: LoggerState, buildLevel: int, level: LogLevel, moduleName: Option<string>,
                             file: string, line: int, func: string, text: string,
                             t: LogTime.LocalTime, micros: nat)
    requires level != Off && CompiledIn(buildLevel, level) && Accepts(s, level)
    requires LogTime.ValidTime(t) && micros < 1000000
    ensures var call := Expand(buildLevel, level, moduleName, file, line, func, text).value;
      var queued := LogSpec(s, call.level, call.levelStr, call.message, LogTime.LogTimeString(t, micros)).queue;
      queued == s.queue + [FormatLine(LogTime.LogTimeString(t, micros), Label(level), call.message)]
      && LevelOfLine(queued[|queued| - 1]) == level
  {
    var call := Expand(buildLevel, level, moduleName, file, line, func, text).value;
    LogAppends(s, call.level, call.levelStr, call.message, LogTime.LogTimeString(t, micros));
    WorkerRecoversLevel(t, micros, level, call.message);
  }

  /** The message `~LogStream` submits: the module prefix only when the module is not
      empty, then the call site, then the accumulated text. */
  function StreamMessage(moduleName: string, file: string, line: int, func: string, text: string): (r: string)
    ensures r != [] && r[0] == '['
    ensures |r| >= |text| && r[|r| - |text|..] == text
    ensures moduleName != "" ==> |r| >= |moduleName| + 3 && r[..|moduleName| + 3] == "[" + moduleName + "] "
    ensures moduleName == "" ==> r[..|r| - |text|] == SitePrefix(file, line, func)
  {
    (if moduleName != "" then "[" + moduleName + "] " else "") + SitePrefix(file, line, func) + text
  }

  /** The stream and the printf-style macros build the same message, except that a
      module macro given an empty module still writes `"[] "`. */
  lemma StreamMatchesMacro(moduleName: string, file: string, line: int, func: string, text: string)
    ensures moduleName != "" ==> StreamMessage(moduleName, file, line, func, text) == MacroMessage(Some(moduleName), file, line, func, text)
    ensures StreamMessage("", file, line, func, text) == MacroMessage(None, file, line, func, text)
    ensures MacroMessage(Some(""), file, line, func, text) != StreamMessage("", file, line, func, text)
  {
    var site := SitePrefix(file, line, func);
    assert MacroMessage(Some(""), file, line, func, text) == "[" + "" + "] " + site + text;
    assert StreamMessage("", file, line, func, text) == site + text;
    assert |"[" + "" + "] " + site + text| == |site + text| + 3;
  }

  /** `LogStream`: fixed call-site data, and the text `operator<<` accumulates. */
  class LogStream {
    const level: LogLevel
    const levelStr: string
    const file: string
    const line: int
    const func: string
    const moduleName: string
    var text: string
    /** Whether the destructor has run. */
    var submitted: bool

    constructor (level: LogLevel, levelStr: string, file: string, line: int, func: string, moduleName: string)
      ensures this.level == level && this.levelStr == levelStr && this.file == file
      ensures this.line == line && this.func == func && this.moduleName == moduleName
      ensures text == "" && !submitted
    {
      this.level := level;
      this.levelStr := levelStr;
      this.file := file;
      this.line := line;
      this.func := func;
      this.moduleName := moduleName;
      text := "";
      submitted := false;
    }

    function Message(): string
      reads this
    {
      StreamMessage(moduleName, file, line, func, text)
    }

    /** `operator<<` for a value whose printed form is `value`: append, return the stream. */
    method Append(value: string) returns (self: LogStream)
      modifies this
      ensures self == this && text == old(text) + value && submitted == old(submitted)
    {
      text := text + value;
      self := this;
    }

    /** `~LogStream`: submit the message once, at the stream's severity and label, with the
        time reading `time`. */
    method Submit(logger: AsyncLogger, time: string)
      requires !submitted && logger.Valid()
      modifies this, logger
      ensures submitted && text == old(text)
      ensures logger.State() == LogSpec(old(logger.State()), level, levelStr, old(Message()), time)
      ensures logger.Valid()
    {
      logger.Log(level, levelStr, Message(), time);
      submitted := true;
    }
  }

  /** `YLOG_MODULE_INFO_STREAM(module) << a << b;` where `level != Off`: the stream
      macro's severity and label, the two pieces in order, one submission. */
  method StreamStatement(logger: AsyncLogger, level: LogLevel, moduleName: string, file: string, line: int,
                         func: string, a: string, b: string, time: string)
    requires level != Off && logger.Valid()
    modifies logger
    ensures logger.State() == LogSpec(old(logger.State()), level, Label(level), StreamMessage(moduleName, file, line, func, a + b), time)
    ensures logger.Valid()
  {
    var stream := new LogStream(level, Label(level), file, line, func, moduleName);
    var s1 := stream.Append(a);
    var s2 := s1.Append(b);
    assert stream.text == a + b;
    stream.Submit(logger, time);
  }
}
