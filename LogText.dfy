/** The logger's pure text functions: the line format built by `log`, the worker's search
    for the level tag, the levelStr and colour lookups, the syslog priority table and the
    name given to a rotated file. */
module LogText {
  import opened Wrappers
  import opened LogTypes
  import opened LogTime

  /** `parseLogLevel`: case-sensitive exact labels; anything else is OFF. The worker's
      tag-to-level chain is the same mapping, so it uses this function too. */
  function ParseLogLevel(s: string): (l: LogLevel)
    ensures l != Off <==> s in {"ERROR", "WARN", "INFO", "DEBUG"}
    ensures l != Off ==> Label(l) == s
  {
    if s == "DEBUG" then Debug
    else if s == "INFO" then Info
    else if s == "WARN" then Warn
    else if s == "ERROR" then Error
    else Off
  }

  /** Every levelStr the macros use maps back to its own severity. */
  lemma ParseLabel(l: LogLevel)
    requires l != Off
    ensures ParseLogLevel(Label(l)) == l
  {
  }

  /** `std::string::find(c, from)`: the first position at or after `from` holding `c`. */
  function FindFrom(s: string, c: char, from: nat): (r: Option<nat>)
    ensures r.Some? ==> from <= r.value < |s| && s[r.value] == c
    ensures r.Some? ==> forall j | from <= j < r.value :: s[j] != c
    ensures r.None? ==> forall j | from <= j < |s| :: s[j] != c
    decreases |s| - from
  {
    if from >= |s| then None
    else if s[from] == c then Some(from)
    else FindFrom(s, c, from + 1)
  }

  lemma FindFromIs(s: string, c: char, from: nat, i: nat)
    requires from <= i < |s| && s[i] == c
    requires forall j | from <= j < i :: s[j] != c
    ensures FindFrom(s, c, from) == Some(i)
  {
  }

  /** The queued line: `"[" + time + "] [" + level_str + "] " + message`. */
  function FormatLine(time: string, levelStr: string, message: string): (line: string)
    ensures |line| == |time| + |levelStr| + |message| + 6 && line[0] == '['
    ensures line[|time| + 1] == ']' && line[|time| + 2] == ' ' && line[|time| + 3] == '['
    ensures line[|time| + |levelStr| + 4] == ']' && line[|time| + |levelStr| + 5] == ' '
  {
    "[" + time + "] [" + levelStr + "] " + message
  }

  /** Where the worker's tag starts: one past the second `'['`. When either search fails
      it yields `npos`, and `npos + 1` wraps to 0, so the tag then starts at 0. */
  function TagStart(line: string): (p: nat)
    ensures p <= |line|
  {
    match FindFrom(line, '[', 0)
    case None => 0
    case Some(first) =>
      match FindFrom(line, '[', first + 1)
      case None => 0
      case Some(second) => second + 1
  }

  /** The worker's level tag: from `TagStart` up to the next `']'`, or to the end of the
      line when there is none (`substr` with an `npos` length). */
  function ExtractTag(line: string): (tag: string)
    ensures ']' !in tag && |tag| <= |line|
  {
    var start := TagStart(line);
    match FindFrom(line, ']', start)
    case None => line[start..]
    case Some(end) => line[start..end]
  }

  /** The level the worker derives from a dequeued line (for the colour and syslog priority). */
  function LevelOfLine(line: string): (l: LogLevel)
    ensures l != Off <==> ExtractTag(line) in {"ERROR", "WARN", "INFO", "DEBUG"}
    ensures l != Off ==> Label(l) == ExtractTag(line)
  {
    ParseLogLevel(ExtractTag(line))
  }

  /** Format/extract round trip: the worker reads back exactly the levelStr `log` wrote,
      whenever the time has no `'['` and the levelStr has no `']'`. */
  lemma ExtractRecoversLabel(time: string, levelStr: string, message: string)
    requires '[' !in time && ']' !in levelStr
    ensures ExtractTag(FormatLine(time, levelStr, message)) == levelStr
  {
    var line := FormatLine(time, levelStr, message);
    var n := |time|;
    TagStartAfterTime(time, levelStr, message);
    forall j | n + 4 <= j < n + 4 + |levelStr|
      ensures line[j] != ']'
    {
      assert line[j] == levelStr[j - n - 4];
    }
    FindFromIs(line, ']', n + 4, n + 4 + |levelStr|);
    assert line[n + 4..n + 4 + |levelStr|] == levelStr;
  }

  /** With no `'['` in the time, the second `'['` of a formatted line is the one that
      opens the level field. */
  lemma TagStartAfterTime(time: string, levelStr: string, message: string)
    requires '[' !in time
    ensures TagStart(FormatLine(time, levelStr, message)) == |time| + 4
  {
    var line := FormatLine(time, levelStr, message);
    var n := |time|;
    FindFromIs(line, '[', 0, 0);
    forall j | 1 <= j < n + 3
      ensures line[j] != '['
    {
      if j <= n { assert line[j] == time[j - 1]; }
    }
    FindFromIs(line, '[', 1, n + 3);
  }

  /** Every line a macro submits with a real clock reading is dispatched at its own severity. */
  lemma WorkerRecoversLevel(t: LocalTime, micros: nat, level: LogLevel, message: string)
    requires ValidTime(t) && micros < 1000000 && level != Off
    ensures LevelOfLine(FormatLine(LogTimeString(t, micros), Label(level), message)) == level
  {
    LogTimeHasNoBrackets(t, micros);
    ExtractRecoversLabel(LogTimeString(t, micros), Label(level), message);
  }

  /** When the clock cannot be read, the time field is `TimeError[<errno>]`; its `'['` is
      taken for the second bracket, so the worker reads the errno as the tag and treats an
      ERROR line as OFF (default colour, LOG_INFO priority). */
  lemma TimeErrorMisreadsLevel()
    ensures ExtractTag(FormatLine("TimeError[22]", "ERROR", "disk full")) == "22"
    ensures LevelOfLine(FormatLine("TimeError[22]", "ERROR", "disk full")) == Off
  {
    var line := FormatLine("TimeError[22]", "ERROR", "disk full");
    FindFromIs(line, '[', 0, 0);
    FindFromIs(line, '[', 1, 10);
    FindFromIs(line, ']', 11, 13);
    assert line[11..13] == "22";
  }

  const Esc: char := 27 as char

  /** The ANSI sequence written after every console line. */
  function ResetColor(): string { [Esc] + "[0m" }

  /** `getColorCode`: nothing when colour is off, otherwise red, yellow, green, cyan by
      severity and the reset sequence for anything else. */
  function ColorCode(enableColor: bool, level: LogLevel): (code: string)
    ensures !enableColor <==> code == ""
    ensures enableColor && level == Off ==> code == ResetColor()
    ensures enableColor && level != Off ==> code != ResetColor()
    ensures enableColor && level == Error ==> code == [Esc] + "[31m"
    ensures enableColor && level == Warn ==> code == [Esc] + "[33m"
    ensures enableColor && level == Info ==> code == [Esc] + "[32m"
    ensures enableColor && level == Debug ==> code == [Esc] + "[36m"
  {
    if !enableColor then ""
    else match level
      case Error => [Esc] + "[31m"
      case Warn => [Esc] + "[33m"
      case Info => [Esc] + "[32m"
      case Debug => [Esc] + "[36m"
      case Off => ResetColor()
  }

  /** Distinct severities get distinct colours when colour is on. */
  lemma ColorCodesDistinct(a: LogLevel, b: LogLevel)
    requires a != b
    ensures ColorCode(true, a) != ColorCode(true, b)
  {
    assert (ColorCode(true, a)[2], ColorCode(true, a)[3]) != (ColorCode(true, b)[2], ColorCode(true, b)[3]);
  }

  /** POSIX syslog priorities. */
  const LogErr: nat := 3
  const LogWarning: nat := 4
  const LogInfo: nat := 6
  const LogDebug: nat := 7

  /** The syslog priority of a dispatched line: ERROR, WARNING and DEBUG map to their
      counterparts, INFO and anything unrecognised to LOG_INFO. */
  function SyslogPriority(level: LogLevel): (p: nat)
    ensures p == LogInfo <==> (level == Info || level == Off)
    ensures level == Error <==> p == LogErr
    ensures level == Warn <==> p == LogWarning
    ensures level == Debug <==> p == LogDebug
  {
    match level
    case Error => LogErr
    case Warn => LogWarning
    case Debug => LogDebug
    case _ => LogInfo
  }

  /** The name a rotated file is moved to: the configured path, `_`, and `%Y%m%d_%H%M%S`. */
  function BackupName(logFile: string, now: LocalTime): (name: string)
    requires ValidTime(now)
    ensures |name| == |logFile| + 16 && name[..|logFile|] == logFile && name[|logFile|] == '_'
    ensures name[|logFile| + 1..] == StampString(now)
  {
    logFile + "_" + StampString(now)
  }

  /** Rotations at two different seconds never pick the same backup name, and a backup
      never takes the active file's own path. */
  lemma BackupNamesDistinct(logFile: string, a: LocalTime, b: LocalTime)
    requires ValidTime(a) && ValidTime(b)
    ensures BackupName(logFile, a) == BackupName(logFile, b) <==> a == b
    ensures BackupName(logFile, a) != logFile
  {
    if BackupName(logFile, a) == BackupName(logFile, b) {
      assert BackupName(logFile, a)[|logFile| + 1..] == StampString(a);
      StampStringInjective(a, b);
    }
  }
}
