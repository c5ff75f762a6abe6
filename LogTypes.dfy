/** The value types declared in the logger's header: severities, the configuration
    record and its defaults, the statistics record, and the queue capacity. */
module LogTypes {
  import opened Wrappers

  /** Severity, with the enumeration's ordinals OFF=0 < LOG_ERROR=1 < WARN=2 < INFO=3 < DEBUG=4. */
  datatype LogLevel = Off | Error | Warn | Info | Debug

  function Ordinal(l: LogLevel): nat
  {
    match l
    case Off => 0
    case Error => 1
    case Warn => 2
    case Info => 3
    case Debug => 4
  }

  /** The enumerator whose underlying value is `n`, if any. */
  function FromOrdinal(n: int): (r: Option<LogLevel>)
    ensures r.Some? <==> 0 <= n <= 4
    ensures r.Some? ==> Ordinal(r.value) == n
  {
    if n == 0 then Some(Off)
    else if n == 1 then Some(Error)
    else if n == 2 then Some(Warn)
    else if n == 3 then Some(Info)
    else if n == 4 then Some(Debug)
    else None
  }

  lemma OrdinalRoundTrip(l: LogLevel)
    ensures FromOrdinal(Ordinal(l)) == Some(l)
  {
  }

  /** The ordinals are strictly increasing in the declared order, so they are distinct. */
  lemma OrdinalOrder()
    ensures Ordinal(Off) < Ordinal(Error) < Ordinal(Warn) < Ordinal(Info) < Ordinal(Debug)
    ensures forall a: LogLevel, b: LogLevel :: Ordinal(a) == Ordinal(b) ==> a == b
  {
  }

  /** The runtime gate `level > runtime_level_` negated: a record passes when its level is
      not above the threshold. Threshold OFF rejects every named severity, threshold DEBUG
      admits everything, and a record submitted at OFF itself passes at any threshold. */
  predicate Admits(level: LogLevel, threshold: LogLevel)
    ensures level != Off && threshold == Off ==> !Admits(level, threshold)
    ensures threshold == Debug ==> Admits(level, threshold)
    ensures level == Off ==> Admits(level, threshold)
  {
    Ordinal(level) <= Ordinal(threshold)
  }

  /** A larger threshold admits every level a smaller one admits. */
  lemma AdmitsMonotone(level: LogLevel, t1: LogLevel, t2: LogLevel)
    requires Ordinal(t1) <= Ordinal(t2) && Admits(level, t1)
    ensures Admits(level, t2)
  {
  }

  /** The label the logging macros pass together with each severity. */
  function Label(l: LogLevel): string
    requires l != Off
  {
    match l
    case Error => "ERROR"
    case Warn => "WARN"
    case Info => "INFO"
    case Debug => "DEBUG"
  }

  /** The configuration record (`LogConfig`). */
  datatype LogConfig = LogConfig(
    logFile: string,
    runtimeLevel: LogLevel,
    enableConsole: bool,
    enableFile: bool,
    enableColor: bool,
    maxFileSize: nat,
    maxBackupFiles: int,
    rotateByDay: bool,
    enableModules: seq<string>,
    filterKeywords: seq<string>,
    enableSyslog: bool,
    syslogIdent: string)

  const DefaultLogFile: string := "yutils_log.txt"
  const DefaultMaxFileSize: nat := 500 * 1024 * 1024

  /** The member initialisers of `LogConfig`. */
  function DefaultConfig(): (c: LogConfig)
    ensures c.logFile == "yutils_log.txt" && c.runtimeLevel == Info
    ensures c.enableConsole && c.enableFile && c.enableColor
    ensures c.maxFileSize == 524288000 && c.maxBackupFiles == 10
    ensures c.rotateByDay && !c.enableSyslog && c.syslogIdent == "yutils"
    ensures c.enableModules == [] && c.filterKeywords == []
  {
    LogConfig(DefaultLogFile, Info, true, true, true, DefaultMaxFileSize, 10, true, [], [], false, "yutils")
  }

  /** The statistics record (`LogStats`): records submitted, records dropped,
      cumulative dispatch time in microseconds, and the deepest queue seen. */
  datatype LogStats = LogStats(totalLogs: nat, droppedLogs: nat, totalWriteTime: nat, maxQueueSize: nat)

  function InitialStats(): (s: LogStats)
    ensures s.totalLogs == 0 && s.droppedLogs == 0 && s.totalWriteTime == 0 && s.maxQueueSize == 0
  {
    LogStats(0, 0, 0, 0)
  }

  /** `MAX_QUEUE_SIZE`. */
  const MaxQueueSize: nat := 100000
}
