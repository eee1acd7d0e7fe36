/** The string-backed enum of log levels. */
module LogLevel {
  import opened Wrappers
  import Text

  datatype LogLevel = Debug | Info | Warning | Error | Critical | Event | Audit

  /** The cases in declaration order, as `LogLevel::cases()` lists them. */
  const Cases: seq<LogLevel> := [Debug, Info, Warning, Error, Critical, Event, Audit]

  /** The PHP case name. */
  function Name(l: LogLevel): string {
    match l
    case Debug => "DEBUG"
    case Info => "INFO"
    case Warning => "WARNING"
    case Error => "ERROR"
    case Critical => "CRITICAL"
    case Event => "EVENT"
    case Audit => "AUDIT"
  }

  /** The backing value, `$case->value`. */
  function Value(l: LogLevel): string {
    match l
    case Debug => "debug"
    case Info => "info"
    case Warning => "warning"
    case Error => "error"
    case Critical => "critical"
    case Event => "event"
    case Audit => "audit"
  }

  /** `LogLevel::tryFrom($s)`: the case backed by `s`, or null. */
  function TryFrom(s: string): (r: Option<LogLevel>)
    ensures r.Some? ==> Value(r.value) == s
    ensures r.None? ==> forall l :: Value(l) != s
  {
    if s == "debug" then Some(Debug)
    else if s == "info" then Some(Info)
    else if s == "warning" then Some(Warning)
    else if s == "error" then Some(Error)
    else if s == "critical" then Some(Critical)
    else if s == "event" then Some(Event)
    else if s == "audit" then Some(Audit)
    else None
  }

  /** The case list is complete, in declaration order, and repeats no case. */
  lemma CasesComplete(l: LogLevel)
    ensures l in Cases
    ensures |Cases| == 7 && Cases[0] == Debug && Cases[6] == Audit
    ensures forall i, j :: 0 <= i < j < |Cases| ==> Cases[i] != Cases[j]
  {
  }

  /** Each backing value is the lower-cased case name. */
  lemma {:induction false} ValueIsLowerName(l: LogLevel)
    ensures Value(l) == Text.Lower(Name(l))
  {
    match l
    case Debug =>
      Text.LowerMatches(Name(l), Value(l));
    case Info =>
      Text.LowerMatches(Name(l), Value(l));
    case Warning =>
      Text.LowerMatches(Name(l), Value(l));
    case Error =>
      Text.LowerMatches(Name(l), Value(l));
    case Critical =>
      Text.LowerMatches(Name(l), Value(l));
    case Event =>
      Text.LowerMatches(Name(l), Value(l));
    case Audit =>
      Text.LowerMatches(Name(l), Value(l));
  }

  /** Distinct cases have distinct backing values. */
  lemma ValueInjective(l: LogLevel, m: LogLevel)
    requires Value(l) == Value(m)
    ensures l == m
  {
  }

  lemma {:induction false} TryFromValue(l: LogLevel)
    ensures TryFrom(Value(l)) == Some(l)
  {
    match l
    case Debug =>
    case Info =>
    case Warning =>
    case Error =>
    case Critical =>
    case Event =>
    case Audit =>
  }
}
