/** The string-backed enum of log channels. */
module LogChannel {
  import opened Wrappers
  import Text

  datatype LogChannel = Application | Domain | Infrastructure | Security | Performance | Audit

  /** The cases in declaration order, as `LogChannel::cases()` lists them. */
  const Cases: seq<LogChannel> := [Application, Domain, Infrastructure, Security, Performance, Audit]

  /** The PHP case name. */
  function Name(c: LogChannel): string {
    match c
    case Application => "APPLICATION"
    case Domain => "DOMAIN"
    case Infrastructure => "INFRASTRUCTURE"
    case Security => "SECURITY"
    case Performance => "PERFORMANCE"
    case Audit => "AUDIT"
  }

  /** The backing value, `$case->value`. */
  function Value(c: LogChannel): string {
    match c
    case Application => "application"
    case Domain => "domain"
    case Infrastructure => "infrastructure"
    case Security => "security"
    case Performance => "performance"
    case Audit => "audit"
  }

  /** `LogChannel::tryFrom($s)`: the case backed by `s`, or null. */
  function TryFrom(s: string): (r: Option<LogChannel>)
    ensures r.Some? ==> Value(r.value) == s
    ensures r.None? ==> forall c :: Value(c) != s
  {
    if s == "application" then Some(Application)
    else if s == "domain" then Some(Domain)
    else if s == "infrastructure" then Some(Infrastructure)
    else if s == "security" then Some(Security)
    else if s == "performance" then Some(Performance)
    else if s == "audit" then Some(Audit)
    else None
  }

  /** The case list is complete and repeats no case. */
  lemma CasesComplete(c: LogChannel)
    ensures c in Cases
    ensures |Cases| == 6
    ensures forall i, j :: 0 <= i < j < |Cases| ==> Cases[i] != Cases[j]
  {
  }

  /** Each backing value is the lower-cased case name. */
  lemma {:induction false} ValueIsLowerName(c: LogChannel)
    ensures Value(c) == Text.Lower(Name(c))
  {
    match c
    case Application =>
      Text.LowerMatches(Name(c), Value(c));
    case Domain =>
      Text.LowerMatches(Name(c), Value(c));
    case Infrastructure =>
      Text.LowerMatches(Name(c), Value(c));
    case Security =>
      Text.LowerMatches(Name(c), Value(c));
    case Performance =>
      Text.LowerMatches(Name(c), Value(c));
    case Audit =>
      Text.LowerMatches(Name(c), Value(c));
  }

  /** Distinct cases have distinct backing values. */
  lemma ValueInjective(c: LogChannel, d: LogChannel)
    requires Value(c) == Value(d)
    ensures c == d
  {
  }

  lemma {:induction false} TryFromValue(c: LogChannel)
    ensures TryFrom(Value(c)) == Some(c)
  {
    match c
    case Application =>
    case Domain =>
    case Infrastructure =>
    case Security =>
    case Performance =>
    case Audit =>
  }

  /** Values differing only in letter case are not accepted. */
  lemma TryFromIsCaseSensitive()
    ensures TryFrom("Audit") == None && TryFrom("AUDIT") == None
  {
  }
}
