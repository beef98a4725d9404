/** The data contracts shared by server and client: the record types, and the zod schemas
    that validate request bodies. A zod parse collects one issue per failed check, fields in
    declaration order and, within a field, checks in declaration order; a body is accepted
    exactly when no issue is collected. */
module Schema {
  import opened Wrappers

  /** A percentage carried as an integer number of tenths: 85.3% is 853. */
  type Tenths = int

  /** A point in time, in milliseconds since the epoch. */
  type Millis = int

  /** 100%, in tenths. */
  const FullScale: Tenths := 1000

  datatype MetricType = Cpu | Memory
  datatype Severity = Critical | Warning | Info
  datatype LogLevel = Info | Warn | Error

  function MetricTypeName(t: MetricType): string {
    match t
    case Cpu => "CPU"
    case Memory => "MEMORY"
  }

  /** `z.enum(['CPU', 'MEMORY'])`. */
  function ParseMetricType(s: string): (r: Option<MetricType>)
    ensures r.Some? <==> s == "CPU" || s == "MEMORY"
    ensures r.Some? ==> MetricTypeName(r.value) == s
  {
    if s == "CPU" then Some(Cpu) else if s == "MEMORY" then Some(Memory) else None
  }

  function SeverityName(v: Severity): string {
    match v
    case Critical => "CRITICAL"
    case Warning => "WARNING"
    case Info => "INFO"
  }

  /** `z.enum(['CRITICAL', 'WARNING', 'INFO'])`. */
  function ParseSeverity(s: string): (r: Option<Severity>)
    ensures r.Some? <==> s == "CRITICAL" || s == "WARNING" || s == "INFO"
    ensures r.Some? ==> SeverityName(r.value) == s
  {
    if s == "CRITICAL" then Some(Critical)
    else if s == "WARNING" then Some(Warning)
    else if s == "INFO" then Some(Severity.Info)
    else None
  }

  function LogLevelName(l: LogLevel): string {
    match l
    case Info => "INFO"
    case Warn => "WARN"
    case Error => "ERROR"
  }

  /** The `'INFO' | 'WARN' | 'ERROR'` level of a log entry. */
  function ParseLogLevel(s: string): (r: Option<LogLevel>)
    ensures r.Some? <==> s == "INFO" || s == "WARN" || s == "ERROR"
    ensures r.Some? ==> LogLevelName(r.value) == s
  {
    if s == "INFO" then Some(LogLevel.Info)
    else if s == "WARN" then Some(Warn)
    else if s == "ERROR" then Some(Error)
    else None
  }

  /** Each enumeration name is read back as the value it names. */
  lemma EnumNamesRoundTrip(t: MetricType, v: Severity, l: LogLevel)
    ensures ParseMetricType(MetricTypeName(t)) == Some(t)
    ensures ParseSeverity(SeverityName(v)) == Some(v)
    ensures ParseLogLevel(LogLevelName(l)) == Some(l)
  {
  }

  datatype User = User(id: string, username: string, password: string)
  datatype InsertUser = InsertUser(username: string, password: string)

  datatype Session = Session(id: string, userId: string, username: string, token: string,
                             createdAt: Millis, expiresAt: Millis)
  datatype InsertSession = InsertSession(userId: string, username: string)

  datatype Metric = Metric(id: string, mtype: MetricType, value: Tenths, timestamp: Millis)
  datatype InsertMetric = InsertMetric(mtype: MetricType, value: Tenths)

  datatype Alert = Alert(id: string, atype: MetricType, severity: Severity, message: string,
                         value: Tenths, threshold: Tenths, timestamp: Millis, acknowledged: bool)
  datatype InsertAlert = InsertAlert(atype: MetricType, severity: Severity, message: string,
                                     value: Tenths, threshold: Tenths)

  datatype ThresholdConfig = ThresholdConfig(id: string, ttype: MetricType, warning: Tenths,
                                             critical: Tenths, updatedAt: Millis)
  datatype InsertThresholdConfig = InsertThresholdConfig(ttype: MetricType, warning: Tenths, critical: Tenths)
  /** A partial update: an absent field keeps its stored value. */
  datatype UpdateThresholdConfig = UpdateThresholdConfig(warning: Option<Tenths>, critical: Option<Tenths>)

  /** A classified log line (the time of parsing, which the analysis discards, is not kept). */
  datatype LogEntry = LogEntry(level: LogLevel, message: string)
  datatype LevelCounts = LevelCounts(info: nat, warn: nat, error: nat)
  datatype ErrorCount = ErrorCount(message: string, count: nat)
  datatype LogAnalysisResult = LogAnalysisResult(totalLines: nat, counts: LevelCounts, topErrors: seq<ErrorCount>)

  datatype RecentAlert = RecentAlert(atype: MetricType, timestamp: Millis, value: Tenths)
  datatype SummaryReport = SummaryReport(totalAlerts: nat, breakdownCpu: nat, breakdownMemory: nat,
                                         recentAlerts: seq<RecentAlert>,
                                         averageCpu: Tenths, averageMemory: Tenths,
                                         generatedAt: Millis)

  /** One failed zod check: the field it concerns and its message. */
  datatype Issue = Issue(path: string, message: string)

  /** Request bodies whose fields are present and of the expected JavaScript type; the
      enumerated fields are still raw strings. */
  datatype UserBody = UserBody(username: string, password: string)
  datatype RegisterBody = RegisterBody(username: string, password: string, confirmPassword: string)
  datatype MetricBody = MetricBody(mtype: string, value: Tenths)
  datatype AlertBody = AlertBody(atype: string, severity: string, message: string, value: Tenths, threshold: Tenths)
  datatype ThresholdBody = ThresholdBody(ttype: string, warning: Tenths, critical: Tenths)

  /** JavaScript's `s.length`: the number of UTF-16 code units, two for a character outside
      the Basic Multilingual Plane. */
  function JsLength(s: string): nat {
    if s == [] then 0 else JsLength(s[..|s| - 1]) + (if s[|s| - 1] as int >= 0x1_0000 then 2 else 1)
  }

  /** Each character takes one or two code units, and exactly one each when none lies outside
      the Basic Multilingual Plane. */
  lemma {:induction false} JsLengthBounds(s: string)
    ensures |s| <= JsLength(s) <= 2 * |s|
    ensures JsLength(s) == |s| <==> forall i :: 0 <= i < |s| ==> s[i] as int < 0x1_0000
  {
    if s != [] {
      var init := s[..|s| - 1];
      JsLengthBounds(init);
      assert forall i :: 0 <= i < |init| ==> init[i] == s[i];
    }
  }

  /** `z.string().min(n, message)`: zod compares `s.length`. */
  function MinLength(path: string, s: string, n: nat, message: string): seq<Issue> {
    if JsLength(s) < n then [Issue(path, message)] else []
  }

  /** `z.string().max(50)` with zod's default message. */
  function MaxLength50(path: string, s: string): seq<Issue> {
    if JsLength(s) > 50 then [Issue(path, "String must contain at most 50 character(s)")] else []
  }

  /** `z.number().min(0).max(100)` with zod's default messages. */
  function Percentage(path: string, v: Tenths): (issues: seq<Issue>)
    ensures issues == [] <==> 0 <= v <= FullScale
  {
    (if v < 0 then [Issue(path, "Number must be greater than or equal to 0")] else [])
    + (if v > FullScale then [Issue(path, "Number must be less than or equal to 100")] else [])
  }

  /** A `z.enum` failure, with zod's default message. */
  function EnumIssue(path: string, expected: string, received: string): Issue {
    Issue(path, "Invalid enum value. Expected " + expected + ", received '" + received + "'")
  }

  function MetricTypeIssues(path: string, s: string): (issues: seq<Issue>)
    ensures issues == [] <==> ParseMetricType(s).Some?
  {
    if ParseMetricType(s).Some? then [] else [EnumIssue(path, "'CPU' | 'MEMORY'", s)]
  }

  /** `insertUserSchema`: username of 3 to 50 characters, password of at least 8. */
  function InsertUserIssues(body: UserBody): (issues: seq<Issue>)
    ensures issues == [] <==> 3 <= JsLength(body.username) <= 50 && JsLength(body.password) >= 8
    ensures JsLength(body.username) < 3 ==> issues[0] == Issue("username", "Username must be at least 3 characters")
  {
    MinLength("username", body.username, 3, "Username must be at least 3 characters")
    + MaxLength50("username", body.username)
    + MinLength("password", body.password, 8, "Password must be at least 8 characters")
  }

  /** `loginSchema`: username of at least 3 characters, a non-empty password. */
  function LoginIssues(body: UserBody): (issues: seq<Issue>)
    ensures issues == [] <==> JsLength(body.username) >= 3 && JsLength(body.password) >= 1
  {
    MinLength("username", body.username, 3, "Username must be at least 3 characters")
    + MinLength("password", body.password, 1, "Password is required")
  }

  /** `registerSchema`: the `insertUserSchema` checks, then a refinement that the confirmation
      equals the password, reported on `confirmPassword` after the field issues. */
  function RegisterIssues(body: RegisterBody): (issues: seq<Issue>)
    ensures issues == [] <==>
      3 <= JsLength(body.username) <= 50 && JsLength(body.password) >= 8 && body.password == body.confirmPassword
    ensures body.password != body.confirmPassword ==>
      issues != [] && issues[|issues| - 1] == Issue("confirmPassword", "Passwords do not match")
  {
    InsertUserIssues(UserBody(body.username, body.password))
    + (if body.password != body.confirmPassword then [Issue("confirmPassword", "Passwords do not match")] else [])
  }

  /** `insertMetricSchema`: a known type and a value between 0% and 100%. */
  function ParseInsertMetric(body: MetricBody): (r: Result<InsertMetric, seq<Issue>>)
    ensures r.Ok? <==> (body.mtype == "CPU" || body.mtype == "MEMORY") && 0 <= body.value <= FullScale
    ensures r.Ok? ==> MetricTypeName(r.value.mtype) == body.mtype && r.value.value == body.value
    ensures r.Err? ==> r.error != []
  {
    var issues := MetricTypeIssues("type", body.mtype) + Percentage("value", body.value);
    if issues == [] then Ok(InsertMetric(ParseMetricType(body.mtype).value, body.value)) else Err(issues)
  }

  /** `insertAlertSchema`: known type and severity; message, value and threshold unconstrained. */
  function ParseInsertAlert(body: AlertBody): (r: Result<InsertAlert, seq<Issue>>)
    ensures r.Ok? <==> ParseMetricType(body.atype).Some? && ParseSeverity(body.severity).Some?
    ensures r.Ok? ==> && MetricTypeName(r.value.atype) == body.atype
                      && SeverityName(r.value.severity) == body.severity
                      && r.value.message == body.message
                      && r.value.value == body.value && r.value.threshold == body.threshold
    ensures r.Err? ==> r.error != []
  {
    var issues := MetricTypeIssues("type", body.atype)
      + (if ParseSeverity(body.severity).Some? then []
         else [EnumIssue("severity", "'CRITICAL' | 'WARNING' | 'INFO'", body.severity)]);
    if issues == [] then
      Ok(InsertAlert(ParseMetricType(body.atype).value, ParseSeverity(body.severity).value,
                     body.message, body.value, body.threshold))
    else Err(issues)
  }

  /** `insertThresholdConfigSchema`: a known type and both bounds between 0% and 100%; the
      bounds are not ordered against each other. */
  function ParseInsertThreshold(body: ThresholdBody): (r: Result<InsertThresholdConfig, seq<Issue>>)
    ensures r.Ok? <==> && (body.ttype == "CPU" || body.ttype == "MEMORY")
                       && 0 <= body.warning <= FullScale && 0 <= body.critical <= FullScale
    ensures r.Ok? ==> && MetricTypeName(r.value.ttype) == body.ttype
                      && r.value.warning == body.warning && r.value.critical == body.critical
    ensures r.Err? ==> r.error != []
  {
    var issues := MetricTypeIssues("type", body.ttype)
      + Percentage("warningThreshold", body.warning) + Percentage("criticalThreshold", body.critical);
    if issues == [] then
      Ok(InsertThresholdConfig(ParseMetricType(body.ttype).value, body.warning, body.critical))
    else Err(issues)
  }

  /** `updateThresholdConfigSchema`: both fields optional, each present one between 0% and 100%;
      the empty update is valid and the bounds are not ordered against each other. */
  function UpdateThresholdIssues(u: UpdateThresholdConfig): (issues: seq<Issue>)
    ensures issues == [] <==> && (u.warning.Some? ==> 0 <= u.warning.value <= FullScale)
                              && (u.critical.Some? ==> 0 <= u.critical.value <= FullScale)
  {
    (if u.warning.Some? then Percentage("warningThreshold", u.warning.value) else [])
    + (if u.critical.Some? then Percentage("criticalThreshold", u.critical.value) else [])
  }
}
