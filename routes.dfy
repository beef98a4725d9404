/** The decisions of the HTTP handlers: registration, login, logout, threshold update, log
    upload and the summary report. A response is either a success carrying the JSON payload or
    a failure carrying the status code and the error message. Password hashing and checking
    are parameters: the hash of the new password, and the outcome of comparing a password with
    a stored hash. */
module Routes {
  import opened Wrappers
  import opened Schema
  import opened OrderedMaps
  import opened StableSort
  import opened Storage
  import opened LogAnalyzer
  import opened Filters

  datatype Response<T> = Success(value: T) | Failure(status: int, error: string)

  /** The payload of a successful registration or login. */
  datatype AuthPayload = AuthPayload(token: string, username: string)

  /** The message of a rejected request body: the first issue zod reports. */
  function FirstIssue(issues: seq<Issue>): string
    requires issues != []
  {
    issues[0].message
  }

  /** The tokens of the sessions belonging to `userId`. */
  ghost function SessionsOf(sessions: OrderedMap<string, Session>, userId: string): set<string> {
    set k | k in sessions.vals && sessions.vals[k].userId == userId
  }

  /** `POST /api/register`: validates the body against `insertUserSchema` (the confirmation
      is not checked here), refuses a taken username, then creates the user with the hashed
      password and a first session. */
  method Register(store: MemStorage, body: UserBody, hashed: string, userId: string,
                  sessionId: string, token: string, now: Millis) returns (r: Response<AuthPayload>)
    requires store.Valid()
    modifies store
    ensures store.Valid()
    ensures InsertUserIssues(body) != [] ==>
      r == Failure(400, FirstIssue(InsertUserIssues(body))) && store.State() == old(store.State())
    ensures InsertUserIssues(body) == [] && (exists k :: k in old(store.users.vals) && old(store.users.vals[k]).username == body.username) ==>
      r == Failure(400, "Username already taken") && store.State() == old(store.State())
    ensures r.Success? <==>
      InsertUserIssues(body) == [] && forall k :: k in old(store.users.vals) ==> old(store.users.vals[k]).username != body.username
    ensures r.Success? ==>
      var user := User(userId, body.username, hashed);
      && r.value == AuthPayload(token, body.username)
      && store.State() == old(store.State()).(
           users := Set(old(store.users), userId, user),
           sessions := Set(old(store.sessions), token, Session(sessionId, userId, body.username, token, now, now + SessionLifetime)))
  {
    var issues := InsertUserIssues(body);
    if issues != [] {
      return Failure(400, FirstIssue(issues));
    }
    var existing := store.GetUserByUsername(body.username);
    if existing.Some? {
      return Failure(400, "Username already taken");
    }
    var user := store.CreateUser(InsertUser(body.username, hashed), userId);
    var session := store.CreateSession(InsertSession(user.id, user.username), sessionId, token, now);
    r := Success(AuthPayload(session.token, user.username));
  }

  /** `POST /api/login`: validates the body, answers the same 401 for an unknown user and a
      wrong password, and on success replaces all of the user's sessions by a new one.
      `matches(password, hash)` is the outcome of `bcrypt.compare`. */
  method Login(store: MemStorage, body: UserBody, matches: (string, string) -> bool,
               sessionId: string, token: string, now: Millis) returns (r: Response<AuthPayload>)
    requires store.Valid()
    modifies store
    ensures store.Valid()
    ensures LoginIssues(body) != [] ==> r == Failure(400, FirstIssue(LoginIssues(body)))
    ensures r.Failure? ==> store.State() == old(store.State())
    ensures r.Failure? && r.status == 401 ==> r.error == "Invalid credentials"
    ensures LoginIssues(body) == [] && (forall k :: k in old(store.users.vals) ==> old(store.users.vals[k]).username != body.username) ==>
      r == Failure(401, "Invalid credentials")
    ensures LoginIssues(body) == [] && UserNamed(Values(old(store.users)), body.username).Some? ==>
      var u := UserNamed(Values(old(store.users)), body.username).value;
      && (r.Success? <==> matches(body.password, u.password))
      && (r.Failure? ==> r == Failure(401, "Invalid credentials"))
    ensures r.Success? ==>
      && LoginIssues(body) == [] && UserNamed(Values(old(store.users)), body.username).Some?
      && var u := UserNamed(Values(old(store.users)), body.username).value;
         && u.username == body.username && u.id in old(store.users.vals) && old(store.users.vals[u.id]) == u
         && r.value == AuthPayload(token, body.username)
         && store.sessions == Set(RemoveKeys(old(store.sessions), SessionsOf(old(store.sessions), u.id)), token,
                                  Session(sessionId, u.id, body.username, token, now, now + SessionLifetime))
         && SessionsOf(store.sessions, u.id) == {token}
    ensures r.Success? ==> store.State() == old(store.State()).(sessions := store.sessions)
  {
    var issues := LoginIssues(body);
    if issues != [] {
      return Failure(400, FirstIssue(issues));
    }
    var user := store.GetUserByUsername(body.username);
    if user.None? {
      return Failure(401, "Invalid credentials");
    }
    if !matches(body.password, user.value.password) {
      return Failure(401, "Invalid credentials");
    }
    var session := ReplaceSessions(store, user.value, sessionId, token, now);
    r := Success(AuthPayload(session.token, user.value.username));
  }

  /** The login's session step: every session of the user is deleted, then a new one is
      created, so afterwards the user holds exactly the new session. */
  method ReplaceSessions(store: MemStorage, user: User, sessionId: string, token: string, now: Millis)
    returns (session: Session)
    requires store.Valid()
    modifies store
    ensures store.Valid()
    ensures session == Session(sessionId, user.id, user.username, token, now, now + SessionLifetime)
    ensures store.State() == old(store.State()).(
      sessions := Set(RemoveKeys(old(store.sessions), SessionsOf(old(store.sessions), user.id)), token, session))
    ensures SessionsOf(store.sessions, user.id) == {token}
  {
    ghost var before := store.sessions;
    store.DeleteSessionsByUserId(user.id);
    assert OwnedBy(before, before.keys, user.id) == SessionsOf(before, user.id);
    session := store.CreateSession(InsertSession(user.id, user.username), sessionId, token, now);
    SetMeaning(RemoveKeys(before, SessionsOf(before, user.id)), token, session);
  }

  /** `POST /api/logout`: deletes the session of the bearer token, if one was sent. */
  method Logout(store: MemStorage, token: Option<string>) returns (r: Response<bool>)
    requires store.Valid()
    modifies store
    ensures store.Valid()
    ensures r == Success(true)
    ensures token.None? ==> store.State() == old(store.State())
    ensures token.Some? ==> store.State() == old(store.State()).(sessions := Delete(old(store.sessions), token.value))
  {
    if token.Some? {
      store.DeleteSession(token.value);
    }
    r := Success(true);
  }

  /** `PUT /api/thresholds/:type`: refuses an unknown type before looking at the body,
      refuses an invalid body, and otherwise merges the update; a missing configuration
      surfaces as a 500. */
  method UpdateThresholdRoute(store: MemStorage, typeParam: string, body: UpdateThresholdConfig, now: Millis)
    returns (r: Response<ThresholdConfig>)
    requires store.Valid()
    modifies store
    ensures store.Valid()
    ensures ParseMetricType(typeParam).None? ==> r == Failure(400, "Invalid threshold type")
    ensures ParseMetricType(typeParam).Some? && UpdateThresholdIssues(body) != [] ==>
      r == Failure(400, FirstIssue(UpdateThresholdIssues(body)))
    ensures r.Failure? ==> store.State() == old(store.State())
    ensures r.Success? <==> ParseMetricType(typeParam).Some? && UpdateThresholdIssues(body) == []
                            && ParseMetricType(typeParam).value in old(store.thresholds.vals)
    ensures r.Success? ==>
      var t := ParseMetricType(typeParam).value;
      && r.value == Merge(old(store.thresholds.vals[t]), body, now)
      && store.State() == old(store.State()).(thresholds := Set(old(store.thresholds), t, r.value))
  {
    var t := ParseMetricType(typeParam);
    if t.None? {
      return Failure(400, "Invalid threshold type");
    }
    var issues := UpdateThresholdIssues(body);
    if issues != [] {
      return Failure(400, FirstIssue(issues));
    }
    var updated := store.UpdateThreshold(t.value, body, now);
    if updated.Err? {
      return Failure(500, "Failed to update threshold");
    }
    r := Success(updated.value);
  }

  /** `POST /api/logs/analyze`: the analysis of the uploaded text, or 400 without a file. */
  method LogUpload(file: Option<string>) returns (r: Response<LogAnalysisResult>)
    ensures file.None? ==> r == Failure(400, "No log file uploaded")
    ensures file.Some? ==> r == Success(Analysis(file.value))
  {
    if file.None? {
      return Failure(400, "No log file uploaded");
    }
    var analysis := Analyze(file.value);
    r := Success(analysis);
  }

  // ------------------------------------------------------------ the summary report

  /** The test `a => a.type === t`. */
  function AlertOfType(t: MetricType): Alert -> bool {
    (a: Alert) => a.atype == t
  }

  /** `alerts.filter(a => a.type === t)`. */
  function AlertsOfType(alerts: seq<Alert>, t: MetricType): (r: seq<Alert>)
    ensures forall a :: a in r <==> a in alerts && a.atype == t
  {
    Filter(alerts, AlertOfType(t))
  }

  /** The filter lists the alerts of the type in the order given, each position once. */
  lemma AlertsOfTypePositions(alerts: seq<Alert>, t: MetricType)
    ensures exists idx :: SelectsPositions(alerts, AlertOfType(t), AlertsOfType(alerts, t), idx)
  {
    FilterPositions(alerts, AlertOfType(t));
    var idx :| SelectsPositions(alerts, AlertOfType(t), Filter(alerts, AlertOfType(t)), idx);
    assert SelectsPositions(alerts, AlertOfType(t), AlertsOfType(alerts, t), idx);
  }

  /** Every alert is a CPU alert or a memory alert, so the breakdown adds up to the total. */
  lemma {:induction false} BreakdownTotal(alerts: seq<Alert>)
    ensures |AlertsOfType(alerts, Cpu)| + |AlertsOfType(alerts, Memory)| == |alerts|
  {
    if alerts != [] {
      BreakdownTotal(alerts[1..]);
    }
  }

  function Project(a: Alert): RecentAlert {
    RecentAlert(a.atype, a.timestamp, a.value)
  }

  /** `alerts.slice(0, 10).map(...)`. */
  function Recent(alerts: seq<Alert>): (r: seq<RecentAlert>)
    ensures |r| == if |alerts| < 10 then |alerts| else 10
    ensures forall i :: 0 <= i < |r| ==> r[i] == Project(alerts[i])
  {
    var first := Take(alerts, 10);
    seq(|first|, i requires 0 <= i < |first| => Project(first[i]))
  }

  function SumValues(ms: seq<Metric>): int {
    if ms == [] then 0 else SumValues(ms[..|ms| - 1]) + ms[|ms| - 1].value
  }

  /** The average of the values, rounded to one decimal the way `Math.round(x * 10) / 10`
      does (halves up), in tenths; 0 for no values. */
  function Average(ms: seq<Metric>): (r: Tenths)
    ensures ms == [] ==> r == 0
    ensures ms != [] ==> 2 * |ms| * r <= 2 * SumValues(ms) + |ms| < 2 * |ms| * r + 2 * |ms|
  {
    if ms == [] then 0 else (2 * SumValues(ms) + |ms|) / (2 * |ms|)
  }

  lemma {:induction false} SumValuesBounds(ms: seq<Metric>)
    requires forall m :: m in ms ==> 0 <= m.value <= FullScale
    ensures 0 <= SumValues(ms) <= FullScale * |ms|
  {
    if ms != [] {
      assert ms[|ms| - 1] in ms;
      SumValuesBounds(ms[..|ms| - 1]);
    }
  }

  /** The average of percentages is a percentage. */
  lemma AverageBounds(ms: seq<Metric>)
    requires forall m :: m in ms ==> 0 <= m.value <= FullScale
    ensures 0 <= Average(ms) <= FullScale
  {
    SumValuesBounds(ms);
    if ms != [] {
      var n := |ms|;
      var r := Average(ms);
      assert 2 * n * r < 2 * n * (FullScale + 1);
      ProductOrder(2 * n, r, FullScale + 1);
    }
  }

  lemma ProductOrder(d: int, x: int, y: int)
    requires d > 0 && d * x < d * y
    ensures x < y
  {
    assert d * y - d * x == d * (y - x);
  }

  /** The report built from all alerts, newest first, and the newest metrics. */
  function Summarize(alerts: seq<Alert>, metrics: seq<Metric>, now: Millis): SummaryReport {
    SummaryReport(|alerts|, |AlertsOfType(alerts, Cpu)|, |AlertsOfType(alerts, Memory)|,
                  Recent(alerts),
                  Average(MetricsOfType(metrics, Cpu)), Average(MetricsOfType(metrics, Memory)),
                  now)
  }

  /** The breakdown adds up to the total, the recent alerts are the first ten, and each
      average is over the metrics of its type among those given. */
  lemma SummarizeMeaning(alerts: seq<Alert>, metrics: seq<Metric>, now: Millis)
    ensures var r := Summarize(alerts, metrics, now);
            && r.breakdownCpu + r.breakdownMemory == r.totalAlerts == |alerts|
            && |r.recentAlerts| == (if |alerts| < 10 then |alerts| else 10)
            && (forall i :: 0 <= i < |r.recentAlerts| ==> r.recentAlerts[i] == Project(alerts[i]))
            && ((forall m :: m in metrics ==> m.mtype != Cpu) ==> r.averageCpu == 0)
            && ((forall m :: m in metrics ==> m.mtype != Memory) ==> r.averageMemory == 0)
            && r.generatedAt == now
  {
    BreakdownTotal(alerts);
    NoneOfType(metrics, Cpu);
    NoneOfType(metrics, Memory);
  }

  /** `GET /api/summary`: the report over all alerts, newest first, and the ten newest metrics
      of either type; fetching the metrics re-sorts the stored history. */
  method Summary(store: MemStorage, now: Millis) returns (r: SummaryReport)
    requires store.Valid()
    modifies store
    ensures store.Valid()
    ensures store.State() == old(store.State()).(metrics := SortDesc(old(store.metrics), MetricTime))
    ensures r == Summarize(SortDesc(Values(old(store.alerts)), AlertTime), SliceFromStart(store.metrics, 10), now)
    ensures r.totalAlerts == |old(store.alerts.keys)|
    ensures r.breakdownCpu + r.breakdownMemory == r.totalAlerts
  {
    var alerts := store.GetAlerts();
    var metrics := store.GetMetrics(10);
    r := Summarize(alerts, metrics, now);
    SummarizeMeaning(alerts, metrics, now);
  }
}
