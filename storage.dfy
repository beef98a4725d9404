/** The in-memory store: users, sessions, a bounded metric history, an alert table and the
    threshold registry. Each table is a JavaScript `Map` (an ordered map here), the metric
    history an array. Fresh identifiers (`randomUUID()`) and the current time (`new Date()`)
    are parameters of the operations that use them. */
module Storage {
  import opened Wrappers
  import opened Schema
  import opened OrderedMaps
  import opened StableSort
  import opened Filters

  /** At most this many metrics are kept. */
  const MetricCap: nat := 1000

  /** A session lives for 24 hours, in milliseconds. */
  const SessionLifetime: int := 24 * 60 * 60 * 1000

  /** The sort keys of the newest-first comparators. */
  function MetricTime(m: Metric): int { m.timestamp }
  function AlertTime(a: Alert): int { a.timestamp }

  /** `s.slice(0, limit)`: a negative limit counts from the end, and clamps at zero. */
  function SliceFromStart<T>(s: seq<T>, limit: int): (r: seq<T>)
    ensures r <= s
    ensures 0 <= limit ==> |r| == if limit < |s| then limit else |s|
    ensures limit < 0 ==> |r| == if |s| + limit < 0 then 0 else |s| + limit
  {
    if 0 <= limit then Take(s, limit)
    else if |s| + limit < 0 then []
    else s[..|s| + limit]
  }

  /** `s.find(p)`. */
  function Find<T>(s: seq<T>, p: T -> bool): Option<T> {
    if s == [] then None else if p(s[0]) then Some(s[0]) else Find(s[1..], p)
  }

  /** `find` returns the first element satisfying `p`, and `undefined` when none does. */
  lemma {:induction false} FindMeaning<T>(s: seq<T>, p: T -> bool)
    ensures Find(s, p).Some? ==>
      exists i :: 0 <= i < |s| && s[i] == Find(s, p).value && p(s[i]) && forall j :: 0 <= j < i ==> !p(s[j])
    ensures Find(s, p).None? <==> forall i :: 0 <= i < |s| ==> !p(s[i])
  {
    if s != [] && !p(s[0]) {
      FindMeaning(s[1..], p);
      assert forall i :: 1 <= i < |s| ==> s[i] == s[1..][i - 1];
      if Find(s, p).Some? {
        var i :| 0 <= i < |s[1..]| && s[1..][i] == Find(s, p).value && p(s[1..][i])
               && forall j :: 0 <= j < i ==> !p(s[1..][j]);
        assert s[i + 1] == s[1..][i];
        forall j | 0 <= j < i + 1 ensures !p(s[j]) {
          if j > 0 { assert s[j] == s[1..][j - 1]; }
        }
      }
    }
  }

  /** The test `m => m.type === t`. */
  function OfType(t: MetricType): Metric -> bool {
    (m: Metric) => m.mtype == t
  }

  /** `metrics.filter(m => m.type === t)`. */
  function MetricsOfType(ms: seq<Metric>, t: MetricType): (r: seq<Metric>)
    ensures forall m :: m in r <==> m in ms && m.mtype == t
    ensures |r| <= |ms|
  {
    Filter(ms, OfType(t))
  }

  /** The filter lists the metrics of the type at their stored positions, in stored order,
      each position once. */
  lemma MetricsOfTypePositions(ms: seq<Metric>, t: MetricType)
    ensures exists idx :: SelectsPositions(ms, OfType(t), MetricsOfType(ms, t), idx)
  {
    FilterPositions(ms, OfType(t));
    var idx :| SelectsPositions(ms, OfType(t), Filter(ms, OfType(t)), idx);
    assert SelectsPositions(ms, OfType(t), MetricsOfType(ms, t), idx);
  }

  /** The metric history after a new metric has been pushed: when it holds more than
      `MetricCap` entries it is sorted newest-first and cut to `MetricCap`. */
  function Capped(ms: seq<Metric>): (r: seq<Metric>)
    ensures |r| == if |ms| <= MetricCap then |ms| else MetricCap
    ensures |ms| <= MetricCap ==> r == ms
  {
    if |ms| <= MetricCap then ms else Take(SortDesc(ms, MetricTime), MetricCap)
  }

  /** The cap keeps only metrics that were there, and above the cap leaves them newest first. */
  lemma CappedMeaning(ms: seq<Metric>)
    ensures multiset(Capped(ms)) <= multiset(ms)
    ensures |ms| > MetricCap ==> SortedDesc(Capped(ms), MetricTime)
  {
    if |ms| > MetricCap {
      var sorted := SortDesc(ms, MetricTime);
      var r := Capped(ms);
      assert sorted == r + sorted[MetricCap..];
      forall i, j | 0 <= i < j < |r| ensures MetricTime(r[i]) >= MetricTime(r[j]) {
        assert r[i] == sorted[i] && r[j] == sorted[j];
      }
    }
  }

  /** The cap drops only the oldest metrics: a metric that is dropped is no newer than any kept one. */
  lemma CappedDropsOldest(ms: seq<Metric>, y: Metric)
    requires y in ms && y !in Capped(ms)
    ensures forall m :: m in Capped(ms) ==> m.timestamp >= y.timestamp
  {
    var sorted := SortDesc(ms, MetricTime);
    assert y in multiset(ms);
    assert y in sorted;
    TakeOmitted(sorted, MetricTime, MetricCap, y);
  }

  /** When one metric too many has been pushed, the cap drops a single oldest metric: any metric
      with an older one beside it survives. */
  lemma CappedKeepsNewer(ms: seq<Metric>, m: Metric, x: Metric)
    requires |ms| == MetricCap + 1 && m in ms && x in ms && x.timestamp < m.timestamp
    ensures m in Capped(ms)
  {
    var sorted := SortDesc(ms, MetricTime);
    assert m in multiset(sorted) && x in multiset(sorted);
    var j :| 0 <= j < |sorted| && sorted[j] == m;
    var i :| 0 <= i < |sorted| && sorted[i] == x;
    assert j < i <= MetricCap;
    assert Capped(ms)[j] == m;
  }

  /** The cap only removes metrics. */
  lemma CappedSubset(ms: seq<Metric>)
    ensures forall x :: x in Capped(ms) ==> x in ms
  {
    CappedMeaning(ms);
    forall x | x in Capped(ms) ensures x in ms {
      assert x in multiset(Capped(ms));
      assert x in multiset(ms);
    }
  }

  /** The first element of a list sorted newest-first is a newest one. */
  lemma SortedHeadNewest(ms: seq<Metric>)
    requires ms != []
    ensures forall m :: m in ms ==> m.timestamp <= SortDesc(ms, MetricTime)[0].timestamp
    ensures SortDesc(ms, MetricTime)[0] in ms
  {
    var sorted := SortDesc(ms, MetricTime);
    assert sorted[0] in multiset(ms);
    forall m | m in ms ensures m.timestamp <= sorted[0].timestamp {
      assert m in multiset(sorted);
      var j :| 0 <= j < |sorted| && sorted[j] == m;
      if j > 0 { assert MetricTime(sorted[0]) >= MetricTime(sorted[j]); }
    }
  }

  /** `latest.cpu` / `latest.memory`: the head of the newest-first list of that type. */
  function Latest(ms: seq<Metric>, t: MetricType): Option<Metric> {
    var sorted := SortDesc(MetricsOfType(ms, t), MetricTime);
    if sorted == [] then None else Some(sorted[0])
  }

  /** The latest metric of a type is a stored metric of that type with the largest timestamp,
      and there is none exactly when no metric of that type is stored. */
  lemma LatestMeaning(ms: seq<Metric>, t: MetricType)
    ensures Latest(ms, t).None? <==> forall m :: m in ms ==> m.mtype != t
    ensures Latest(ms, t).Some? ==>
      && Latest(ms, t).value in ms && Latest(ms, t).value.mtype == t
      && forall m :: m in ms && m.mtype == t ==> m.timestamp <= Latest(ms, t).value.timestamp
  {
    var of := MetricsOfType(ms, t);
    if of != [] {
      SortedHeadNewest(of);
    } else {
      assert forall m :: m in ms ==> m.mtype != t;
    }
  }

  /** A stored metric of type `t` newer than every other metric of that type is the latest one. */
  lemma LatestIs(ms: seq<Metric>, m: Metric, t: MetricType)
    requires m in ms && m.mtype == t
    requires forall x :: x in ms && x != m && x.mtype == t ==> x.timestamp < m.timestamp
    ensures Latest(ms, t) == Some(m)
  {
    LatestMeaning(ms, t);
  }

  /** The alert table after `acknowledgeAlert(id)`. */
  function Acknowledge(alerts: OrderedMap<string, Alert>, id: string): (r: OrderedMap<string, Alert>)
    requires OrderedMaps.Valid(alerts)
    ensures OrderedMaps.Valid(r)
  {
    if id in alerts.vals then Set(alerts, id, alerts.vals[id].(acknowledged := true)) else alerts
  }

  /** Acknowledging flags that alert only, keeps the order of the table, and an unknown id
      changes nothing. */
  lemma AcknowledgeMeaning(alerts: OrderedMap<string, Alert>, id: string)
    requires OrderedMaps.Valid(alerts)
    ensures Acknowledge(alerts, id).keys == alerts.keys
    ensures forall k :: k in Acknowledge(alerts, id).vals <==> k in alerts.vals
    ensures id in alerts.vals ==> Acknowledge(alerts, id).vals[id] == alerts.vals[id].(acknowledged := true)
    ensures forall k :: k in alerts.vals && k != id ==> Acknowledge(alerts, id).vals[k] == alerts.vals[k]
  {
    if id in alerts.vals {
      SetMeaning(alerts, id, alerts.vals[id].(acknowledged := true));
    }
  }

  /** Acknowledging twice is acknowledging once. */
  lemma AcknowledgeIdempotent(alerts: OrderedMap<string, Alert>, id: string)
    requires OrderedMaps.Valid(alerts)
    ensures Acknowledge(Acknowledge(alerts, id), id) == Acknowledge(alerts, id)
  {
    if id in alerts.vals {
      var once := Acknowledge(alerts, id);
      AcknowledgeMeaning(alerts, id);
      assert once.vals[id].(acknowledged := true) == once.vals[id];
      assert once.vals[id := once.vals[id]] == once.vals;
    }
  }

  /** The stored configuration after a partial update: present fields replace the stored
      bounds, absent ones keep them, and the timestamp is refreshed. */
  function Merge(c: ThresholdConfig, u: UpdateThresholdConfig, now: Millis): (r: ThresholdConfig)
    ensures r.id == c.id && r.ttype == c.ttype && r.updatedAt == now
    ensures r.warning == u.warning.GetOr(c.warning) && r.critical == u.critical.GetOr(c.critical)
  {
    c.(warning := u.warning.GetOr(c.warning), critical := u.critical.GetOr(c.critical), updatedAt := now)
  }

  /** The empty update changes only the timestamp. */
  lemma MergeEmpty(c: ThresholdConfig, now: Millis)
    ensures Merge(c, UpdateThresholdConfig(None, None), now) == c.(updatedAt := now)
  {
  }

  /** The filter is empty exactly when no metric has the type. */
  lemma NoneOfType(ms: seq<Metric>, t: MetricType)
    ensures MetricsOfType(ms, t) == [] <==> forall m :: m in ms ==> m.mtype != t
  {
    var r := MetricsOfType(ms, t);
    if r != [] {
      assert r[0] in r;
    }
  }

  /** The record `createMetric` stores. */
  function NewMetric(ins: InsertMetric, id: string, now: Millis): Metric {
    Metric(id, ins.mtype, ins.value, now)
  }

  /** The record `createAlert` stores: not yet acknowledged. */
  function NewAlert(ins: InsertAlert, id: string, now: Millis): Alert {
    Alert(id, ins.atype, ins.severity, ins.message, ins.value, ins.threshold, now, false)
  }

  /** Whether `getSession` treats a session as expired, and `getSessionByUserId` as live. */
  predicate Expired(s: Session, now: Millis) { s.expiresAt < now }
  predicate Live(s: Session, now: Millis) { s.expiresAt > now }

  /** `getUserByUsername`: the first user with that name, in creation order. */
  function UserNamed(users: seq<User>, username: string): Option<User> {
    Find(users, (u: User) => u.username == username)
  }

  /** `getSessionByUserId`: the first live session of the user, in insertion order. */
  function SessionOfUser(sessions: seq<Session>, userId: string, now: Millis): Option<Session> {
    Find(sessions, (s: Session) => s.userId == userId && Live(s, now))
  }

  /** At its expiry instant a session is neither expired for `getSession` nor live for
      `getSessionByUserId`: the token lookup still returns it while the user lookup skips it. */
  lemma SessionExpiryBoundary(sessions: seq<Session>, s: Session, now: Millis)
    requires s in sessions && s.expiresAt == now
    ensures !Expired(s, now)
    ensures SessionOfUser(sessions, s.userId, now) != Some(s)
  {
    FindMeaning(sessions, (x: Session) => x.userId == s.userId && Live(x, now));
  }

  /** The tokens among `tokens` whose session in `m` belongs to `userId`. */
  function OwnedBy(m: OrderedMap<string, Session>, tokens: seq<string>, userId: string): set<string> {
    set t | t in tokens && t in m.vals && m.vals[t].userId == userId
  }

  lemma OwnedByNone(m: OrderedMap<string, Session>, userId: string)
    requires OrderedMaps.Valid(m)
    ensures RemoveKeys(m, OwnedBy(m, m.keys[..0], userId)) == m
  {
    assert OwnedBy(m, m.keys[..0], userId) == {};
    MinusNothing(m.keys, {});
    assert m.vals - {} == m.vals;
  }

  /** Extending the walked prefix by one key adds that key exactly when its session is the user's. */
  lemma OwnedBySnoc(m: OrderedMap<string, Session>, userId: string, i: nat)
    requires OrderedMaps.Valid(m) && i < |m.keys|
    ensures OwnedBy(m, m.keys[..i + 1], userId)
      == OwnedBy(m, m.keys[..i], userId) + (if m.vals[m.keys[i]].userId == userId then {m.keys[i]} else {})
  {
    assert m.keys[..i + 1] == m.keys[..i] + [m.keys[i]];
  }

  /** One step of the deleting walk over the snapshot `m`. */
  lemma OwnedByStep(m: OrderedMap<string, Session>, userId: string, i: nat)
    requires OrderedMaps.Valid(m) && i < |m.keys|
    ensures var cur := RemoveKeys(m, OwnedBy(m, m.keys[..i], userId));
            var t := m.keys[i];
            RemoveKeys(m, OwnedBy(m, m.keys[..i + 1], userId))
              == if m.vals[t].userId == userId then Delete(cur, t) else cur
  {
    var t := m.keys[i];
    var before := OwnedBy(m, m.keys[..i], userId);
    OwnedBySnoc(m, userId, i);
    if m.vals[t].userId == userId {
      RemoveKeysTwice(m, before, {t});
      assert Delete(RemoveKeys(m, before), t) == RemoveKeys(RemoveKeys(m, before), {t});
    } else {
      assert before + {} == before;
    }
  }

  /** The contents of every table, as values. */
  datatype StoreState = StoreState(
    users: OrderedMap<string, User>,
    sessions: OrderedMap<string, Session>,
    metrics: seq<Metric>,
    alerts: OrderedMap<string, Alert>,
    thresholds: OrderedMap<MetricType, ThresholdConfig>)

  class MemStorage {
    var users: OrderedMap<string, User>
    var sessions: OrderedMap<string, Session>
    var metrics: seq<Metric>
    var alerts: OrderedMap<string, Alert>
    var thresholds: OrderedMap<MetricType, ThresholdConfig>

    /** Every table is a well-formed map keyed by its records' own key, and the metric
        history holds at most `MetricCap` entries. */
    ghost predicate Valid()
      reads this
    {
      && OrderedMaps.Valid(users) && (forall k :: k in users.vals ==> users.vals[k].id == k)
      && OrderedMaps.Valid(sessions) && (forall k :: k in sessions.vals ==> sessions.vals[k].token == k)
      && |metrics| <= MetricCap
      && OrderedMaps.Valid(alerts) && (forall k :: k in alerts.vals ==> alerts.vals[k].id == k)
      && OrderedMaps.Valid(thresholds) && (forall k :: k in thresholds.vals ==> thresholds.vals[k].ttype == k)
    }

    function State(): StoreState
      reads this
    {
      StoreState(users, sessions, metrics, alerts, thresholds)
    }

    /** Both metric types have a threshold configuration. */
    ghost predicate Seeded()
      reads this
    {
      Cpu in thresholds.vals && Memory in thresholds.vals
    }

    /** Empty tables, and the default thresholds: CPU 60% / 80%, memory 70% / 85%. */
    constructor (cpuId: string, memoryId: string, now: Millis)
      ensures Valid() && Seeded()
      ensures users == Empty() && sessions == Empty() && metrics == [] && alerts == Empty()
      ensures thresholds.keys == [Cpu, Memory]
      ensures thresholds.vals == map[Cpu := ThresholdConfig(cpuId, Cpu, 600, 800, now),
                                     Memory := ThresholdConfig(memoryId, Memory, 700, 850, now)]
    {
      users := Empty();
      sessions := Empty();
      metrics := [];
      alerts := Empty();
      var t := Set(Empty(), Cpu, ThresholdConfig(cpuId, Cpu, 600, 800, now));
      thresholds := Set(t, Memory, ThresholdConfig(memoryId, Memory, 700, 850, now));
    }

    // ------------------------------------------------------------ users

    /** `getUser`: the user stored under `id`. */
    method GetUser(id: string) returns (r: Option<User>)
      requires Valid()
      ensures r.Some? <==> id in users.vals
      ensures r.Some? ==> r.value == users.vals[id] && r.value.id == id
    {
      r := Get(users, id);
    }

    /** `getUserByUsername`: the first user, in creation order, with that name. */
    method GetUserByUsername(username: string) returns (r: Option<User>)
      requires Valid()
      ensures r == UserNamed(Values(users), username)
      ensures r.None? <==> forall k :: k in users.vals ==> users.vals[k].username != username
      ensures r.Some? ==> r.value.username == username && r.value.id in users.vals
                          && users.vals[r.value.id] == r.value
    {
      var p := (u: User) => u.username == username;
      var vs := Values(users);
      r := Find(vs, p);
      FindMeaning(vs, p);
      if r.None? {
        forall k | k in users.vals ensures users.vals[k].username != username {
          assert vs[IndexOf(users.keys, k)] == users.vals[k];
        }
      }
    }

    /** `createUser`: stores the user under its fresh id. */
    method CreateUser(u: InsertUser, id: string) returns (user: User)
      requires Valid()
      modifies this
      ensures Valid()
      ensures user == User(id, u.username, u.password)
      ensures State() == old(State()).(users := Set(old(users), id, user))
    {
      user := User(id, u.username, u.password);
      users := Set(users, id, user);
    }

    // ------------------------------------------------------------ sessions

    /** `getSession`: the session of a token; one that expired before `now` is deleted and hidden. */
    method GetSession(token: string, now: Millis) returns (r: Option<Session>)
      requires Valid()
      modifies this
      ensures Valid()
      ensures r.Some? <==> token in old(sessions.vals) && !Expired(old(sessions.vals[token]), now)
      ensures r.Some? ==> r.value == old(sessions.vals[token]) && r.value.token == token
      ensures State() == old(State()).(sessions :=
        if token in old(sessions.vals) && Expired(old(sessions.vals[token]), now)
        then Delete(old(sessions), token) else old(sessions))
    {
      r := Get(sessions, token);
      if r.Some? && Expired(r.value, now) {
        sessions := Delete(sessions, token);
        r := None;
      }
    }

    /** `getSessionByUserId`: the first session of the user, in creation order, that expires after `now`. */
    method GetSessionByUserId(userId: string, now: Millis) returns (r: Option<Session>)
      requires Valid()
      ensures r == SessionOfUser(Values(sessions), userId, now)
      ensures r.None? <==> forall k :: k in sessions.vals ==> !(sessions.vals[k].userId == userId && Live(sessions.vals[k], now))
      ensures r.Some? ==> r.value.userId == userId && Live(r.value, now) && r.value.token in sessions.vals
                          && sessions.vals[r.value.token] == r.value
    {
      var p := (s: Session) => s.userId == userId && Live(s, now);
      var vs := Values(sessions);
      r := Find(vs, p);
      FindMeaning(vs, p);
      if r.None? {
        forall k | k in sessions.vals ensures !p(sessions.vals[k]) {
          assert vs[IndexOf(sessions.keys, k)] == sessions.vals[k];
        }
      }
    }

    /** `createSession`: a session under a fresh token, expiring 24 hours after `now`. */
    method CreateSession(s: InsertSession, id: string, token: string, now: Millis) returns (session: Session)
      requires Valid()
      modifies this
      ensures Valid()
      ensures session == Session(id, s.userId, s.username, token, now, now + SessionLifetime)
      ensures State() == old(State()).(sessions := Set(old(sessions), token, session))
    {
      session := Session(id, s.userId, s.username, token, now, now + SessionLifetime);
      sessions := Set(sessions, token, session);
    }

    /** `deleteSession`: a silent no-op for an unknown token. */
    method DeleteSession(token: string)
      requires Valid()
      modifies this
      ensures Valid()
      ensures State() == old(State()).(sessions := Delete(old(sessions), token))
    {
      sessions := Delete(sessions, token);
    }

    /** `deleteSessionsByUserId`: walks a snapshot of the table and deletes every session of
        the user; the others keep their values and their order. */
    method DeleteSessionsByUserId(userId: string)
      requires Valid()
      modifies this
      ensures Valid()
      ensures State() == old(State()).(sessions := RemoveKeys(old(sessions), OwnedBy(old(sessions), old(sessions).keys, userId)))
      ensures forall k :: k in sessions.vals <==> k in old(sessions.vals) && old(sessions.vals[k]).userId != userId
    {
      var snapshot := sessions;
      var tokens := snapshot.keys;
      OwnedByNone(snapshot, userId);
      for i := 0 to |tokens|
        invariant sessions == RemoveKeys(snapshot, OwnedBy(snapshot, tokens[..i], userId))
        invariant State() == old(State()).(sessions := sessions)
      {
        var token := tokens[i];
        OwnedByStep(snapshot, userId, i);
        if snapshot.vals[token].userId == userId {
          sessions := Delete(sessions, token);
        }
      }
      assert tokens[..|tokens|] == tokens;
    }

    // ------------------------------------------------------------ metrics

    /** `getMetrics(limit)`: sorts the stored history newest-first in place and returns its
        first `limit` entries. */
    method GetMetrics(limit: int) returns (r: seq<Metric>)
      requires Valid()
      modifies this
      ensures Valid()
      ensures State() == old(State()).(metrics := SortDesc(old(metrics), MetricTime))
      ensures multiset(metrics) == multiset(old(metrics))
      ensures r == SliceFromStart(metrics, limit)
      ensures SortedDesc(r, MetricTime)
      ensures 0 <= limit ==> |r| == if limit < |metrics| then limit else |metrics|
    {
      metrics := SortDesc(metrics, MetricTime);
      r := SliceFromStart(metrics, limit);
      assert forall i :: 0 <= i < |r| ==> r[i] == metrics[i];
    }

    /** `getLatestMetrics`: for each type, a newest stored metric of that type. */
    method GetLatestMetrics() returns (cpu: Option<Metric>, memory: Option<Metric>)
      requires Valid()
      ensures cpu == Latest(metrics, Cpu) && memory == Latest(metrics, Memory)
      ensures cpu.None? <==> forall m :: m in metrics ==> m.mtype != Cpu
      ensures cpu.Some? ==> cpu.value in metrics && cpu.value.mtype == Cpu
                            && forall m :: m in metrics && m.mtype == Cpu ==> m.timestamp <= cpu.value.timestamp
      ensures memory.None? <==> forall m :: m in metrics ==> m.mtype != Memory
      ensures memory.Some? ==> memory.value in metrics && memory.value.mtype == Memory
                               && forall m :: m in metrics && m.mtype == Memory ==> m.timestamp <= memory.value.timestamp
    {
      cpu := Latest(metrics, Cpu);
      memory := Latest(metrics, Memory);
      LatestMeaning(metrics, Cpu);
      LatestMeaning(metrics, Memory);
    }

    /** `createMetric`: appends a metric stamped `now`, then applies the cap. */
    method CreateMetric(ins: InsertMetric, id: string, now: Millis) returns (m: Metric)
      requires Valid()
      modifies this
      ensures Valid()
      ensures m == NewMetric(ins, id, now)
      ensures State() == old(State()).(metrics := Capped(old(metrics) + [m]))
      ensures |old(metrics)| < MetricCap ==> metrics == old(metrics) + [m]
    {
      m := NewMetric(ins, id, now);
      metrics := metrics + [m];
      if |metrics| > MetricCap {
        metrics := Take(SortDesc(metrics, MetricTime), MetricCap);
      }
    }

    // ------------------------------------------------------------ alerts

    /** `getAlerts`: every alert, newest first, equal timestamps in creation order. */
    method GetAlerts() returns (r: seq<Alert>)
      requires Valid()
      ensures r == SortDesc(Values(alerts), AlertTime)
      ensures |r| == |alerts.keys|
      ensures forall a :: a in r <==> exists k :: k in alerts.vals && alerts.vals[k] == a
      ensures SortedDesc(r, AlertTime)
    {
      var vs := Values(alerts);
      r := SortDesc(vs, AlertTime);
      forall a ensures a in r <==> a in vs {
        assert a in r <==> a in multiset(r);
        assert a in vs <==> a in multiset(vs);
      }
    }

    /** `getAlert`: the alert stored under `id`. */
    method GetAlert(id: string) returns (r: Option<Alert>)
      requires Valid()
      ensures r.Some? <==> id in alerts.vals
      ensures r.Some? ==> r.value == alerts.vals[id] && r.value.id == id
    {
      r := Get(alerts, id);
    }

    /** `createAlert`: stores a new, unacknowledged alert stamped `now`. */
    method CreateAlert(ins: InsertAlert, id: string, now: Millis) returns (a: Alert)
      requires Valid()
      modifies this
      ensures Valid()
      ensures a == NewAlert(ins, id, now) && !a.acknowledged
      ensures State() == old(State()).(alerts := Set(old(alerts), id, a))
    {
      a := NewAlert(ins, id, now);
      alerts := Set(alerts, id, a);
    }

    /** `acknowledgeAlert`: flags the alert; an unknown id is ignored. */
    method AcknowledgeAlert(id: string)
      requires Valid()
      modifies this
      ensures Valid()
      ensures State() == old(State()).(alerts := Acknowledge(old(alerts), id))
    {
      var existing := Get(alerts, id);
      if existing.Some? {
        alerts := Set(alerts, id, existing.value.(acknowledged := true));
      }
    }

    /** `clearAllAlerts`. */
    method ClearAllAlerts()
      requires Valid()
      modifies this
      ensures Valid()
      ensures State() == old(State()).(alerts := Empty())
    {
      alerts := Empty();
    }

    // ------------------------------------------------------------ thresholds

    /** `getThresholds`: the configurations in registration order. */
    method GetThresholds() returns (r: seq<ThresholdConfig>)
      requires Valid()
      ensures r == Values(thresholds)
      ensures forall i :: 0 <= i < |r| ==> r[i].ttype == thresholds.keys[i]
    {
      r := Values(thresholds);
    }

    /** `getThreshold`. */
    method GetThreshold(t: MetricType) returns (r: Option<ThresholdConfig>)
      requires Valid()
      ensures r.Some? <==> t in thresholds.vals
      ensures r.Some? ==> r.value == thresholds.vals[t] && r.value.ttype == t
    {
      r := Get(thresholds, t);
    }

    /** `updateThreshold`: merges the update into the stored configuration, or fails when the
        type has none. */
    method UpdateThreshold(t: MetricType, u: UpdateThresholdConfig, now: Millis) returns (r: Result<ThresholdConfig, string>)
      requires Valid()
      modifies this
      ensures Valid()
      ensures old(Seeded()) ==> Seeded() && r.Ok?
      ensures r.Err? <==> t !in old(thresholds.vals)
      ensures r.Err? ==> r.error == "Threshold config for " + MetricTypeName(t) + " not found" && State() == old(State())
      ensures r.Ok? ==> && r.value == Merge(old(thresholds.vals[t]), u, now)
                        && State() == old(State()).(thresholds := Set(old(thresholds), t, r.value))
    {
      var existing := Get(thresholds, t);
      if existing.None? {
        return Err("Threshold config for " + MetricTypeName(t) + " not found");
      }
      var updated := Merge(existing.value, u, now);
      thresholds := Set(thresholds, t, updated);
      r := Ok(updated);
    }
  }
}
