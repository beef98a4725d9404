/** The metrics collector: every few seconds it samples CPU and memory usage, stores both
    samples, and raises an alert for a type whose sample reaches a threshold, at most once per
    type every 60 seconds. The telemetry library, the timer and the clock are outside the
    model: a tick receives the two samples (in hundredths of a percent, or `None` when the
    telemetry call fails), the current time and the fresh record ids. */
module Collector {
  import opened Wrappers
  import opened Schema
  import opened Text
  import opened OrderedMaps
  import opened Storage

  /** Alerts of one type are at least this many milliseconds apart. */
  const Cooldown: int := 60000

  /** One telemetry reading, in hundredths of a percent. */
  datatype Sample = Sample(cpuHundredths: nat, memoryHundredths: nat)

  /** The fresh ids a tick may use for the records it creates. */
  datatype FreshIds = FreshIds(cpuMetric: string, memoryMetric: string, cpuAlert: string, memoryAlert: string)

  /** The answer of `getCurrentMetrics`, in tenths of a percent. */
  datatype CurrentMetrics = CurrentMetrics(cpu: Tenths, memory: Tenths, cpuTrend: Tenths, memoryTrend: Tenths)

  /** The collector's own fields, as values. */
  datatype CollectorState = CollectorState(isRunning: bool, hasTimer: bool,
                                           previousCpu: Tenths, previousMemory: Tenths,
                                           lastAlertCpu: Millis, lastAlertMemory: Millis)

  /** `Math.round(x * 10) / 10` for `x` = `h` hundredths, in tenths: halves round up. */
  function RoundTenths(h: nat): (r: nat)
    ensures 10 * r <= h + 5 < 10 * r + 10
  {
    (h + 5) / 10
  }

  /** The fixed text of an alert message, before the value. */
  function Label(t: MetricType, critical: bool): string {
    (if t == Cpu then "CPU usage " else "Memory usage ") + (if critical then "critical: " else "elevated: ")
  }

  /** The alert message: the label, the value with at most one decimal, and `%`. */
  function AlertMessage(t: MetricType, critical: bool, v: nat): string {
    Label(t, critical) + FormatTenths(v) + "%"
  }

  /** The value can be read back from the message. */
  lemma AlertMessageValue(t: MetricType, critical: bool, v: nat)
    ensures var m := AlertMessage(t, critical, v);
            |Label(t, critical)| < |m| && ParseTenths(m[|Label(t, critical)|..|m| - 1]) == Some(v)
  {
    var m := AlertMessage(t, critical, v);
    assert m[|Label(t, critical)|..|m| - 1] == FormatTenths(v);
    FormatTenthsRoundTrip(v);
  }

  /** The alert one threshold check raises for a configured type: CRITICAL when the value
      reaches the critical bound, otherwise WARNING when it reaches the warning bound, and
      nothing while the type's cooldown has not strictly elapsed. */
  function AlertFor(t: MetricType, v: nat, c: ThresholdConfig, now: Millis, last: Millis): (r: Option<InsertAlert>)
    ensures r.Some? <==> now - last > Cooldown && (v >= c.critical || v >= c.warning)
    ensures r.Some? ==> r.value.atype == t && r.value.value == v
    ensures r.Some? && v >= c.critical ==> r.value.severity == Critical && r.value.threshold == c.critical
    ensures r.Some? && v < c.critical ==> r.value.severity == Warning && r.value.threshold == c.warning
    ensures r.Some? ==> r.value.message == AlertMessage(t, r.value.severity == Critical, v)
  {
    if v >= c.critical && now - last > Cooldown then
      Some(InsertAlert(t, Critical, AlertMessage(t, true, v), v, c.critical))
    else if v >= c.warning && now - last > Cooldown then
      Some(InsertAlert(t, Warning, AlertMessage(t, false, v), v, c.warning))
    else None
  }

  /** The check of one type: a type without configuration is skipped. */
  function Check(t: MetricType, v: nat, config: Option<ThresholdConfig>, now: Millis, last: Millis): Option<InsertAlert> {
    if config.Some? then AlertFor(t, v, config.value, now, last) else None
  }

  /** One cooldown covers both severities: after any alert of a type at `t0`, no alert of that
      type, whatever its severity, is raised until more than 60 seconds have passed. */
  lemma CooldownShared(t: MetricType, v0: nat, v: nat, config: Option<ThresholdConfig>, t0: Millis, last: Millis, now: Millis)
    requires Check(t, v0, config, t0, last).Some?
    requires now - t0 <= Cooldown
    ensures Check(t, v, config, now, t0).None?
  {
  }

  /** The alert table after an optional alert has been created under `id` at `now`. */
  function Recorded(alerts: OrderedMap<string, Alert>, a: Option<InsertAlert>, id: string, now: Millis): (r: OrderedMap<string, Alert>)
    requires OrderedMaps.Valid(alerts)
    ensures OrderedMaps.Valid(r)
  {
    if a.Some? then Set(alerts, id, NewAlert(a.value, id, now)) else alerts
  }

  /** The metric history after a tick has stored its two samples. */
  function AfterTick(ms: seq<Metric>, mc: Metric, mm: Metric): seq<Metric> {
    Capped(Capped(ms + [mc]) + [mm])
  }

  /** When every stored metric predates the tick, the two metrics it stores are the latest of
      their types afterwards, even when the cap drops old metrics. */
  lemma TickLatest(ms: seq<Metric>, mc: Metric, mm: Metric, now: Millis)
    requires |ms| <= MetricCap
    requires mc.mtype == Cpu && mm.mtype == Memory && mc.timestamp == now && mm.timestamp == now
    requires forall x :: x in ms ==> x.timestamp < now
    ensures Latest(AfterTick(ms, mc, mm), Cpu) == Some(mc)
    ensures Latest(AfterTick(ms, mc, mm), Memory) == Some(mm)
  {
    FirstStore(ms, mc, now);
    SecondStore(Capped(ms + [mc]), mc, mm, now);
    var m2 := AfterTick(ms, mc, mm);
    LatestIs(m2, mc, Cpu);
    LatestIs(m2, mm, Memory);
  }

  /** The first metric of a tick survives its own push, and everything else stored is older. */
  lemma FirstStore(ms: seq<Metric>, mc: Metric, now: Millis)
    requires |ms| <= MetricCap && mc.timestamp == now
    requires forall x :: x in ms ==> x.timestamp < now
    ensures var m1 := Capped(ms + [mc]);
            && mc in m1 && multiset(m1)[mc] <= 1
            && forall x :: x in m1 && x != mc ==> x.timestamp < now
  {
    if |ms| == MetricCap {
      CappedKeepsNewer(ms + [mc], mc, ms[0]);
    }
    assert multiset(ms)[mc] == 0;
    assert multiset(ms + [mc]) == multiset(ms) + multiset{mc};
    CappedMeaning(ms + [mc]);
    CappedSubset(ms + [mc]);
  }

  /** The second push of a tick keeps both of its metrics. */
  lemma SecondStore(m1: seq<Metric>, mc: Metric, mm: Metric, now: Millis)
    requires |m1| <= MetricCap && mc.timestamp == now && mm.timestamp == now
    requires mc in m1 && multiset(m1)[mc] <= 1
    requires forall x :: x in m1 && x != mc ==> x.timestamp < now
    ensures var m2 := Capped(m1 + [mm]);
            && mc in m2 && mm in m2
            && forall x :: x in m2 ==> x == mc || x == mm || x.timestamp < now
  {
    if |m1| == MetricCap {
      SecondCap(m1, mc, mm, now);
    }
    CappedSubset(m1 + [mm]);
  }

  lemma SecondCap(m1: seq<Metric>, mc: Metric, mm: Metric, now: Millis)
    requires |m1| == MetricCap && mc.timestamp == now && mm.timestamp == now
    requires mc in m1 && multiset(m1)[mc] <= 1
    requires forall x :: x in m1 && x != mc ==> x.timestamp < now
    ensures mc in Capped(m1 + [mm]) && mm in Capped(m1 + [mm])
  {
    var y := if m1[0] != mc then m1[0] else m1[1];
    if y == mc {
      assert m1 == [m1[0], m1[1]] + m1[2..];
      assert multiset(m1)[mc] >= 2;
    }
    CappedKeepsNewer(m1 + [mm], mc, y);
    CappedKeepsNewer(m1 + [mm], mm, y);
  }

  class MetricsCollector {
    var isRunning: bool
    /** Whether an interval timer is installed (`intervalId !== null`). */
    var hasTimer: bool
    var previousCpu: Tenths
    var previousMemory: Tenths
    var lastAlertCpu: Millis
    var lastAlertMemory: Millis
    /** The store the collector writes to. */
    const store: MemStorage

    ghost predicate Valid()
      reads store
    {
      store.Valid()
    }

    function Status(): CollectorState
      reads this
    {
      CollectorState(isRunning, hasTimer, previousCpu, previousMemory, lastAlertCpu, lastAlertMemory)
    }

    /** Stopped, no timer, previous values 0, and no alert yet (last alert at time 0). */
    constructor (store: MemStorage)
      requires store.Valid()
      ensures Valid() && this.store == store
      ensures Status() == CollectorState(false, false, 0, 0, 0, 0)
    {
      this.store := store;
      isRunning := false;
      hasTimer := false;
      previousCpu := 0;
      previousMemory := 0;
      lastAlertCpu := 0;
      lastAlertMemory := 0;
    }

    /** `checkThresholds`: checks CPU, then memory, against their configurations at the same
        instant; each type raises at most one alert and moves only its own cooldown. */
    method CheckThresholds(cpuValue: nat, memoryValue: nat, now: Millis, cpuAlertId: string, memoryAlertId: string)
      requires Valid()
      modifies this, store
      ensures Valid()
      ensures var cpuAlert := Check(Cpu, cpuValue, Get(old(store.thresholds), Cpu), now, old(lastAlertCpu));
              var memoryAlert := Check(Memory, memoryValue, Get(old(store.thresholds), Memory), now, old(lastAlertMemory));
              && store.State() == old(store.State()).(alerts :=
                   Recorded(Recorded(old(store.alerts), cpuAlert, cpuAlertId, now), memoryAlert, memoryAlertId, now))
              && Status() == old(Status()).(
                   lastAlertCpu := if cpuAlert.Some? then now else old(lastAlertCpu),
                   lastAlertMemory := if memoryAlert.Some? then now else old(lastAlertMemory))
    {
      var cpuThreshold := store.GetThreshold(Cpu);
      var memoryThreshold := store.GetThreshold(Memory);
      var cpuAlert := Check(Cpu, cpuValue, cpuThreshold, now, lastAlertCpu);
      if cpuAlert.Some? {
        var _ := store.CreateAlert(cpuAlert.value, cpuAlertId, now);
        lastAlertCpu := now;
      }
      var memoryAlert := Check(Memory, memoryValue, memoryThreshold, now, lastAlertMemory);
      if memoryAlert.Some? {
        var _ := store.CreateAlert(memoryAlert.value, memoryAlertId, now);
        lastAlertMemory := now;
      }
    }

    /** `collectMetrics`: nothing when stopped or when the telemetry call fails; otherwise
        stores both rounded samples, checks the thresholds, and remembers the samples for the
        trend. */
    method CollectMetrics(sample: Option<Sample>, now: Millis, ids: FreshIds)
      requires Valid()
      modifies this, store
      ensures Valid()
      ensures !old(isRunning) || sample.None? ==> store.State() == old(store.State()) && Status() == old(Status())
      ensures old(isRunning) && sample.Some? ==>
        var cpu := RoundTenths(sample.value.cpuHundredths);
        var memory := RoundTenths(sample.value.memoryHundredths);
        var mc := NewMetric(InsertMetric(Cpu, cpu), ids.cpuMetric, now);
        var mm := NewMetric(InsertMetric(Memory, memory), ids.memoryMetric, now);
        var cpuAlert := Check(Cpu, cpu, Get(old(store.thresholds), Cpu), now, old(lastAlertCpu));
        var memoryAlert := Check(Memory, memory, Get(old(store.thresholds), Memory), now, old(lastAlertMemory));
        && store.State() == old(store.State()).(
             metrics := AfterTick(old(store.metrics), mc, mm),
             alerts := Recorded(Recorded(old(store.alerts), cpuAlert, ids.cpuAlert, now), memoryAlert, ids.memoryAlert, now))
        && Status() == old(Status()).(
             previousCpu := cpu, previousMemory := memory,
             lastAlertCpu := if cpuAlert.Some? then now else old(lastAlertCpu),
             lastAlertMemory := if memoryAlert.Some? then now else old(lastAlertMemory))
      ensures old(isRunning) && sample.Some? && (forall x :: x in old(store.metrics) ==> x.timestamp < now) ==>
        && Latest(store.metrics, Cpu).Some? && Latest(store.metrics, Cpu).value.value == previousCpu
        && Latest(store.metrics, Memory).Some? && Latest(store.metrics, Memory).value.value == previousMemory
    {
      if !isRunning || sample.None? {
        return;
      }
      var cpu := RoundTenths(sample.value.cpuHundredths);
      var memory := RoundTenths(sample.value.memoryHundredths);
      var mc, mm := StoreSamples(cpu, memory, now, ids);
      CheckThresholds(cpu, memory, now, ids.cpuAlert, ids.memoryAlert);
      previousCpu := cpu;
      previousMemory := memory;
    }

    /** The two `createMetric` calls of a tick: CPU first, then memory. When every stored
        metric predates the tick, they are the latest of their types afterwards. */
    method StoreSamples(cpu: Tenths, memory: Tenths, now: Millis, ids: FreshIds) returns (mc: Metric, mm: Metric)
      requires Valid()
      modifies store
      ensures Valid()
      ensures mc == NewMetric(InsertMetric(Cpu, cpu), ids.cpuMetric, now)
      ensures mm == NewMetric(InsertMetric(Memory, memory), ids.memoryMetric, now)
      ensures store.State() == old(store.State()).(metrics := AfterTick(old(store.metrics), mc, mm))
      ensures (forall x :: x in old(store.metrics) ==> x.timestamp < now) ==>
        Latest(store.metrics, Cpu) == Some(mc) && Latest(store.metrics, Memory) == Some(mm)
    {
      mc := store.CreateMetric(InsertMetric(Cpu, cpu), ids.cpuMetric, now);
      mm := store.CreateMetric(InsertMetric(Memory, memory), ids.memoryMetric, now);
      if forall x :: x in old(store.metrics) ==> x.timestamp < now {
        TickLatest(old(store.metrics), mc, mm, now);
      }
    }

    /** `start`: a no-op when already running with a timer; otherwise marks the collector
        running and installs the timer. */
    method Start()
      modifies this
      ensures old(isRunning && hasTimer) ==> Status() == old(Status())
      ensures !old(isRunning && hasTimer) ==> Status() == old(Status()).(isRunning := true, hasTimer := true)
    {
      if isRunning && hasTimer {
        return;
      }
      isRunning := true;
      hasTimer := true;
    }

    /** `stop`: removes the timer if any and marks the collector stopped; safe to call at any time. */
    method Stop()
      modifies this
      ensures Status() == old(Status()).(isRunning := false, hasTimer := false)
    {
      if hasTimer {
        hasTimer := false;
      }
      isRunning := false;
    }

    /** `getCurrentMetrics`: the latest stored value of each type (0 when there is none), and
        its difference from the value the last completed tick remembered. */
    method GetCurrentMetrics() returns (r: CurrentMetrics)
      requires Valid()
      ensures r.cpu == (if Latest(store.metrics, Cpu).Some? then Latest(store.metrics, Cpu).value.value else 0)
      ensures r.memory == (if Latest(store.metrics, Memory).Some? then Latest(store.metrics, Memory).value.value else 0)
      ensures r.cpuTrend == r.cpu - previousCpu && r.memoryTrend == r.memory - previousMemory
    {
      var cpuLatest, memoryLatest := store.GetLatestMetrics();
      var cpu := if cpuLatest.Some? then cpuLatest.value.value else 0;
      var memory := if memoryLatest.Some? then memoryLatest.value.value else 0;
      r := CurrentMetrics(cpu, memory, cpu - previousCpu, memory - previousMemory);
    }
  }
}
