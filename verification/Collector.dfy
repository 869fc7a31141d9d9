/**
 The background collector (src/collectors/mod.rs): each sample's groups are sourced against the
 history, published under the next sequence number and evaluated by the alert rules. A panic
 rebuilds the sampler, or leaves the slot broken to retry; the history outlives both.
 */
module Collector {
  import opened Basics
  import opened Alerts
  import opened AlertManagers
  import opened Sourcing

  /** One reading of the system: its groups' ticks, and the metrics that are never carried. */
  datatype Collected = Collected(
    tick: ReadTick,
    collectedAt: nat,
    diskUsages: map<string, real>,
    load1: real,
    load5: real,
    load15: real,
    cpuCores: nat)

  /** A snapshot readers share: what was collected, its groups as chosen, and its sequence number. */
  datatype Published = Published(collected: Collected, readings: SourcedReadings, seqNo: nat)

  /** The share of `whole`, as the snapshot shows a group's usage. */
  function PercentOf(part: nat, whole: nat): real {
    if whole > 0 then part as real / whole as real * 100.0 else 0.0
  }

  /** What a rule may make of a group: its percentage only when it was read on this tick. `None` is a
      usage that is not a number. */
  function GroupReading(origin: Origin, percent: Option<real>): Alerts.Reading<real> {
    match origin
    case Carried => Alerts.Carried
    case Unavailable => Alerts.Unavailable
    case _ =>
      match percent
      case Some(value) => Measured(Saturating(value))
      case None => Alerts.Unavailable
  }

  /** What the alert rules see of a snapshot. */
  function AlertReadings(p: Published): Readings {
    var (c, r) := (p.collected, p.readings);
    Readings(
      GroupReading(r.cpu.origin, r.cpu.value.usage),
      GroupReading(r.memory.origin, Some(PercentOf(r.memory.value.used, r.memory.value.total))),
      GroupReading(r.swap.origin, Some(PercentOf(r.swap.value.used, r.swap.value.total))),
      c.diskUsages, c.load1, c.load5, c.load15, c.cpuCores)
  }

  datatype Slot = Ready | Broken

  /** How one turn of the collector's loop went, or a rule replacement between turns. */
  datatype CollectorEvent =
    | Sampled(collected: Collected)
    | Early
    | Panicked(rebuilt: bool)
    | Retried(rebuilt: bool)
    | RulesReplaced(rules: seq<Rule>)

  /** A broken slot only retries; a ready one only reads. */
  predicate Enabled(slot: Slot, e: CollectorEvent) {
    e.RulesReplaced? || (slot.Broken? <==> e.Retried?)
  }

  datatype CollectorView = CollectorView(
    slot: Slot,
    history: SourcingHistory,
    published: Published,
    manager: ManagerView)

  ghost function RecordView(manager: ManagerView, p: Published): ManagerView {
    EvaluateView(manager, AlertReadings(p), p.collected.collectedAt)
  }

  /** The collector once its startup snapshot is recorded. */
  ghost function StartView(rules: seq<Rule>, startup: Collected): CollectorView {
    var choice := ChooseReadings(startup.tick, AT_START);
    var p := Published(startup, choice.readings, 0);
    CollectorView(Ready, choice.history, p, RecordView(ManagerView(rules, [], map[], 0), p))
  }

  /** One event. One the slot rules out changes nothing, so a run needs no side condition. */
  ghost function NextView(v: CollectorView, e: CollectorEvent): CollectorView {
    if !Enabled(v.slot, e) then v
    else
      match e
      case Sampled(collected) =>
        var choice := ChooseReadings(collected.tick, v.history);
        var p := Published(collected, choice.readings, v.published.seqNo + 1);
        CollectorView(Ready, choice.history, p, RecordView(v.manager, p))
      case Early => v
      case Panicked(rebuilt) => v.(slot := if rebuilt then Ready else Broken)
      case Retried(rebuilt) => v.(slot := if rebuilt then Ready else Broken)
      case RulesReplaced(rules) => v.(manager := ReplaceView(v.manager, rules))
  }

  class BackgroundCollector {
    var slot: Slot
    var history: SourcingHistory
    var published: Published
    const manager: AlertManager

    ghost predicate Valid()
      reads this, manager
    {
      manager.Valid()
    }

    ghost function View(): CollectorView
      reads this, manager, manager.states.Values, manager.incidents
    {
      CollectorView(slot, history, published, manager.View())
    }

    /** Evaluates the alert rules on `p`, at its `collectedAt`. */
    method Record(p: Published)
      requires Valid()
      modifies manager, manager.states.Values, manager.incidents
      ensures Valid() && fresh(manager.states.Values - old(manager.states.Values))
      ensures manager.View() == RecordView(old(manager.View()), p)
    {
      var _ := manager.Evaluate(AlertReadings(p), p.collected.collectedAt);
    }

    constructor (rules: seq<Rule>, startup: Collected)
      ensures Valid() && View() == StartView(rules, startup)
    {
      var choice := ChooseReadings(startup.tick, AT_START);
      slot, history := Ready, choice.history;
      published := Published(startup, choice.readings, 0);
      manager := new AlertManager(rules);
      new;
      Record(published);
    }

    /** Publishes under the number after the last published one, and records it. */
    method Publish(collected: Collected, readings: SourcedReadings)
      requires Valid()
      modifies this`published, manager, manager.states.Values, manager.incidents
      ensures Valid() && fresh(manager.states.Values - old(manager.states.Values))
      ensures published == Published(collected, readings, old(published).seqNo + 1)
      ensures manager.View() == RecordView(old(manager.View()), published)
    {
      var p := Published(collected, readings, published.seqNo + 1);
      Record(p);
      published := p;
    }

    method Turn(e: CollectorEvent)
      requires Valid() && Enabled(slot, e)
      modifies this, manager, manager.states.Values, manager.incidents
      ensures Valid() && fresh(manager.states.Values - old(manager.states.Values))
      ensures View() == NextView(old(View()), e)
    {
      match e {
        case Sampled(collected) =>
          var choice := ChooseReadings(collected.tick, history);
          history := choice.history;
          Publish(collected, choice.readings);
        case Early =>
        case Panicked(rebuilt) =>
          slot := if rebuilt then Ready else Broken;
        case Retried(rebuilt) =>
          slot := if rebuilt then Ready else Broken;
        case RulesReplaced(rules) =>
          manager.ReplaceRules(rules);
      }
    }
  }

  lemma ShareOfWhole(part: nat, whole: nat)
    requires 0 < whole
    ensures PercentOf(part, whole) * whole as real == part as real * 100.0
    ensures PercentOf(part, whole) >= 0.0
    ensures PercentOf(part, whole) <= 100.0 <==> part <= whole
  {
    ShareOf(part as real, whole as real);
  }

  /** `seen` measures which share of `whole` the `part` is: all of it at most, none of nothing. */
  predicate MeasuresShare(seen: Alerts.Reading<Observation>, part: nat, whole: nat) {
    seen.Measured? &&
    if whole == 0 then seen.value.value == 0.0
    else if part > whole then seen.value.value == 100.0
    else seen.value.value * whole as real == part as real * 100.0
  }

  lemma SaturatedShare(part: nat, whole: nat, observed: Observation)
    requires observed.value == Saturating(PercentOf(part, whole))
    ensures MeasuresShare(Measured(observed), part, whole)
  {
    if whole > 0 {
      ShareOfWhole(part, whole);
    }
  }

  /** A memory or swap rule measures the share of its own group's total that is used. */
  lemma RuleMeasuresItsShare(p: Published, rule: Rule)
    ensures rule.metric.Memory? && p.readings.memory.origin in {Kernel, Cgroup} ==>
            MeasuresShare(Observe(AlertReadings(p), rule), p.readings.memory.value.used, p.readings.memory.value.total)
    ensures rule.metric.Swap? && p.readings.swap.origin in {Kernel, Cgroup} ==>
            MeasuresShare(Observe(AlertReadings(p), rule), p.readings.swap.value.used, p.readings.swap.value.total)
  {
    var seen := Observe(AlertReadings(p), rule);
    if rule.metric.Memory? && p.readings.memory.origin in {Kernel, Cgroup} {
      SaturatedShare(p.readings.memory.value.used, p.readings.memory.value.total, seen.value);
    } else if rule.metric.Swap? && p.readings.swap.origin in {Kernel, Cgroup} {
      SaturatedShare(p.readings.swap.value.used, p.readings.swap.value.total, seen.value);
    }
  }

  predicate Sees(seen: Alerts.Reading<Observation>, value: real) {
    seen.Measured? && seen.value.value == value
  }

  /** `seen` is the fullest of `disks`, or 0 with none above it. */
  ghost predicate SeesFullest(seen: Alerts.Reading<Observation>, disks: map<string, real>) {
    && seen.Measured? && 0.0 <= seen.value.value
    && (forall mount :: mount in disks ==> disks[mount] <= seen.value.value)
    && (seen.value.value == 0.0 || exists mount :: mount in disks && disks[mount] == seen.value.value)
  }

  /** The metrics that are never carried reach their own rules on every snapshot, whatever the
      groups' origins: a disk rule its own mount, 0 when it is missing, or the fullest of them. An
      automatic load threshold is the snapshot's own cores. */
  lemma RuleSeesWhatWasCollected(p: Published, rule: Rule)
    ensures var (seen, c) := (Observe(AlertReadings(p), rule), p.collected);
      && (rule.metric.Load1? ==> Sees(seen, c.load1))
      && (rule.metric.Load5? ==> Sees(seen, c.load5))
      && (rule.metric.Load15? ==> Sees(seen, c.load15))
      && (rule.metric.Disk? && rule.mountPoint.Some? ==>
           Sees(seen, if rule.mountPoint.value in c.diskUsages then c.diskUsages[rule.mountPoint.value] else 0.0))
      && (rule.metric.Disk? && rule.mountPoint.None? ==> SeesFullest(seen, c.diskUsages))
      && (rule.metric in {Load1, Load5, Load15} && rule.threshold == 0.0 && seen.Measured? ==>
           seen.value.breached == IsBreached(rule.operator, seen.value.value, c.cpuCores as real))
  {
  }

  /** A CPU rule sees the group's usage when it was read, held to 0 to 100, and nothing when the
      usage is not a number. */
  lemma RuleSeesCpuUsage(p: Published, rule: Rule)
    requires rule.metric.Cpu? && p.readings.cpu.origin in {Kernel, Cgroup}
    ensures var (seen, usage) := (Observe(AlertReadings(p), rule), p.readings.cpu.value.usage);
      && (seen.Unavailable? <==> usage.None?)
      && (usage.Some? ==> Sees(seen, if usage.value < 0.0 then 0.0 else if usage.value > 100.0 then 100.0 else usage.value))
  {
  }
}
