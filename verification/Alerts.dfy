/**
 One alert rule's state machine (src/alerts.rs): Clear, Pending and Active over measured,
 carried and unavailable readings, with a cooldown that outlives incidents.

 The functions give one tick's meaning; the classes update their fields in place, as the
 agent does, and are proved to do what the functions say.
 */
module Alerts {
  import opened Basics

  datatype Metric = Cpu | Memory | Swap | Disk | Load1 | Load5 | Load15

  datatype Operator = Gt | Lt | Gte | Lte

  datatype Rule = Rule(
    metric: Metric,
    operator: Operator,
    threshold: real,
    durationSecs: nat,
    cooldownSecs: nat,
    mountPoint: Option<string>,
    enabled: bool)

  /** One metric's reading on a tick. */
  datatype Reading<+T> = Measured(value: T) | Carried | Unavailable

  datatype Readings = Readings(
    cpu: Reading<real>,
    memory: Reading<real>,
    swap: Reading<real>,
    diskUsages: map<string, real>,
    load1: real,
    load5: real,
    load15: real,
    cpuCores: nat)

  datatype Observation = Observation(value: real, breached: bool)

  /** `sequence` is the incident's place among the run's incidents, counted from 1. */
  datatype Incident = Incident(sequence: nat, activatedAt: nat)

  datatype Breach =
    | Clear
    | Pending(since: nat)
    | Active(since: nat, incident: Incident, value: real)

  /** What the agent keeps about one rule between ticks. */
  datatype RuleView = RuleView(breach: Breach, lastNotified: Option<nat>)

  datatype ActiveAlert = ActiveAlert(id: nat, rule: Rule, currentValue: real, firedAt: nat)

  datatype Report = Quiet(alert: ActiveAlert) | Notify(alert: ActiveAlert)

  const FRESH := RuleView(Clear, None)

  // ----- readings -----

  predicate IsBreached(operator: Operator, value: real, threshold: real) {
    match operator
    case Gt => value > threshold
    case Gte => value >= threshold
    case Lt => value < threshold
    case Lte => value <= threshold
  }

  predicate IsLoad(metric: Metric) {
    metric.Load1? || metric.Load5? || metric.Load15?
  }

  /** Loads are compared with the number of cores when the rule leaves the threshold at 0. */
  function ThresholdFor(readings: Readings, rule: Rule): real {
    if IsLoad(rule.metric) && rule.threshold == 0.0 then readings.cpuCores as real else rule.threshold
  }

  /** The fullest disk, or 0 with no disk above it. */
  ghost function LargestUsage(usages: map<string, real>): (largest: real)
    ensures 0.0 <= largest
    ensures forall mount :: mount in usages ==> usages[mount] <= largest
    ensures largest == 0.0 || exists mount :: mount in usages && usages[mount] == largest
    decreases |usages|
  {
    if usages == map[] then 0.0
    else
      var mount :| mount in usages;
      assert forall other :: other in usages ==> other == mount || other in usages - {mount};
      var rest := LargestUsage(usages - {mount});
      if usages[mount] > rest then usages[mount] else rest
  }

  ghost function ValueFor(readings: Readings, rule: Rule): Reading<real> {
    match rule.metric
    case Cpu => readings.cpu
    case Memory => readings.memory
    case Swap => readings.swap
    case Disk =>
      Measured(
        match rule.mountPoint
        case Some(mount) => if mount in readings.diskUsages then readings.diskUsages[mount] else 0.0
        case None => LargestUsage(readings.diskUsages))
    case Load1 => Measured(readings.load1)
    case Load5 => Measured(readings.load5)
    case Load15 => Measured(readings.load15)
  }

  /** What `rule` sees of a tick's readings. */
  ghost function Observe(readings: Readings, rule: Rule): Reading<Observation> {
    match ValueFor(readings, rule)
    case Measured(value) =>
      Measured(Observation(value, IsBreached(rule.operator, value, ThresholdFor(readings, rule))))
    case Carried => Carried
    case Unavailable => Unavailable
  }

  /** Strictly beyond a threshold, exactly the two operators on that side breach; on it, exactly
      the two that include it. */
  lemma OperatorsMean(operator: Operator, value: real, threshold: real)
    ensures value > threshold ==> (IsBreached(operator, value, threshold) <==> operator.Gt? || operator.Gte?)
    ensures value < threshold ==> (IsBreached(operator, value, threshold) <==> operator.Lt? || operator.Lte?)
    ensures value == threshold ==> (IsBreached(operator, value, threshold) <==> operator.Gte? || operator.Lte?)
  {
  }

  /** A load rule at 0 is the rule that names the number of cores; every other rule is held to the
      threshold it names. */
  lemma AutomaticThreshold(readings: Readings, rule: Rule, value: real)
    requires ValueFor(readings, rule) == Measured(value)
    ensures rule.metric in {Load1, Load5, Load15} && rule.threshold == 0.0 ==>
            Observe(readings, rule) == Observe(readings, rule.(threshold := readings.cpuCores as real))
    ensures rule.metric in {Cpu, Memory, Swap, Disk} || rule.threshold != 0.0 ==>
            Observe(readings, rule) == Measured(Observation(value, IsBreached(rule.operator, value, rule.threshold)))
  {
    var named := rule.(threshold := readings.cpuCores as real);
    assert ValueFor(readings, named) == ValueFor(readings, rule);
  }

  /** Two ticks that differ at most in what rules on other metrics read. */
  predicate AgreeOn(rule: Rule, one: Readings, other: Readings) {
    match rule.metric
    case Cpu => one.cpu == other.cpu
    case Memory => one.memory == other.memory
    case Swap => one.swap == other.swap
    case Disk =>
      if rule.mountPoint.None? then one.diskUsages == other.diskUsages
      else
        var mount := rule.mountPoint.value;
        (mount in one.diskUsages <==> mount in other.diskUsages)
        && (mount in one.diskUsages && mount in other.diskUsages ==> one.diskUsages[mount] == other.diskUsages[mount])
    case Load1 => one.load1 == other.load1 && AgreeOnCores(rule, one, other)
    case Load5 => one.load5 == other.load5 && AgreeOnCores(rule, one, other)
    case Load15 => one.load15 == other.load15 && AgreeOnCores(rule, one, other)
  }

  predicate AgreeOnCores(rule: Rule, one: Readings, other: Readings) {
    rule.threshold == 0.0 ==> one.cpuCores == other.cpuCores
  }

  /** A rule sees its own metric, its own mount, and the cores only behind an automatic threshold. */
  lemma RuleSeesItsMetricOnly(rule: Rule, one: Readings, other: Readings)
    requires AgreeOn(rule, one, other)
    ensures Observe(one, rule) == Observe(other, rule)
  {
  }

  method MaxUsage(usages: map<string, real>) returns (largest: real)
    ensures largest == LargestUsage(usages)
  {
    largest := 0.0;
    var left := usages.Keys;
    while left != {}
      invariant left <= usages.Keys
      invariant 0.0 <= largest
      invariant forall mount :: mount in usages.Keys - left ==> usages[mount] <= largest
      invariant largest == 0.0 || exists mount :: mount in usages && usages[mount] == largest
      decreases |left|
    {
      var mount :| mount in left;
      if usages[mount] > largest {
        largest := usages[mount];
      }
      left := left - {mount};
    }
  }

  method ReadValue(readings: Readings, rule: Rule) returns (reading: Reading<real>)
    ensures reading == ValueFor(readings, rule)
  {
    match rule.metric {
      case Cpu => reading := readings.cpu;
      case Memory => reading := readings.memory;
      case Swap => reading := readings.swap;
      case Disk =>
        match rule.mountPoint {
          case Some(mount) =>
            reading := Measured(if mount in readings.diskUsages then readings.diskUsages[mount] else 0.0);
          case None =>
            var largest := MaxUsage(readings.diskUsages);
            reading := Measured(largest);
        }
      case Load1 => reading := Measured(readings.load1);
      case Load5 => reading := Measured(readings.load5);
      case Load15 => reading := Measured(readings.load15);
    }
  }

  // ----- one tick, as functions -----

  datatype Advanced = Advanced(breach: Breach, minted: nat)

  /** A breach's next state. A start later than `now` (the clock stepped back) moves to `now`. */
  function AdvanceBreach(breach: Breach, observed: Observation, duration: nat, now: nat, minted: nat): Advanced {
    if !observed.breached then Advanced(Clear, minted)
    else
      match breach
      case Clear => PendingOrActive(now, observed.value, duration, now, minted)
      case Pending(since) => PendingOrActive(Min(since, now), observed.value, duration, now, minted)
      case Active(since, incident, _) => Advanced(Active(Min(since, now), incident, observed.value), minted)
  }

  function PendingOrActive(since: nat, value: real, duration: nat, now: nat, minted: nat): Advanced {
    if SatSub(now, since) < duration then Advanced(Pending(since), minted)
    else Advanced(Active(since, Incident(minted + 1, now), value), minted + 1)
  }

  function AlertOf(breach: Breach, rule: Rule): Option<ActiveAlert> {
    match breach
    case Active(_, incident, value) =>
      Some(ActiveAlert(incident.sequence, rule, value, incident.activatedAt))
    case _ => None
  }

  datatype Outcome = Outcome(view: RuleView, minted: nat, report: Option<Report>)

  function QuietReport(alert: Option<ActiveAlert>): Option<Report> {
    match alert
    case Some(a) => Some(Quiet(a))
    case None => None
  }

  /** One rule's tick: its next state, the run's incident count, and what it reports. */
  function StepRule(rule: Rule, view: RuleView, reading: Reading<Observation>, now: nat, minted: nat): Outcome {
    match reading
    case Measured(observed) => StepMeasured(rule, view, observed, now, minted)
    case Carried => Outcome(view, minted, QuietReport(AlertOf(view.breach, rule)))
    case Unavailable => Outcome(RuleView(Clear, view.lastNotified), minted, None)
  }

  function StepMeasured(rule: Rule, view: RuleView, observed: Observation, now: nat, minted: nat): Outcome {
    var anchored := Anchor(view.lastNotified, now);
    var next := AdvanceBreach(view.breach, observed, rule.durationSecs, now, minted);
    match AlertOf(next.breach, rule)
    case None => Outcome(RuleView(next.breach, anchored), next.minted, None)
    case Some(alert) =>
      if CooldownOver(anchored, rule.cooldownSecs, now)
      then Outcome(RuleView(next.breach, Some(now)), next.minted, Some(Notify(alert)))
      else Outcome(RuleView(next.breach, anchored), next.minted, Some(Quiet(alert)))
  }

  /** A last notification later than `now` moves back to `now`. */
  function Anchor(last: Option<nat>, now: nat): Option<nat> {
    match last
    case Some(at) => Some(Min(at, now))
    case None => None
  }

  predicate CooldownOver(last: Option<nat>, cooldown: nat, now: nat) {
    match last
    case None => true
    case Some(at) => SatSub(now, at) >= cooldown
  }

  // ----- the same, in place -----

  /** Mints a run's incident numbers. It never rewinds. */
  class IncidentSequence {
    var minted: nat

    constructor ()
      ensures minted == 0
    {
      minted := 0;
    }

    method Mint() returns (sequence: nat)
      modifies this
      ensures sequence == minted == old(minted) + 1
    {
      minted := minted + 1;
      sequence := minted;
    }
  }

  method Advance(breach: Breach, observed: Observation, duration: nat, now: nat, incidents: IncidentSequence)
    returns (next: Breach)
    modifies incidents
    ensures Advanced(next, incidents.minted) == AdvanceBreach(breach, observed, duration, now, old(incidents.minted))
  {
    if !observed.breached {
      return Clear;
    }
    var since := match breach
      case Clear => now
      case Pending(since) => Min(since, now)
      case Active(since, _, _) => Min(since, now);
    match breach {
      case Active(_, incident, _) =>
        next := Active(since, incident, observed.value);
      case _ =>
        if SatSub(now, since) < duration {
          return Pending(since);
        }
        var sequence := incidents.Mint();
        next := Active(since, Incident(sequence, now), observed.value);
    }
  }

  class RuleState {
    var breach: Breach
    var lastNotified: Option<nat>

    function View(): RuleView
      reads this
    {
      RuleView(breach, lastNotified)
    }

    constructor ()
      ensures View() == FRESH
    {
      breach, lastNotified := Clear, None;
    }

    method TakeNotification(cooldown: nat, now: nat) returns (due: bool)
      modifies this`lastNotified
      ensures due == CooldownOver(old(lastNotified), cooldown, now)
      ensures lastNotified == if due then Some(now) else old(lastNotified)
    {
      match lastNotified {
        case None => due := true;
        case Some(last) => due := SatSub(now, last) >= cooldown;
      }
      if due {
        lastNotified := Some(now);
      }
    }

    method Measure(rule: Rule, observed: Observation, now: nat, incidents: IncidentSequence)
      returns (report: Option<Report>)
      modifies this, incidents
      ensures Outcome(View(), incidents.minted, report)
           == StepMeasured(rule, old(View()), observed, now, old(incidents.minted))
    {
      lastNotified := match lastNotified
        case Some(last) => Some(Min(last, now))
        case None => None;
      breach := Advance(breach, observed, rule.durationSecs, now, incidents);
      match AlertOf(breach, rule) {
        case None => report := None;
        case Some(alert) =>
          var due := TakeNotification(rule.cooldownSecs, now);
          report := Some(if due then Notify(alert) else Quiet(alert));
      }
    }

    method Tick(rule: Rule, readings: Readings, now: nat, incidents: IncidentSequence)
      returns (report: Option<Report>)
      modifies this, incidents
      ensures Outcome(View(), incidents.minted, report)
           == StepRule(rule, old(View()), Observe(readings, rule), now, old(incidents.minted))
    {
      var threshold := ThresholdFor(readings, rule);
      var reading := ReadValue(readings, rule);
      match reading {
        case Measured(value) =>
          var observed := Observation(value, IsBreached(rule.operator, value, threshold));
          report := Measure(rule, observed, now, incidents);
        case Carried =>
          report := QuietReport(AlertOf(breach, rule));
        case Unavailable =>
          breach := Clear;
          report := None;
      }
    }
  }
}
