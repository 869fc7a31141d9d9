/**
 From a cgroup read to an incident, over every run of the collector and on both its clocks:
 the monotonic one that bounds a carry, and the wall clock the rules wait on.
 */
module EndToEnd {
  import opened Basics
  import opened Alerts
  import opened AlertManagers
  import opened Sourcing
  import opened Collector
  import AlertRuns

  datatype Run = Run(rules: seq<Rule>, startup: Collected, events: seq<CollectorEvent>)

  ghost function StateAt(run: Run, n: nat): CollectorView
    requires n <= |run.events|
  {
    if n == 0 then StartView(run.rules, run.startup) else NextView(StateAt(run, n - 1), run.events[n - 1])
  }

  /** Event `c` publishes a snapshot. */
  ghost predicate Publishes(run: Run, c: nat) {
    c < |run.events| && run.events[c].Sampled? && Enabled(StateAt(run, c).slot, run.events[c])
  }

  /** The samples published by the first `n` events, the startup one first. */
  ghost function Samples(run: Run, n: nat): seq<ReadTick>
    requires n <= |run.events|
  {
    if n == 0 then [run.startup.tick]
    else if Publishes(run, n - 1) then Samples(run, n - 1) + [run.events[n - 1].collected.tick]
    else Samples(run, n - 1)
  }

  /** What the alert manager has been asked to do. */
  ghost function ManagerEvents(run: Run, n: nat): seq<AlertRuns.Event>
    requires n <= |run.events|
  {
    if n == 0 then [RecordEvent(StateAt(run, 0).published)]
    else if Publishes(run, n - 1) then ManagerEvents(run, n - 1) + [RecordEvent(StateAt(run, n).published)]
    else if run.events[n - 1].RulesReplaced? then ManagerEvents(run, n - 1) + [AlertRuns.Replace(run.events[n - 1].rules)]
    else ManagerEvents(run, n - 1)
  }

  function RecordEvent(p: Published): AlertRuns.Event {
    AlertRuns.Evaluate(AlertReadings(p), p.collected.collectedAt)
  }

  lemma {:induction false} AfterPrefix(rules: seq<Rule>, es: seq<AlertRuns.Event>, more: seq<AlertRuns.Event>, n: nat)
    requires n <= |es| && es <= more
    ensures AlertRuns.After(rules, more, n) == AlertRuns.After(rules, es, n)
  {
    if n > 0 {
      AfterPrefix(rules, es, more, n - 1);
    }
  }

  /** The history is the samples', the published snapshot the last sample's, numbered from 0. */
  lemma {:induction false} PublishedByTheSamples(run: Run, n: nat)
    requires n <= |run.events|
    ensures var (v, h) := (StateAt(run, n), Samples(run, n));
      && h != []
      && v.history == SourcingAfter(h)
      && v.published.seqNo == |h| - 1
      && v.published.collected.tick == h[|h| - 1]
      && v.published.readings == ChoiceAt(h, |h| - 1).readings
  {
    var h := Samples(run, n);
    if n == 0 {
      assert h[..0] == [];
    } else {
      PublishedByTheSamples(run, n - 1);
      if Publishes(run, n - 1) {
        assert h[..|h| - 1] == Samples(run, n - 1);
      }
    }
  }

  /** The collector's alert manager is a run of the alert manager. */
  lemma {:induction false} ManagerByItsEvents(run: Run, n: nat)
    requires n <= |run.events|
    ensures StateAt(run, n).manager == AlertRuns.After(run.rules, ManagerEvents(run, n), |ManagerEvents(run, n)|)
  {
    var es := ManagerEvents(run, n);
    if n == 0 {
      assert AlertRuns.After(run.rules, es, 0) == ManagerView(run.rules, [], map[], 0);
    } else {
      ManagerByItsEvents(run, n - 1);
      var before := ManagerEvents(run, n - 1);
      if es != before {
        AfterPrefix(run.rules, before, es, |before|);
      }
    }
  }

  lemma ManagerIsSound(run: Run, n: nat)
    requires n <= |run.events|
    ensures Sound(StateAt(run, n).manager)
  {
    ManagerByItsEvents(run, n);
    AlertRuns.RunsAreSound(run.rules, ManagerEvents(run, n), |ManagerEvents(run, n)|);
  }

  /** The rules in force after the first `n` events, whatever slot the collector is in. */
  function RulesInForce(run: Run, n: nat): seq<Rule>
    requires n <= |run.events|
  {
    if n == 0 then run.rules
    else if run.events[n - 1].RulesReplaced? then run.events[n - 1].rules
    else RulesInForce(run, n - 1)
  }

  /** The rules the collector evaluates are the last ones it was given. */
  lemma {:induction false} RulesAreTheLastGiven(run: Run, n: nat)
    requires n <= |run.events|
    ensures StateAt(run, n).manager.rules == RulesInForce(run, n)
  {
    if n > 0 {
      RulesAreTheLastGiven(run, n - 1);
    }
  }

  // ----- the slot -----

  /** Event `k` is a panic whose rebuild failed too, and no retry has rebuilt the sampler since. */
  predicate BrokenSince(run: Run, n: nat, k: nat) {
    k < n <= |run.events| && run.events[k] == Panicked(false) && forall j :: k < j < n ==> run.events[j] != Retried(true)
  }

  lemma {:induction false} StaysBroken(run: Run, n: nat, k: nat)
    requires BrokenSince(run, n, k)
    ensures StateAt(run, n).slot == Broken
  {
    if k < n - 1 {
      StaysBroken(run, n - 1, k);
    }
  }

  lemma {:induction false} BrokenBySome(run: Run, n: nat) returns (k: nat)
    requires n <= |run.events| && StateAt(run, n).slot == Broken
    ensures BrokenSince(run, n, k)
  {
    if StateAt(run, n - 1).slot == Broken {
      k := BrokenBySome(run, n - 1);
    } else {
      k := n - 1;
    }
  }

  /** The slot is broken exactly between a panic not rebuilt and the retry that rebuilds it, and a
      sample is published exactly when it is not. */
  lemma PublishesUnlessBroken(run: Run, n: nat)
    requires n < |run.events|
    ensures StateAt(run, n).slot == Broken <==> exists k: nat :: BrokenSince(run, n, k)
    ensures Publishes(run, n) <==> run.events[n].Sampled? && !exists k: nat :: BrokenSince(run, n, k)
  {
    if StateAt(run, n).slot == Broken {
      var k := BrokenBySome(run, n);
    }
    if k: nat :| BrokenSince(run, n, k) {
      StaysBroken(run, n, k);
    }
  }

  // ----- one group's origin, whatever its values are -----

  function Forget<G>(t: GroupTick<G>): GroupTick<()> {
    var read := match t.read
      case Ok(Some(_)) => Ok(Some(()))
      case Ok(None) => Ok(None)
      case Err(failure) => Err(failure);
    GroupTick(read, (), t.now)
  }

  function ForgetAll<G>(h: seq<GroupTick<G>>): seq<GroupTick<()>> {
    seq(|h|, k requires 0 <= k < |h| => Forget(h[k]))
  }

  function ForgetHistory<G>(history: GroupHistory<G>): GroupHistory<()> {
    match history
    case Untouched => Untouched
    case KernelFailing => KernelFailing
    case FromCgroup(_, carry) => FromCgroup((), carry)
  }

  /** Where a group comes from never depends on its values. */
  lemma {:induction false} OriginIgnoresValues<G>(h: seq<GroupTick<G>>)
    ensures HistoryAfter(ForgetAll(h)) == ForgetHistory(HistoryAfter(h))
  {
    if h != [] {
      OriginIgnoresValues(h[..|h| - 1]);
      assert ForgetAll(h)[..|h| - 1] == ForgetAll(h[..|h| - 1]);
    }
  }

  lemma StepIgnoresValues<G>(h: seq<GroupTick<G>>, n: nat)
    requires n < |h|
    ensures StepAt(ForgetAll(h), n).sourced.origin == StepAt(h, n).sourced.origin
  {
    OriginIgnoresValues(h[..n]);
    assert ForgetAll(h)[..n] == ForgetAll(h[..n]);
  }

  /** One group's ticks in a run, without their values. */
  function GroupTicks(g: Group, h: seq<ReadTick>): seq<GroupTick<()>> {
    match g
    case CpuReadings => ForgetAll(CpuTicks(h))
    case MemoryReadings => ForgetAll(MemoryTicks(h))
    case SwapReadings => ForgetAll(SwapTicks(h))
  }

  function OriginOf(g: Group, r: SourcedReadings): Origin {
    match g
    case CpuReadings => r.cpu.origin
    case MemoryReadings => r.memory.origin
    case SwapReadings => r.swap.origin
  }

  lemma OriginByGroup(g: Group, h: seq<ReadTick>, n: nat)
    requires n < |h|
    ensures OriginOf(g, ChoiceAt(h, n).readings) == StepAt(GroupTicks(g, h), n).sourced.origin
  {
    ChoiceByGroup(h, n);
    StepIgnoresValues(CpuTicks(h), n);
    StepIgnoresValues(MemoryTicks(h), n);
    StepIgnoresValues(SwapTicks(h), n);
  }

  lemma {:induction false} SamplesGrow(run: Run, a: nat, b: nat)
    requires a <= b <= |run.events|
    ensures Samples(run, a) <= Samples(run, b)
  {
    if a < b {
      SamplesGrow(run, a, b - 1);
    }
  }

  lemma GroupTicksGrow(g: Group, h: seq<ReadTick>, more: seq<ReadTick>)
    requires h <= more
    ensures GroupTicks(g, h) <= GroupTicks(g, more) && |GroupTicks(g, h)| == |h|
  {
  }

  /** Where the snapshot published by the first `n` events got the group, by its ticks alone. */
  lemma PublishedOrigin(run: Run, n: nat, g: Group)
    requires n <= |run.events|
    ensures var ticks := GroupTicks(g, Samples(run, n));
      && |ticks| == |Samples(run, n)| > 0
      && OriginOf(g, StateAt(run, n).published.readings) == StepAt(ticks, |ticks| - 1).sourced.origin
  {
    PublishedByTheSamples(run, n);
    OriginByGroup(g, Samples(run, n), |Samples(run, n)| - 1);
  }

  /** What a group's own ticks say of its origin is what the published snapshot shows. */
  lemma PublishedLike(run: Run, n: nat, g: Group, ticks: seq<GroupTick<()>>, origin: Origin)
    requires n <= |run.events| && ticks == GroupTicks(g, Samples(run, n)) && ticks != []
    requires StepAt(ticks, |ticks| - 1).sourced.origin == origin
    ensures OriginOf(g, StateAt(run, n).published.readings) == origin
  {
    PublishedOrigin(run, n, g);
  }

  /** Any tick of a failing streak is carried while the last one is within the bound. */
  lemma CarriedInStreak(ticks: seq<GroupTick<()>>, all: seq<GroupTick<()>>, k: nat)
    requires ticks <= all && k + 1 < |ticks|
    requires NonDecreasing(all) && LastSuccess(all, |all|, k)
    requires all[|all| - 1].now - all[k + 1].now <= CARRY_BOUND
    ensures StepAt(ticks, |ticks| - 1).sourced.origin == Sourcing.Carried
  {
    var n := |ticks| - 1;
    assert forall j :: 0 <= j < |ticks| ==> ticks[j] == all[j];
    assert all[n].now <= all[|all| - 1].now;
    assert LastSuccess(ticks, n + 1, k);
    CarriedIffWithinBound(ticks, n, k);
  }

  // ----- what a rule on that group sees -----

  predicate Tracks(g: Group, metric: Metric) {
    match g
    case CpuReadings => metric.Cpu?
    case MemoryReadings => metric.Memory?
    case SwapReadings => metric.Swap?
  }

  /** A rule sees a carried or unavailable group as such, and measures only one that was read. */
  lemma ReadingByOrigin(g: Group, p: Published, rule: Rule)
    requires Tracks(g, rule.metric)
    ensures Observe(AlertReadings(p), rule).Carried? <==> OriginOf(g, p.readings) == Sourcing.Carried
    ensures OriginOf(g, p.readings) == Sourcing.Unavailable ==> Observe(AlertReadings(p), rule).Unavailable?
    ensures Observe(AlertReadings(p), rule).Measured? ==> OriginOf(g, p.readings) in {Kernel, Cgroup}
  {
  }

  lemma ReadTicksLeaveTheKernel(ticks: seq<GroupTick<()>>, k: nat)
    requires k < |ticks| && Succeeded(ticks[k])
    ensures var origin := StepAt(ticks, |ticks| - 1).sourced.origin;
      origin != Kernel && (origin == Cgroup ==> Succeeded(ticks[|ticks| - 1]))
  {
    OriginByHistory(ticks, |ticks| - 1);
  }

  /** Once a group has been read from the cgroup, no rule ever sees the kernel's value of it. */
  lemma NeverBackToTheKernel(run: Run, n: nat, g: Group, k: nat)
    requires n <= |run.events| && k < |Samples(run, n)| && Succeeded(GroupTicks(g, Samples(run, n))[k])
    ensures OriginOf(g, StateAt(run, n).published.readings) != Kernel
    ensures forall rule: Rule :: Tracks(g, rule.metric) && Observe(AlertReadings(StateAt(run, n).published), rule).Measured? ==>
            Succeeded(GroupTicks(g, Samples(run, n))[|Samples(run, n)| - 1])
  {
    var ticks, p := GroupTicks(g, Samples(run, n)), StateAt(run, n).published;
    ReadTicksLeaveTheKernel(ticks, k);
    PublishedLike(run, n, g, ticks, StepAt(ticks, |ticks| - 1).sourced.origin);
    forall rule: Rule | Tracks(g, rule.metric) && Observe(AlertReadings(p), rule).Measured?
      ensures Succeeded(ticks[|ticks| - 1])
    {
      ReadingByOrigin(g, p, rule);
    }
  }

  // ----- an outage -----

  /** Rule `i`'s report on event `c`, when that event publishes. */
  ghost function ReportOn(run: Run, c: nat, i: nat): Option<Report>
    requires Publishes(run, c) && i < |StateAt(run, c).manager.rules|
  {
    var p := StateAt(run, c + 1).published;
    AlertRuns.RuleOutcome(StateAt(run, c).manager, i, AlertReadings(p), p.collected.collectedAt).report
  }

  /** No rules are replaced from `a` to `b`, and every sample published there carries the group. */
  ghost predicate CarriedFrom(run: Run, a: nat, b: nat, g: Group) {
    && a <= b <= |run.events|
    && (forall c :: a <= c < b ==> !run.events[c].RulesReplaced?)
    && (forall c :: a <= c < b && Publishes(run, c) ==>
         OriginOf(g, StateAt(run, c + 1).published.readings) == Sourcing.Carried)
  }

  /** A rule whose group is carried does nothing on the tick. */
  lemma CarriedLeavesRule(m: ManagerView, p: Published, g: Group, i: nat)
    requires i < |m.rules| && Tracks(g, m.rules[i].metric) && OriginOf(g, p.readings) == Sourcing.Carried
    ensures StateOf(RecordView(m, p).states, i) == StateOf(m.states, i)
    ensures var r := AlertRuns.RuleOutcome(m, i, AlertReadings(p), p.collected.collectedAt).report;
      r.None? || r.value.Quiet?
  {
    ReadingByOrigin(g, p, m.rules[i]);
    AlertRuns.FoldAtRule(m, |m.rules|, i, AlertReadings(p), p.collected.collectedAt);
  }

  /** A rule whose group is unavailable clears, keeping its cooldown. */
  lemma UnavailableClearsRule(m: ManagerView, p: Published, g: Group, i: nat)
    requires Sound(m) && i < |m.rules| && Tracks(g, m.rules[i].metric) && OriginOf(g, p.readings) == Sourcing.Unavailable
    ensures StateOf(RecordView(m, p).states, i) == RuleView(Clear, StateOf(m.states, i).lastNotified)
  {
    ReadingByOrigin(g, p, m.rules[i]);
    AlertRuns.FoldAtRule(m, |m.rules|, i, AlertReadings(p), p.collected.collectedAt);
  }

  /** Event `c` published, and rule `i` notified on it. */
  ghost predicate NotifiedOn(run: Run, c: nat, i: nat) {
    Publishes(run, c) && i < |StateAt(run, c).manager.rules| &&
    ReportOn(run, c, i).Some? && ReportOn(run, c, i).value.Notify?
  }

  /** Rule `i` stands at `b` exactly where it stood at `a`, and notified on no event between. */
  ghost predicate StoodStill(run: Run, a: nat, b: nat, i: nat)
    requires a <= b <= |run.events|
  {
    && StateAt(run, b).manager.rules == StateAt(run, a).manager.rules
    && StateOf(StateAt(run, b).manager.states, i) == StateOf(StateAt(run, a).manager.states, i)
    && forall c :: a <= c < b ==> !NotifiedOn(run, c, i)
  }

  lemma PublishingRecords(run: Run, c: nat)
    requires Publishes(run, c)
    ensures StateAt(run, c + 1).manager == RecordView(StateAt(run, c).manager, StateAt(run, c + 1).published)
  {
  }

  lemma OthersLeaveTheManager(run: Run, c: nat)
    requires c < |run.events| && !Publishes(run, c) && !run.events[c].RulesReplaced?
    ensures StateAt(run, c + 1).manager == StateAt(run, c).manager
  {
  }

  lemma CarriedEventStandsStill(run: Run, c: nat, g: Group, i: nat)
    requires c < |run.events| && CarriedFrom(run, c, c + 1, g)
    requires i < |StateAt(run, c).manager.rules| && Tracks(g, StateAt(run, c).manager.rules[i].metric)
    ensures StateAt(run, c + 1).manager.rules == StateAt(run, c).manager.rules
    ensures StateOf(StateAt(run, c + 1).manager.states, i) == StateOf(StateAt(run, c).manager.states, i)
    ensures !NotifiedOn(run, c, i)
  {
    if Publishes(run, c) {
      PublishingRecords(run, c);
      CarriedLeavesRule(StateAt(run, c).manager, StateAt(run, c + 1).published, g, i);
    } else {
      OthersLeaveTheManager(run, c);
    }
  }

  lemma CarriedToTheEnd(run: Run, a: nat, b: nat, g: Group)
    requires CarriedFrom(run, a, b, g) && a < b
    ensures CarriedFrom(run, a, b - 1, g) && CarriedFrom(run, b - 1, b, g)
  {
  }

  lemma StandsStillLonger(run: Run, a: nat, b: nat, i: nat)
    requires a < b <= |run.events| && StoodStill(run, a, b - 1, i)
    requires StateAt(run, b).manager.rules == StateAt(run, b - 1).manager.rules
    requires StateOf(StateAt(run, b).manager.states, i) == StateOf(StateAt(run, b - 1).manager.states, i)
    requires !NotifiedOn(run, b - 1, i)
    ensures StoodStill(run, a, b, i)
  {
  }

  /** While a group is carried its rules stand still: incident, value, breach start, cooldown. */
  lemma {:induction false} CarriedRulesStandStill(run: Run, a: nat, b: nat, g: Group, i: nat)
    requires CarriedFrom(run, a, b, g)
    requires i < |StateAt(run, a).manager.rules| && Tracks(g, StateAt(run, a).manager.rules[i].metric)
    ensures StoodStill(run, a, b, i)
  {
    if a < b {
      CarriedToTheEnd(run, a, b, g);
      CarriedRulesStandStill(run, a, b - 1, g, i);
      CarriedEventStandsStill(run, b - 1, g, i);
      StandsStillLonger(run, a, b, i);
    }
  }

  /** No rules are replaced from `a` to `b`; the group's last success is sample `k`, before `a`,
      and its last sample by `b` is at most 30 monotonic seconds past the first failure. */
  ghost predicate WithinTheBound(run: Run, a: nat, b: nat, g: Group, k: nat) {
    && a <= b <= |run.events| && k < |Samples(run, a)|
    && (forall c :: a <= c < b ==> !run.events[c].RulesReplaced?)
    && StreakWithinBound(GroupTicks(g, Samples(run, b)), k)
  }

  ghost predicate StreakWithinBound(ticks: seq<GroupTick<()>>, k: nat) {
    && NonDecreasing(ticks) && LastSuccess(ticks, |ticks|, k)
    && (k + 1 < |ticks| ==> ticks[|ticks| - 1].now - ticks[k + 1].now <= CARRY_BOUND)
  }

  /** A sample published after the last success is a failure of the streak. */
  lemma SampleIsPastSuccess(run: Run, a: nat, b: nat, g: Group, c: nat)
    requires a <= c < b <= |run.events| && Publishes(run, c)
    ensures GroupTicks(g, Samples(run, c + 1)) <= GroupTicks(g, Samples(run, b))
    ensures |Samples(run, a)| < |GroupTicks(g, Samples(run, c + 1))|
  {
    SamplesGrow(run, a, c);
    SamplesGrow(run, c + 1, b);
    GroupTicksGrow(g, Samples(run, c + 1), Samples(run, b));
  }

  lemma OutageCarriesSample(run: Run, a: nat, b: nat, g: Group, k: nat, c: nat)
    requires WithinTheBound(run, a, b, g, k) && a <= c < b && Publishes(run, c)
    ensures OriginOf(g, StateAt(run, c + 1).published.readings) == Sourcing.Carried
  {
    SampleIsPastSuccess(run, a, b, g, c);
    var ticks := GroupTicks(g, Samples(run, c + 1));
    CarriedInStreak(ticks, GroupTicks(g, Samples(run, b)), k);
    PublishedLike(run, c + 1, g, ticks, Sourcing.Carried);
  }

  /** A failing streak, however many samples long, is carried while its last sample is at most
      30 monotonic seconds past its first. */
  lemma OutageIsCarried(run: Run, a: nat, b: nat, g: Group, k: nat)
    requires WithinTheBound(run, a, b, g, k)
    ensures CarriedFrom(run, a, b, g)
  {
    forall c | a <= c < b && Publishes(run, c)
      ensures OriginOf(g, StateAt(run, c + 1).published.readings) == Sourcing.Carried
    {
      OutageCarriesSample(run, a, b, g, k, c);
    }
  }

  /** The sample published by event `b` comes past the bound since the failures after `k` began. */
  ghost predicate PastTheBound(run: Run, b: nat, g: Group, k: nat) {
    Publishes(run, b) && StreakPastTheBound(GroupTicks(g, Samples(run, b + 1)), k)
  }

  ghost predicate StreakPastTheBound(ticks: seq<GroupTick<()>>, k: nat) {
    && NonDecreasing(ticks) && k + 1 < |ticks| && LastSuccess(ticks, |ticks|, k)
    && ticks[|ticks| - 1].now - ticks[k + 1].now > CARRY_BOUND
  }

  lemma ExpiredInStreak(ticks: seq<GroupTick<()>>, k: nat)
    requires StreakPastTheBound(ticks, k)
    ensures StepAt(ticks, |ticks| - 1).sourced.origin == Sourcing.Unavailable
  {
    CarriedIffWithinBound(ticks, |ticks| - 1, k);
  }

  /** The first sample past the bound ends every incident on the group. The cooldown is kept. */
  lemma OutagePastTheBoundEndsIncidents(run: Run, b: nat, g: Group, k: nat, i: nat)
    requires PastTheBound(run, b, g, k)
    requires i < |StateAt(run, b).manager.rules| && Tracks(g, StateAt(run, b).manager.rules[i].metric)
    ensures StateOf(StateAt(run, b + 1).manager.states, i)
         == RuleView(Clear, StateOf(StateAt(run, b).manager.states, i).lastNotified)
  {
    var ticks := GroupTicks(g, Samples(run, b + 1));
    ExpiredInStreak(ticks, k);
    PublishedLike(run, b + 1, g, ticks, Sourcing.Unavailable);
    ManagerIsSound(run, b);
    PublishingRecords(run, b);
    UnavailableClearsRule(StateAt(run, b).manager, StateAt(run, b + 1).published, g, i);
  }

  /** An incident opened after rule `i` was clear is numbered past every incident before it. */
  lemma {:induction false} LaterIncidentsAreLarger(run: Run, c: nat, d: nat, i: nat, later: Incident)
    requires c <= d <= |run.events| && StateOf(StateAt(run, c).manager.states, i).breach.Clear?
    requires Holds(StateAt(run, d).manager, i, later)
    ensures StateAt(run, c).manager.minted < later.sequence
    decreases d
  {
    ManagerIsSound(run, d - 1);
    var before := StateAt(run, d - 1).manager;
    if Publishes(run, d - 1) {
      var p := StateAt(run, d).published;
      EvaluateKeepsSound(before, AlertReadings(p), p.collected.collectedAt);
    }
    if Holds(before, i, later) {
      LaterIncidentsAreLarger(run, c, d - 1, i, later);
    } else {
      MintedGrows(run, c, d - 1);
    }
  }

  lemma {:induction false} MintedGrows(run: Run, c: nat, d: nat)
    requires c <= d <= |run.events|
    ensures StateAt(run, c).manager.minted <= StateAt(run, d).manager.minted
  {
    if c < d {
      MintedGrows(run, c, d - 1);
      ManagerIsSound(run, d - 1);
      if Publishes(run, d - 1) {
        var p := StateAt(run, d).published;
        EvaluateKeepsSound(StateAt(run, d - 1).manager, AlertReadings(p), p.collected.collectedAt);
      }
    }
  }

  /**
   End to end. Rule `i` tracks a group read from the cgroup, and has an incident at `a`. Through
   an outage of at most 30 monotonic seconds, up to `b`, the incident keeps its id, activation
   time and value and nothing notifies; the first sample past the bound ends it; and whatever
   the rule opens afterwards has a strictly larger number.
   */
  lemma OutageEndToEnd(run: Run, a: nat, b: nat, d: nat, g: Group, k: nat, i: nat, incident: Incident, later: Incident)
    requires a <= b < d <= |run.events|
    requires WithinTheBound(run, a, b, g, k)
    requires PastTheBound(run, b, g, k)
    requires i < |StateAt(run, a).manager.rules| && Tracks(g, StateAt(run, a).manager.rules[i].metric)
    requires Holds(StateAt(run, a).manager, i, incident) && Holds(StateAt(run, d).manager, i, later)
    ensures StoodStill(run, a, b, i)
    ensures StateOf(StateAt(run, b + 1).manager.states, i).breach.Clear?
    ensures incident.sequence < later.sequence
  {
    OutageIsCarried(run, a, b, g, k);
    CarriedRulesStandStill(run, a, b, g, i);
    OutagePastTheBoundEndsIncidents(run, b, g, k, i);
    LaterIncidentsAreLarger(run, b + 1, d, i, later);
    MintedGrows(run, a, b + 1);
    ManagerIsSound(run, a);
  }
}
