/**
 Every run of the alert manager: any interleaving of evaluations and rule replacements. Each
 incident number belongs to one rule of one rule set over one unbroken span of events, the
 numbers ever open are exactly those minted, and each rule's state is the one its own history
 of ticks describes.
 */
module AlertRuns {
  import opened Basics
  import opened Alerts
  import opened AlertHistory
  import opened AlertManagers
  import opened Decimal

  datatype Event = Evaluate(readings: Readings, now: nat) | Replace(rules: seq<Rule>)

  ghost function Apply(m: ManagerView, e: Event): ManagerView {
    match e
    case Evaluate(readings, now) => EvaluateView(m, readings, now)
    case Replace(rules) => ReplaceView(m, rules)
  }

  /** The manager after the first `n` events of a run that started with `rules`. */
  ghost function After(rules: seq<Rule>, es: seq<Event>, n: nat): ManagerView
    requires n <= |es|
  {
    if n == 0 then ManagerView(rules, [], map[], 0) else Apply(After(rules, es, n - 1), es[n - 1])
  }

  /** The rules in force after `n` events: the last replacement's, else those the run started with. */
  function RulesInForce(rules: seq<Rule>, es: seq<Event>, n: nat): seq<Rule>
    requires n <= |es|
  {
    if n == 0 then rules
    else
      match es[n - 1]
      case Replace(next) => next
      case Evaluate(_, _) => RulesInForce(rules, es, n - 1)
  }

  /** A replacement takes effect at once and stands until the next. */
  lemma {:induction false} RulesAreTheLastReplacements(rules: seq<Rule>, es: seq<Event>, n: nat)
    requires n <= |es|
    ensures After(rules, es, n).rules == RulesInForce(rules, es, n)
  {
    if n > 0 {
      RulesAreTheLastReplacements(rules, es, n - 1);
    }
  }

  lemma {:induction false} ListedNothing(rules: seq<Rule>, n: nat)
    requires n <= |rules|
    ensures Listed(rules, map[], n) == []
  {
    if n > 0 {
      ListedNothing(rules, n - 1);
    }
  }

  /** What each step keeps, on every run. */
  lemma {:induction false} RunsAreSound(rules: seq<Rule>, es: seq<Event>, n: nat)
    requires n <= |es|
    ensures Sound(After(rules, es, n))
  {
    if n == 0 {
      ListedNothing(rules, |rules|);
    } else {
      RunsAreSound(rules, es, n - 1);
      match es[n - 1] {
        case Evaluate(readings, now) => EvaluateKeepsSound(After(rules, es, n - 1), readings, now);
        case Replace(next) => ListedNothing(next, |next|);
      }
    }
  }

  /** An event opens only numbers it mints, and mints no number twice. */
  lemma OldIncidentsStand(rules: seq<Rule>, es: seq<Event>, n: nat, i: nat, incident: Incident)
    requires n < |es|
    requires Holds(After(rules, es, n + 1), i, incident) && incident.sequence <= After(rules, es, n).minted
    ensures Holds(After(rules, es, n), i, incident) && es[n].Evaluate?
  {
    RunsAreSound(rules, es, n);
    if es[n].Evaluate? {
      EvaluateKeepsSound(After(rules, es, n), es[n].readings, es[n].now);
    }
  }

  lemma {:induction false} MintedNeverRewinds(rules: seq<Rule>, es: seq<Event>, a: nat, b: nat)
    requires a <= b <= |es|
    ensures After(rules, es, a).minted <= After(rules, es, b).minted
  {
    if a < b {
      MintedNeverRewinds(rules, es, a, b - 1);
      RunsAreSound(rules, es, b - 1);
      if es[b - 1].Evaluate? {
        EvaluateKeepsSound(After(rules, es, b - 1), es[b - 1].readings, es[b - 1].now);
      }
    }
  }

  /**
   An incident number open at two points of a run is one incident: the same rule of the same
   rule set, the same activation time, and open at every point between, with no replacement.
   */
  lemma {:induction false} OneIncidentPerNumber(
    rules: seq<Rule>, es: seq<Event>, a: nat, b: nat, i: nat, first: Incident, j: nat, second: Incident)
    requires a <= b <= |es|
    requires Holds(After(rules, es, a), i, first) && Holds(After(rules, es, b), j, second)
    requires first.sequence == second.sequence
    ensures i == j && first == second
    ensures forall c :: a <= c <= b ==> Holds(After(rules, es, c), i, first)
    ensures forall c :: a <= c < b ==> es[c].Evaluate?
    decreases b - a
  {
    RunsAreSound(rules, es, a);
    if a < b {
      MintedNeverRewinds(rules, es, a, b - 1);
      OldIncidentsStand(rules, es, b - 1, j, second);
      OneIncidentPerNumber(rules, es, a, b - 1, i, first, j, second);
    }
  }

  /** The numbers ever open are exactly 1 to `minted`: one activation minted each. */
  lemma {:induction false} MintedCountsActivations(rules: seq<Rule>, es: seq<Event>, n: nat, sequence: nat)
    requires n <= |es|
    ensures 1 <= sequence <= After(rules, es, n).minted <==>
            exists c: nat :: c <= n && Open(After(rules, es, c), sequence)
  {
    RunsAreSound(rules, es, n);
    if exists c: nat :: c <= n && Open(After(rules, es, c), sequence) {
      var c: nat :| c <= n && Open(After(rules, es, c), sequence);
      RunsAreSound(rules, es, c);
      MintedNeverRewinds(rules, es, c, n);
    } else if n > 0 {
      MintedCountsActivations(rules, es, n - 1, sequence);
      RunsAreSound(rules, es, n - 1);
      if es[n - 1].Evaluate? {
        EvaluateKeepsSound(After(rules, es, n - 1), es[n - 1].readings, es[n - 1].now);
      }
      assert !Open(After(rules, es, n), sequence);
      assert forall c: nat :: c <= n - 1 ==> !Open(After(rules, es, c), sequence);
    }
  }

  // ----- the alerts listed as active -----

  function Ids(alerts: seq<ActiveAlert>): (ids: seq<nat>)
    ensures |ids| == |alerts|
  {
    seq(|alerts|, k requires 0 <= k < |alerts| => alerts[k].id)
  }

  predicate Distinct(ids: seq<nat>) {
    forall p, q :: 0 <= p < q < |ids| ==> ids[p] != ids[q]
  }

  lemma {:induction false} ListedAreHeld(m: ManagerView, n: nat)
    requires Sound(m) && n <= |m.rules|
    ensures Distinct(Ids(Listed(m.rules, m.states, n)))
    ensures forall id :: id in Ids(Listed(m.rules, m.states, n)) <==>
            exists i: nat, incident :: i < n && Holds(m, i, incident) && incident.sequence == id
  {
    if n > 0 {
      ListedAreHeld(m, n - 1);
      var rest, all := Listed(m.rules, m.states, n - 1), Listed(m.rules, m.states, n);
      var breach := StateOf(m.states, n - 1).breach;
      if breach.Active? {
        assert Holds(m, n - 1, breach.incident);
        assert breach.incident.sequence !in Ids(rest);
        assert Ids(all) == Ids(rest) + [breach.incident.sequence];
      }
    }
  }

  /** The ids listed as active are the open incidents' numbers, each once. */
  lemma ActiveIdsAreOpen(m: ManagerView, id: nat)
    requires Sound(m)
    ensures Distinct(Ids(m.active))
    ensures id in Ids(m.active) <==> Open(m, id)
  {
    ListedAreHeld(m, |m.rules|);
    if Open(m, id) {
      var i: nat, incident :| Holds(m, i, incident) && incident.sequence == id;
      assert i < |m.rules|;
    }
  }

  /** What rule `i` shows while its incident is open. */
  predicate Shows(m: ManagerView, i: nat, alert: ActiveAlert) {
    i < |m.rules| && i in m.states && m.states[i].breach.Active? &&
    var breach := m.states[i].breach;
    alert.id == breach.incident.sequence && alert.firedAt == breach.incident.activatedAt
    && alert.currentValue == breach.value && alert.rule == m.rules[i]
  }

  lemma {:induction false} ListedIsShown(m: ManagerView, n: nat, alert: ActiveAlert)
    requires n <= |m.rules|
    ensures alert in Listed(m.rules, m.states, n) <==> exists i: nat :: i < n && Shows(m, i, alert)
  {
    if n > 0 {
      ListedIsShown(m, n - 1, alert);
      var here := AlertOf(StateOf(m.states, n - 1).breach, m.rules[n - 1]);
      assert here == Some(alert) <==> Shows(m, n - 1, alert);
    }
  }

  /** An alert is listed exactly when some rule's open incident has its number, activation time,
      last measured value and rule. */
  lemma ActiveAlertsShowIncidents(m: ManagerView, alert: ActiveAlert)
    requires Sound(m)
    ensures alert in m.active <==> exists i: nat :: Shows(m, i, alert)
  {
    ListedIsShown(m, |m.rules|, alert);
  }

  /** An id listed at two points of a run is listed at every point between. */
  lemma ActiveIdsUnbroken(rules: seq<Rule>, es: seq<Event>, a: nat, c: nat, b: nat, id: nat)
    requires a <= c <= b <= |es|
    requires id in Ids(After(rules, es, a).active) && id in Ids(After(rules, es, b).active)
    ensures id in Ids(After(rules, es, c).active)
  {
    RunsAreSound(rules, es, a);
    RunsAreSound(rules, es, b);
    RunsAreSound(rules, es, c);
    ActiveIdsAreOpen(After(rules, es, a), id);
    ActiveIdsAreOpen(After(rules, es, b), id);
    ActiveIdsAreOpen(After(rules, es, c), id);
    var i: nat, first :| Holds(After(rules, es, a), i, first) && first.sequence == id;
    var j: nat, second :| Holds(After(rules, es, b), j, second) && second.sequence == id;
    OneIncidentPerNumber(rules, es, a, b, i, first, j, second);
    assert Holds(After(rules, es, c), i, first);
  }

  // ----- each rule inside the manager is the rule of AlertHistory -----

  /** The outcome of rule `i`'s tick inside one evaluation. */
  ghost function RuleOutcome(m: ManagerView, i: nat, readings: Readings, now: nat): Outcome
    requires i < |m.rules|
  {
    var fold := FoldRules(m, i, readings, now);
    StepRule(m.rules[i], StateOf(m.states, i), Observe(readings, m.rules[i]), now, fold.minted)
  }

  lemma {:induction false} FoldAtRule(m: ManagerView, n: nat, i: nat, readings: Readings, now: nat)
    requires n <= |m.rules|
    ensures StateOf(FoldRules(m, n, readings, now).states, i) ==
            if i < n && m.rules[i].enabled then RuleOutcome(m, i, readings, now).view else StateOf(m.states, i)
  {
    if n > 0 {
      FoldAtRule(m, n - 1, i, readings, now);
    }
  }

  /** Rule `i` is enabled and its tick notifies `alert`. */
  ghost predicate RuleNotifies(m: ManagerView, i: nat, readings: Readings, now: nat, alert: ActiveAlert) {
    i < |m.rules| && m.rules[i].enabled && RuleOutcome(m, i, readings, now).report == Some(Notify(alert))
  }

  predicate Ascending(at: seq<nat>) {
    forall p, q :: 0 <= p < q < |at| ==> at[p] < at[q]
  }

  /** `notified` is the alerts of the rules before `n` that notify, at their places `at`, in rule order. */
  ghost predicate Notifiers(m: ManagerView, n: nat, readings: Readings, now: nat, notified: seq<ActiveAlert>, at: seq<nat>) {
    && Ascending(at) && |notified| == |at|
    && (forall p :: 0 <= p < |at| ==> at[p] < n && RuleNotifies(m, at[p], readings, now, notified[p]))
    && (forall i: nat, alert :: i < n && RuleNotifies(m, i, readings, now, alert) ==> i in at)
  }

  lemma FoldNotifies(m: ManagerView, n: nat, readings: Readings, now: nat, alert: ActiveAlert)
    requires n < |m.rules|
    ensures var (before, next) := (FoldRules(m, n, readings, now).notified, FoldRules(m, n + 1, readings, now).notified);
      && (RuleNotifies(m, n, readings, now, alert) ==> next == before + [alert])
      && ((forall a :: !RuleNotifies(m, n, readings, now, a)) ==> next == before)
  {
    FoldAtRule(m, n, n, readings, now);
    var report := RuleOutcome(m, n, readings, now).report;
    if m.rules[n].enabled && report.Some? && report.value.Notify? {
      assert RuleNotifies(m, n, readings, now, report.value.alert);
    }
  }

  lemma OneMoreNotifier(m: ManagerView, n: nat, readings: Readings, now: nat, notified: seq<ActiveAlert>, at: seq<nat>, alert: ActiveAlert)
    requires Notifiers(m, n, readings, now, notified, at) && RuleNotifies(m, n, readings, now, alert)
    ensures Notifiers(m, n + 1, readings, now, notified + [alert], at + [n])
  {
    forall i: nat, a | i < n + 1 && RuleNotifies(m, i, readings, now, a) ensures i in at + [n] {
      if i < n { assert i in at; }
    }
  }

  /** What an evaluation returns, in rule order: each notifying rule's alert, once. */
  lemma {:induction false} NotifiedInRuleOrder(m: ManagerView, n: nat, readings: Readings, now: nat) returns (at: seq<nat>)
    requires n <= |m.rules|
    ensures Notifiers(m, n, readings, now, FoldRules(m, n, readings, now).notified, at)
  {
    at := [];
    if n > 0 {
      var last := n - 1;
      at := NotifiedInRuleOrder(m, last, readings, now);
      if alert :| RuleNotifies(m, last, readings, now, alert) {
        FoldNotifies(m, last, readings, now, alert);
        OneMoreNotifier(m, last, readings, now, FoldRules(m, last, readings, now).notified, at, alert);
        at := at + [last];
      } else {
        FoldNotifies(m, last, readings, now, ActiveAlert(0, m.rules[last], 0.0, 0));
      }
    }
  }

  /** An evaluation notifies exactly the alerts its enabled rules' ticks notify. */
  lemma NotifiedByRules(m: ManagerView, readings: Readings, now: nat, alert: ActiveAlert)
    ensures alert in FoldRules(m, |m.rules|, readings, now).notified <==> exists i: nat :: RuleNotifies(m, i, readings, now, alert)
  {
    var at := NotifiedInRuleOrder(m, |m.rules|, readings, now);
    var notified := FoldRules(m, |m.rules|, readings, now).notified;
    if alert in notified {
      var p :| 0 <= p < |notified| && notified[p] == alert;
      assert RuleNotifies(m, at[p], readings, now, notified[p]);
    }
    if i: nat :| RuleNotifies(m, i, readings, now, alert) {
      var p :| 0 <= p < |at| && at[p] == i;
      assert RuleNotifies(m, at[p], readings, now, notified[p]);
    }
  }

  /** The ticks rule `i` of the current rule set has had, newest last. */
  ghost function RuleTicks(rules: seq<Rule>, es: seq<Event>, n: nat, i: nat): seq<Tick>
    requires n <= |es|
  {
    if n == 0 || es[n - 1].Replace? then []
    else
      var m := After(rules, es, n - 1);
      if i < |m.rules| && m.rules[i].enabled
      then RuleTicks(rules, es, n - 1, i) + [TickOf(m, i, es[n - 1].readings, es[n - 1].now)]
      else RuleTicks(rules, es, n - 1, i)
  }

  ghost function TickOf(m: ManagerView, i: nat, readings: Readings, now: nat): Tick
    requires i < |m.rules|
  {
    Tick(Observe(readings, m.rules[i]), now, FoldRules(m, i, readings, now).minted)
  }

  /** On every run, a rule's state is the one its own history of ticks gives. */
  lemma {:induction false} RuleFollowsItsHistory(rules: seq<Rule>, es: seq<Event>, n: nat, i: nat)
    requires n <= |es| && i < |After(rules, es, n).rules|
    ensures StateOf(After(rules, es, n).states, i) == StateAfter(After(rules, es, n).rules[i], RuleTicks(rules, es, n, i))
    ensures Describes(After(rules, es, n).rules[i], RuleTicks(rules, es, n, i), StateOf(After(rules, es, n).states, i).breach)
  {
    var m' := After(rules, es, n);
    var ticks := RuleTicks(rules, es, n, i);
    if n > 0 && es[n - 1].Evaluate? {
      var m := After(rules, es, n - 1);
      RuleFollowsItsHistory(rules, es, n - 1, i);
      FoldAtRule(m, |m.rules|, i, es[n - 1].readings, es[n - 1].now);
      if m.rules[i].enabled {
        assert ticks[..|ticks| - 1] == RuleTicks(rules, es, n - 1, i);
      }
    }
    StateMatchesHistory(m'.rules[i], ticks);
  }

  /** What a tick of rule `i` reports is what its own history reports. */
  lemma RuleReportsByItsHistory(rules: seq<Rule>, es: seq<Event>, n: nat, i: nat)
    requires n < |es| && es[n].Evaluate?
    requires i < |After(rules, es, n).rules| && After(rules, es, n).rules[i].enabled
    ensures var (m, ticks) := (After(rules, es, n), RuleTicks(rules, es, n + 1, i));
      |ticks| > 0 && RuleOutcome(m, i, es[n].readings, es[n].now).report == ReportAt(m.rules[i], ticks, |ticks| - 1)
  {
    var ticks := RuleTicks(rules, es, n + 1, i);
    RuleFollowsItsHistory(rules, es, n, i);
    assert ticks[..|ticks| - 1] == RuleTicks(rules, es, n, i);
  }

  // ----- ids on the wire -----

  /** An incident's id as the wire carries it: the run's UUID, a dash, the number. */
  function WireId(run: string, sequence: nat): string {
    run + "-" + Digits(sequence)
  }

  /** Runs are written in one width, so ids of different incidents or runs never meet. */
  lemma WireIdsNeverMeet(run: string, sequence: nat, run': string, sequence': nat)
    requires |run| == |run'| && WireId(run, sequence) == WireId(run', sequence')
    ensures run == run' && sequence == sequence'
  {
    var w := |run| + 1;
    assert WireId(run, sequence)[..|run|] == run && WireId(run', sequence')[..|run'|] == run';
    assert WireId(run, sequence)[w..] == Digits(sequence) && WireId(run', sequence')[w..] == Digits(sequence');
    DigitsRoundTrip(sequence);
    DigitsRoundTrip(sequence');
  }
}
