/**
 The alert manager (src/alerts.rs): every rule's state, the run's incident numbers, and the
 alerts active now, over any interleaving of evaluations and rule replacements.
 */
module AlertManagers {
  import opened Basics
  import opened Alerts
  import AlertHistory

  datatype ManagerView = ManagerView(
    rules: seq<Rule>,
    active: seq<ActiveAlert>,
    states: map<nat, RuleView>,
    minted: nat)

  function StateOf(states: map<nat, RuleView>, i: nat): RuleView {
    if i in states then states[i] else FRESH
  }

  // ----- one evaluation, as functions -----

  datatype Fold = Fold(states: map<nat, RuleView>, minted: nat, active: seq<ActiveAlert>, notified: seq<ActiveAlert>)

  ghost function FoldRule(fold: Fold, rule: Rule, i: nat, readings: Readings, now: nat): Fold {
    if !rule.enabled then fold
    else
      var o := StepRule(rule, StateOf(fold.states, i), Observe(readings, rule), now, fold.minted);
      Fold(
        fold.states[i := o.view],
        o.minted,
        match o.report case Some(r) => fold.active + [r.alert] case None => fold.active,
        match o.report case Some(Notify(alert)) => fold.notified + [alert] case _ => fold.notified)
  }

  /** The first `n` rules' ticks, in rule order. */
  ghost function FoldRules(m: ManagerView, n: nat, readings: Readings, now: nat): Fold
    requires n <= |m.rules|
  {
    if n == 0 then Fold(m.states, m.minted, [], [])
    else FoldRule(FoldRules(m, n - 1, readings, now), m.rules[n - 1], n - 1, readings, now)
  }

  ghost function EvaluateView(m: ManagerView, readings: Readings, now: nat): ManagerView {
    var fold := FoldRules(m, |m.rules|, readings, now);
    ManagerView(m.rules, fold.active, fold.states, fold.minted)
  }

  function ReplaceView(m: ManagerView, rules: seq<Rule>): ManagerView {
    ManagerView(rules, [], map[], m.minted)
  }

  // ----- the manager, in place -----

  class AlertManager {
    var rules: seq<Rule>
    var activeAlerts: seq<ActiveAlert>
    var states: map<nat, RuleState>
    const incidents: IncidentSequence

    ghost predicate Valid()
      reads this
    {
      forall i, j :: i in states && j in states && i != j ==> states[i] != states[j]
    }

    ghost function States(): map<nat, RuleView>
      reads this, states.Values
    {
      map i | i in states :: states[i].View()
    }

    ghost function View(): ManagerView
      reads this, states.Values, incidents
    {
      ManagerView(rules, activeAlerts, States(), incidents.minted)
    }

    constructor (rules: seq<Rule>)
      ensures Valid() && states == map[] && View() == ManagerView(rules, [], map[], 0)
      ensures fresh(incidents)
    {
      this.rules, activeAlerts, states := rules, [], map[];
      incidents := new IncidentSequence();
    }

    method ReplaceRules(rules: seq<Rule>)
      requires Valid()
      modifies this
      ensures Valid() && states == map[] && View() == ReplaceView(old(View()), rules)
    {
      this.rules, activeAlerts, states := rules, [], map[];
    }

    /** `entry(index).or_default()`: the rule's state, created on its first tick. */
    method Entry(i: nat) returns (state: RuleState)
      requires Valid()
      modifies this`states
      ensures Valid() && i in states && states[i] == state
      ensures state.View() == StateOf(old(States()), i)
      ensures States() == old(States())[i := state.View()]
      ensures if i in old(states) then states == old(states) else fresh(state) && states == old(states)[i := state]
    {
      if i in states {
        state := states[i];
      } else {
        state := new RuleState();
        states := states[i := state];
      }
    }

    method TickRule(i: nat, rule: Rule, readings: Readings, now: nat) returns (report: Option<Report>)
      requires Valid()
      modifies this`states, states.Values, incidents
      ensures Valid() && fresh(states.Values - old(states.Values))
      ensures
        var o := StepRule(rule, StateOf(old(States()), i), Observe(readings, rule), now, old(incidents.minted));
        States() == old(States())[i := o.view] && incidents.minted == o.minted && report == o.report
    {
      ghost var before := States();
      var state := Entry(i);
      label entered:
      report := state.Tick(rule, readings, now, incidents);
      forall j | j in states && j != i ensures states[j].View() == old@entered(states[j].View()) {
        assert states[j] != state;
      }
      assert States() == before[i := state.View()];
    }

    method Evaluate(readings: Readings, now: nat) returns (notified: seq<ActiveAlert>)
      requires Valid()
      modifies this, states.Values, incidents
      ensures Valid() && fresh(states.Values - old(states.Values))
      ensures View() == EvaluateView(old(View()), readings, now)
      ensures notified == FoldRules(old(View()), |old(rules)|, readings, now).notified
    {
      ghost var m := View();
      notified := [];
      var active := [];
      for i := 0 to |rules|
        invariant Valid() && rules == m.rules
        invariant fresh(states.Values - old(states.Values))
        invariant FoldRules(m, i, readings, now) == Fold(States(), incidents.minted, active, notified)
      {
        if rules[i].enabled {
          var report := TickRule(i, rules[i], readings, now);
          match report {
            case None =>
            case Some(Quiet(alert)) =>
              active := active + [alert];
            case Some(Notify(alert)) =>
              notified, active := notified + [alert], active + [alert];
          }
        }
      }
      activeAlerts := active;
    }
  }

  // ----- incidents, over every run -----

  /** Rule `i` of the current set has `incident` open. */
  predicate Holds(m: ManagerView, i: nat, incident: Incident) {
    i in m.states && m.states[i].breach.Active? && m.states[i].breach.incident == incident
  }

  /** Some rule has the run's incident number `sequence` open. */
  ghost predicate Open(m: ManagerView, sequence: nat) {
    exists i: nat, incident :: Holds(m, i, incident) && incident.sequence == sequence
  }

  /** The alerts of the rules before `n` that have an incident, in rule order. */
  function Listed(rules: seq<Rule>, states: map<nat, RuleView>, n: nat): seq<ActiveAlert>
    requires n <= |rules|
  {
    if n == 0 then []
    else
      var rest := Listed(rules, states, n - 1);
      match AlertOf(StateOf(states, n - 1).breach, rules[n - 1])
      case Some(alert) => rest + [alert]
      case None => rest
  }

  /** What every step of a manager keeps. */
  ghost predicate Sound(m: ManagerView) {
    && (forall i :: i in m.states ==> i < |m.rules| && m.rules[i].enabled)
    && (forall i: nat, inc :: Holds(m, i, inc) ==> 1 <= inc.sequence <= m.minted)
    && (forall i: nat, inc, j: nat, inc' :: Holds(m, i, inc) && Holds(m, j, inc') && inc.sequence == inc'.sequence ==> i == j)
    && m.active == Listed(m.rules, m.states, |m.rules|)
  }

  /** The manager a fold of its first `n` rules has reached. */
  ghost function Midway(m: ManagerView, n: nat, readings: Readings, now: nat): ManagerView
    requires n <= |m.rules|
  {
    var fold := FoldRules(m, n, readings, now);
    ManagerView(m.rules, fold.active, fold.states, fold.minted)
  }

  /** What has happened to the incidents of `m` when the fold reaches `k`, `n` rules in. */
  ghost predicate Folded(m: ManagerView, k: ManagerView, n: nat)
    requires n <= |m.rules|
  {
    && m.minted <= k.minted
    && (forall i :: i in k.states ==> i < |m.rules| && m.rules[i].enabled)
    && (forall i: nat :: n <= i ==> StateOf(k.states, i) == StateOf(m.states, i))
    && (forall i: nat, inc :: Holds(k, i, inc) ==> Holds(m, i, inc) || (i < n && m.minted < inc.sequence <= k.minted))
    && (forall i: nat, inc, j: nat, inc' :: Holds(k, i, inc) && Holds(k, j, inc') && inc.sequence == inc'.sequence ==> i == j)
    && (forall s: nat :: m.minted < s <= k.minted ==> Open(k, s))
    && k.active == Listed(m.rules, k.states, n)
  }

  lemma {:induction false} ListedCongruence(rules: seq<Rule>, states: map<nat, RuleView>, states': map<nat, RuleView>, n: nat)
    requires n <= |rules|
    requires forall i :: 0 <= i < n ==> StateOf(states, i) == StateOf(states', i)
    ensures Listed(rules, states, n) == Listed(rules, states', n)
  {
    if n > 0 {
      ListedCongruence(rules, states, states', n - 1);
    }
  }

  /** A rule's turn: its incident stays, closes, or is the next of the run, just minted. */
  ghost predicate IncidentTurn(before: Breach, minted: nat, after: Breach, minted': nat) {
    && (minted' == minted || minted' == minted + 1)
    && (minted' == minted + 1 <==> after.Active? && !before.Active?)
    && (after.Active? ==> after.incident == if before.Active? then before.incident else Incident(minted', after.incident.activatedAt))
    && (minted' == minted + 1 ==> after.Active? && after.incident.sequence == minted')
  }

  lemma StepTakesTurn(rule: Rule, view: RuleView, reading: Reading<Observation>, now: nat, minted: nat)
    ensures var o := StepRule(rule, view, reading, now, minted);
      && IncidentTurn(view.breach, minted, o.view.breach, o.minted)
      && (o.report.Some? <==> o.view.breach.Active?)
      && (o.report.Some? ==> Some(o.report.value.alert) == AlertOf(o.view.breach, rule))
  {
  }

  /** The manager once rule `n`'s turn has left it in `next`. */
  function AfterTurn(k: ManagerView, n: nat, next: RuleView, minted': nat): ManagerView
    requires n < |k.rules|
  {
    var active := match AlertOf(next.breach, k.rules[n]) case Some(alert) => k.active + [alert] case None => k.active;
    ManagerView(k.rules, active, k.states[n := next], minted')
  }

  lemma TurnHolders(k: ManagerView, n: nat, next: RuleView, minted': nat)
    requires n < |k.rules|
    ensures forall i: nat, inc :: i != n ==> (Holds(AfterTurn(k, n, next, minted'), i, inc) <==> Holds(k, i, inc))
    ensures forall inc :: Holds(AfterTurn(k, n, next, minted'), n, inc) <==> next.breach.Active? && next.breach.incident == inc
    ensures forall inc :: Holds(k, n, inc) <==> StateOf(k.states, n).breach.Active? && StateOf(k.states, n).breach.incident == inc
  {
  }

  /** Every number minted by the turn or before it is still open. */
  lemma TurnKeepsMintedOpen(m: ManagerView, k: ManagerView, n: nat, next: RuleView, minted': nat, s: nat)
    requires Sound(m) && k.rules == m.rules && n < |m.rules| && Folded(m, k, n)
    requires IncidentTurn(StateOf(k.states, n).breach, k.minted, next.breach, minted')
    requires m.minted < s <= minted'
    ensures Open(AfterTurn(k, n, next, minted'), s)
  {
    var k' := AfterTurn(k, n, next, minted');
    TurnHolders(k, n, next, minted');
    if s <= k.minted {
      assert Open(k, s);
      var i: nat, inc :| Holds(k, i, inc) && inc.sequence == s;
      assert i != n by { assert !Holds(m, i, inc); }
      assert Holds(k', i, inc);
    } else {
      assert Holds(k', n, next.breach.incident);
    }
  }

  lemma TurnKeepsNumbersApart(m: ManagerView, k: ManagerView, n: nat, next: RuleView, minted': nat)
    requires Sound(m) && k.rules == m.rules && n < |m.rules| && Folded(m, k, n)
    requires IncidentTurn(StateOf(k.states, n).breach, k.minted, next.breach, minted')
    ensures var k' := AfterTurn(k, n, next, minted');
      && (forall i: nat, inc :: Holds(k', i, inc) ==> Holds(m, i, inc) || (i < n + 1 && m.minted < inc.sequence <= minted'))
      && (forall i: nat, inc, j: nat, inc' :: Holds(k', i, inc) && Holds(k', j, inc') && inc.sequence == inc'.sequence ==> i == j)
  {
    var k' := AfterTurn(k, n, next, minted');
    TurnHolders(k, n, next, minted');
    forall i: nat, inc | Holds(k', i, inc) ensures i != n ==> Holds(k, i, inc) && inc.sequence <= k.minted {}
    forall inc | Holds(k', n, inc) ensures Holds(k, n, inc) || inc.sequence == k.minted + 1 {}
  }

  lemma FoldedStep(m: ManagerView, n: nat, readings: Readings, now: nat)
    requires Sound(m) && n < |m.rules|
    requires Folded(m, Midway(m, n, readings, now), n)
    ensures Folded(m, Midway(m, n + 1, readings, now), n + 1)
  {
    var k, k' := Midway(m, n, readings, now), Midway(m, n + 1, readings, now);
    var rule := m.rules[n];
    ListedCongruence(m.rules, k.states, k'.states, n);
    if rule.enabled {
      var view := StateOf(k.states, n);
      var o := StepRule(rule, view, Observe(readings, rule), now, k.minted);
      StepTakesTurn(rule, view, Observe(readings, rule), now, k.minted);
      assert k' == AfterTurn(k, n, o.view, o.minted);
      TurnKeepsNumbersApart(m, k, n, o.view, o.minted);
      forall s: nat | m.minted < s <= k'.minted ensures Open(k', s) {
        TurnKeepsMintedOpen(m, k, n, o.view, o.minted, s);
      }
    }
  }

  lemma {:induction false} FoldedTo(m: ManagerView, n: nat, readings: Readings, now: nat)
    requires Sound(m) && n <= |m.rules|
    ensures Folded(m, Midway(m, n, readings, now), n)
  {
    if n == 0 {
      assert forall i: nat, inc :: Holds(Midway(m, 0, readings, now), i, inc) <==> Holds(m, i, inc);
    } else {
      FoldedTo(m, n - 1, readings, now);
      FoldedStep(m, n - 1, readings, now);
    }
  }

  lemma EvaluateKeepsSound(m: ManagerView, readings: Readings, now: nat)
    requires Sound(m)
    ensures Sound(EvaluateView(m, readings, now))
    ensures Folded(m, EvaluateView(m, readings, now), |m.rules|)
  {
    FoldedTo(m, |m.rules|, readings, now);
  }
}
