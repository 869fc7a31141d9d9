/**
 A rule's state as a statement about its whole history of ticks, with no running state: which
 ticks are in the current run, the earliest clock reading in it, when an incident activates,
 and when the cooldown lets one notify. The incremental rule of module Alerts is proved to
 compute exactly this, whatever the wall clock does.
 */
module AlertHistory {
  import opened Basics
  import opened Alerts

  /** One tick as a rule sees it: its reading, the wall clock, and the run's incident count. */
  datatype Tick = Tick(reading: Reading<Observation>, now: nat, minted: nat)

  function StateAfter(rule: Rule, h: seq<Tick>): RuleView {
    if h == [] then FRESH
    else
      var t := h[|h| - 1];
      StepRule(rule, StateAfter(rule, h[..|h| - 1]), t.reading, t.now, t.minted).view
  }

  /** What tick `k` of `h` reported. */
  function ReportAt(rule: Rule, h: seq<Tick>, k: nat): Option<Report>
    requires k < |h|
  {
    StepRule(rule, StateAfter(rule, h[..k]), h[k].reading, h[k].now, h[k].minted).report
  }

  // ----- the current run -----

  predicate Breaching(t: Tick) {
    t.reading.Measured? && t.reading.value.breached
  }

  /** A tick that ends any run: a measured clear, or an unavailable reading. */
  predicate Ends(t: Tick) {
    !t.reading.Carried? && !Breaching(t)
  }

  /** Tick `k` breached, and nothing has ended its run since. */
  ghost predicate InRun(h: seq<Tick>, k: int) {
    0 <= k < |h| && Breaching(h[k]) && forall j :: k < j < |h| ==> !Ends(h[j])
  }

  /** At tick `k`, the run had lasted the rule's duration since its least clock reading. */
  ghost predicate Fires(rule: Rule, h: seq<Tick>, k: int) {
    InRun(h, k) && exists j :: InRun(h, j) && j <= k && h[j].now + rule.durationSecs <= h[k].now
  }

  /** Tick `k` is the first of its run that fires: the incident's activation. */
  ghost predicate Activation(rule: Rule, h: seq<Tick>, k: int) {
    Fires(rule, h, k) && forall j :: j < k ==> !Fires(rule, h, j)
  }

  ghost predicate LeastInRun(h: seq<Tick>, now: nat) {
    (exists k :: InRun(h, k) && h[k].now == now) && forall k :: InRun(h, k) ==> now <= h[k].now
  }

  ghost predicate LastInRun(h: seq<Tick>, k: int) {
    InRun(h, k) && forall j :: InRun(h, j) ==> j <= k
  }

  /** What the history says the breach is. */
  ghost predicate Describes(rule: Rule, h: seq<Tick>, breach: Breach) {
    match breach
    case Clear => forall k :: !InRun(h, k)
    case Pending(since) => LeastInRun(h, since) && forall k :: !Fires(rule, h, k)
    case Active(since, incident, value) =>
      && LeastInRun(h, since)
      && (exists k :: Activation(rule, h, k) && incident == Incident(h[k].minted + 1, h[k].now))
      && (exists k :: LastInRun(h, k) && value == h[k].reading.value.value)
  }

  lemma RunAfterTick(h: seq<Tick>, t: Tick, k: int)
    ensures InRun(h + [t], k) <==> !Ends(t) && (InRun(h, k) || (k == |h| && Breaching(t)))
  {
    var g := h + [t];
    if InRun(g, k) && k < |h| {
      assert !Ends(g[|h|]);
      forall j | k < j < |h| ensures !Ends(h[j]) { assert h[j] == g[j]; }
    }
  }

  lemma FiresAfterTick(rule: Rule, h: seq<Tick>, t: Tick, k: int)
    requires !Ends(t) && k < |h|
    ensures Fires(rule, h + [t], k) <==> Fires(rule, h, k)
  {
    RunAfterTick(h, t, k);
    forall j ensures j <= k ==> (InRun(h + [t], j) <==> InRun(h, j)) { RunAfterTick(h, t, j); }
  }

  /** The tick's own place in the run it extends or begins. */
  lemma FiresNow(rule: Rule, h: seq<Tick>, t: Tick, since: nat)
    requires Breaching(t) && LeastInRun(h + [t], since)
    ensures Fires(rule, h + [t], |h|) <==> since + rule.durationSecs <= t.now
  {
    RunAfterTick(h, t, |h|);
    var k :| InRun(h + [t], k) && (h + [t])[k].now == since;
  }

  lemma LeastAfterTick(h: seq<Tick>, t: Tick, breach: Breach)
    requires Breaching(t)
    requires breach.Clear? ==> forall k :: !InRun(h, k)
    requires !breach.Clear? ==> LeastInRun(h, breach.since)
    ensures LeastInRun(h + [t], if breach.Clear? then t.now else Min(breach.since, t.now))
  {
    var g := h + [t];
    forall k ensures InRun(g, k) <==> InRun(h, k) || k == |h| { RunAfterTick(h, t, k); }
    assert InRun(g, |h|) && g[|h|] == t;
    if !breach.Clear? {
      var k :| InRun(h, k) && h[k].now == breach.since;
      assert InRun(g, k) && g[k] == h[k];
    }
  }

  lemma DescribesAfterTick(rule: Rule, h: seq<Tick>, t: Tick, breach: Breach, next: Breach)
    requires Describes(rule, h, breach)
    requires Breaching(t)
    requires next == AdvanceBreach(breach, t.reading.value, rule.durationSecs, t.now, t.minted).breach
    ensures Describes(rule, h + [t], next)
  {
    var g := h + [t];
    forall k ensures InRun(g, k) <==> InRun(h, k) || k == |h| { RunAfterTick(h, t, k); }
    forall k ensures k < |h| ==> (Fires(rule, g, k) <==> Fires(rule, h, k)) {
      if k < |h| { FiresAfterTick(rule, h, t, k); }
    }
    LeastAfterTick(h, t, breach);
    FiresNow(rule, h, t, next.since);
    assert LastInRun(g, |h|) && g[|h|] == t;
    match breach {
      case Clear => assert forall k :: k < |h| ==> !Fires(rule, h, k);
      case Pending(_) =>
      case Active(_, incident, _) =>
        var k :| Activation(rule, h, k) && incident == Incident(h[k].minted + 1, h[k].now);
        assert Activation(rule, g, k) && g[k] == h[k];
    }
    if breach.Clear? || breach.Pending? {
      assert Fires(rule, g, |h|) ==> Activation(rule, g, |h|);
      assert forall k :: |h| < k ==> !Fires(rule, g, k);
    }
  }

  lemma DescribesAfterCarried(rule: Rule, h: seq<Tick>, t: Tick, breach: Breach)
    requires Describes(rule, h, breach)
    requires t.reading.Carried?
    ensures Describes(rule, h + [t], breach)
  {
    var g := h + [t];
    forall k ensures InRun(g, k) <==> InRun(h, k) { RunAfterTick(h, t, k); }
    forall k ensures Fires(rule, g, k) <==> Fires(rule, h, k) {
      if k < |h| { FiresAfterTick(rule, h, t, k); }
    }
    match breach {
      case Clear =>
      case Pending(since) =>
        var k :| InRun(h, k) && h[k].now == since;
        assert InRun(g, k) && g[k] == h[k];
      case Active(since, incident, value) =>
        var k :| InRun(h, k) && h[k].now == since;
        assert InRun(g, k) && g[k] == h[k];
        var a :| Activation(rule, h, a) && incident == Incident(h[a].minted + 1, h[a].now);
        assert Activation(rule, g, a) && g[a] == h[a];
        var l :| LastInRun(h, l) && value == h[l].reading.value.value;
        assert LastInRun(g, l) && g[l] == h[l];
    }
  }

  /** The incremental state is the one the history describes, for every history. */
  lemma {:induction false} StateMatchesHistory(rule: Rule, h: seq<Tick>)
    ensures Describes(rule, h, StateAfter(rule, h).breach)
  {
    if h != [] {
      var p, t := h[..|h| - 1], h[|h| - 1];
      assert h == p + [t];
      StateMatchesHistory(rule, p);
      var view := StateAfter(rule, p);
      if Breaching(t) {
        DescribesAfterTick(rule, p, t, view.breach, StateAfter(rule, h).breach);
      } else if t.reading.Carried? {
        DescribesAfterCarried(rule, p, t, view.breach);
      } else {
        forall k ensures !InRun(h, k) { RunAfterTick(p, t, k); }
      }
    }
  }

  /** The description leaves no choice: it fits one state only. */
  lemma HistoryFixesState(rule: Rule, h: seq<Tick>, one: Breach, other: Breach)
    requires Describes(rule, h, one) && Describes(rule, h, other)
    ensures one == other
  {
    if one.Active? && other.Active? {
      var j :| Activation(rule, h, j) && one.incident == Incident(h[j].minted + 1, h[j].now);
      var k :| Activation(rule, h, k) && other.incident == Incident(h[k].minted + 1, h[k].now);
      assert j == k;
    }
  }

  /** A rule has an incident exactly when some tick of its current run has fired. */
  lemma ActiveIffFired(rule: Rule, h: seq<Tick>)
    ensures StateAfter(rule, h).breach.Active? <==> exists k :: Fires(rule, h, k)
    ensures StateAfter(rule, h).breach.Clear? <==> forall k :: !InRun(h, k)
  {
    StateMatchesHistory(rule, h);
    var breach := StateAfter(rule, h).breach;
    if breach.Active? {
      var k :| Activation(rule, h, k) && breach.incident == Incident(h[k].minted + 1, h[k].now);
      assert Fires(rule, h, k);
    }
  }

  // ----- notifications -----

  predicate NotifiesAt(rule: Rule, h: seq<Tick>, k: int) {
    0 <= k < |h| && ReportAt(rule, h, k).Some? && ReportAt(rule, h, k).value.Notify?
  }

  /** Tick `k` measured the metric and left an incident active. */
  predicate MeasuredActive(rule: Rule, h: seq<Tick>, k: int) {
    0 <= k < |h| && h[k].reading.Measured? && StateAfter(rule, h[..k + 1]).breach.Active?
  }

  /** Tick `i` is the last notification of `h`. */
  ghost predicate LastNotification(rule: Rule, h: seq<Tick>, i: int) {
    NotifiesAt(rule, h, i) && forall j :: i < j < |h| ==> !NotifiesAt(rule, h, j)
  }

  /** `now` is the least clock reading of the measured ticks from `i` on. */
  ghost predicate LeastMeasuredFrom(h: seq<Tick>, i: int, now: nat) {
    && (exists m :: i <= m < |h| && 0 <= m && h[m].reading.Measured? && h[m].now == now)
    && (forall m :: i <= m < |h| && 0 <= m && h[m].reading.Measured? ==> now <= h[m].now)
  }

  ghost predicate DescribesLast(rule: Rule, h: seq<Tick>, last: Option<nat>) {
    match last
    case None => forall i :: !NotifiesAt(rule, h, i)
    case Some(at) => exists i :: LastNotification(rule, h, i) && LeastMeasuredFrom(h, i, at)
  }

  lemma NotifiesInPrefix(rule: Rule, h: seq<Tick>, g: seq<Tick>, k: int)
    requires h <= g && k < |h|
    ensures NotifiesAt(rule, g, k) <==> NotifiesAt(rule, h, k)
  {
    if 0 <= k {
      assert g[..k] == h[..k];
    }
  }

  /** What one tick stores as the last notification. */
  lemma StoredAfterTick(rule: Rule, h: seq<Tick>, t: Tick)
    ensures var (last, next, notifies) :=
        (StateAfter(rule, h).lastNotified, StateAfter(rule, h + [t]).lastNotified, NotifiesAt(rule, h + [t], |h|));
      && (notifies ==> t.reading.Measured? && next == Some(t.now))
      && (!notifies && t.reading.Measured? ==> next == Anchor(last, t.now))
      && (!notifies && !t.reading.Measured? ==> next == last)
  {
    assert (h + [t])[..|h|] == h && (h + [t])[..|h| + 1] == h + [t];
  }

  lemma NotificationStays(rule: Rule, h: seq<Tick>, t: Tick, i: int)
    requires LastNotification(rule, h, i) && !NotifiesAt(rule, h + [t], |h|)
    ensures LastNotification(rule, h + [t], i)
  {
    var g := h + [t];
    forall k | k < |h| ensures NotifiesAt(rule, g, k) <==> NotifiesAt(rule, h, k) {
      NotifiesInPrefix(rule, h, g, k);
    }
  }

  lemma NothingNotified(rule: Rule, h: seq<Tick>, t: Tick)
    requires (forall i :: !NotifiesAt(rule, h, i)) && !NotifiesAt(rule, h + [t], |h|)
    ensures forall i :: !NotifiesAt(rule, h + [t], i)
  {
    var g := h + [t];
    forall k ensures !NotifiesAt(rule, g, k) {
      if k < |h| { NotifiesInPrefix(rule, h, g, k); }
    }
  }

  lemma LeastMeasuredAfterTick(h: seq<Tick>, t: Tick, i: int, at: nat)
    requires LeastMeasuredFrom(h, i, at)
    ensures LeastMeasuredFrom(h + [t], i, if t.reading.Measured? then Min(at, t.now) else at)
  {
    var g := h + [t];
    assert g[|h|] == t;
    var m :| i <= m < |h| && 0 <= m && h[m].reading.Measured? && h[m].now == at;
    assert g[m] == h[m];
  }

  lemma NotificationRestarts(rule: Rule, h: seq<Tick>, t: Tick)
    requires NotifiesAt(rule, h + [t], |h|) && t.reading.Measured?
    ensures LastNotification(rule, h + [t], |h|) && LeastMeasuredFrom(h + [t], |h|, t.now)
  {
    assert (h + [t])[|h|] == t;
  }

  /** What one tick does to the last notification. */
  lemma LastAfterTick(rule: Rule, h: seq<Tick>, t: Tick)
    requires DescribesLast(rule, h, StateAfter(rule, h).lastNotified)
    ensures DescribesLast(rule, h + [t], StateAfter(rule, h + [t]).lastNotified)
  {
    var last := StateAfter(rule, h).lastNotified;
    StoredAfterTick(rule, h, t);
    if NotifiesAt(rule, h + [t], |h|) {
      NotificationRestarts(rule, h, t);
    } else if last.Some? {
      var i :| LastNotification(rule, h, i) && LeastMeasuredFrom(h, i, last.value);
      NotificationStays(rule, h, t, i);
      LeastMeasuredAfterTick(h, t, i, last.value);
    } else {
      NothingNotified(rule, h, t);
    }
  }

  lemma {:induction false} LastMatchesHistory(rule: Rule, h: seq<Tick>)
    ensures DescribesLast(rule, h, StateAfter(rule, h).lastNotified)
  {
    if h != [] {
      assert h == h[..|h| - 1] + [h[|h| - 1]];
      LastMatchesHistory(rule, h[..|h| - 1]);
      LastAfterTick(rule, h[..|h| - 1], h[|h| - 1]);
    }
  }

  /** No notification strictly between ticks `i` and `j`. */
  ghost predicate QuietBetween(rule: Rule, h: seq<Tick>, i: int, j: int) {
    forall k :: i < k < j ==> !NotifiesAt(rule, h, k)
  }

  /** Some measured tick from `i` to `j` read the clock at least a cooldown before tick `j`. */
  ghost predicate CooldownPassed(rule: Rule, h: seq<Tick>, i: int, j: int) {
    0 <= j < |h| && exists m :: 0 <= i <= m <= j && h[m].reading.Measured? && h[m].now + rule.cooldownSecs <= h[j].now
  }

  /** One tick's own decision, on the last notification it inherits. */
  lemma NotifiesByCooldown(rule: Rule, h: seq<Tick>, j: nat)
    requires j < |h|
    ensures NotifiesAt(rule, h, j) <==>
      MeasuredActive(rule, h, j)
      && CooldownOver(Anchor(StateAfter(rule, h[..j]).lastNotified, h[j].now), rule.cooldownSecs, h[j].now)
  {
    assert h[..j + 1][..j] == h[..j];
  }

  /** The last notification a tick inherits, found in the history before it. */
  lemma LastBefore(rule: Rule, h: seq<Tick>, j: nat) returns (i: int)
    requires j < |h|
    ensures StateAfter(rule, h[..j]).lastNotified.None? ==> forall k :: k < j ==> !NotifiesAt(rule, h, k)
    ensures StateAfter(rule, h[..j]).lastNotified.Some? ==>
      && 0 <= i < j && NotifiesAt(rule, h, i) && QuietBetween(rule, h, i, j) && h[i].reading.Measured?
      && LeastMeasuredFrom(h[..j], i, StateAfter(rule, h[..j]).lastNotified.value)
  {
    var p := h[..j];
    LastMatchesHistory(rule, p);
    forall k ensures k < j ==> (NotifiesAt(rule, h, k) <==> NotifiesAt(rule, p, k)) {
      if k < j { NotifiesInPrefix(rule, p, h, k); }
    }
    i := -1;
    if StateAfter(rule, p).lastNotified.Some? {
      i :| LastNotification(rule, p, i) && LeastMeasuredFrom(p, i, StateAfter(rule, p).lastNotified.value);
      NotifiesByCooldown(rule, h, i);
    }
  }

  lemma CooldownOverIff(rule: Rule, h: seq<Tick>, i: nat, j: nat, at: nat)
    requires i < j < |h| && h[j].reading.Measured?
    requires LeastMeasuredFrom(h[..j], i, at)
    ensures CooldownPassed(rule, h, i, j) <==> SatSub(h[j].now, Min(at, h[j].now)) >= rule.cooldownSecs
  {
    var p := h[..j];
    assert forall k :: 0 <= k < j ==> p[k] == h[k];
    var m :| i <= m < |p| && 0 <= m && p[m].reading.Measured? && p[m].now == at;
    if at + rule.cooldownSecs <= h[j].now {
      assert h[m].now + rule.cooldownSecs <= h[j].now;
    } else if rule.cooldownSecs == 0 {
      assert h[j].now + rule.cooldownSecs <= h[j].now;
    }
  }

  /**
   Exactly when a tick notifies: it measured the metric, an incident is active, and either
   nothing was ever notified or the clock has moved a cooldown past its least measured reading
   since the last notification, in whichever incident that was.
   */
  lemma NotifiesIff(rule: Rule, h: seq<Tick>, j: nat)
    requires j < |h|
    ensures NotifiesAt(rule, h, j) <==>
      MeasuredActive(rule, h, j)
      && ((forall i :: i < j ==> !NotifiesAt(rule, h, i))
          || exists i :: i < j && NotifiesAt(rule, h, i) && QuietBetween(rule, h, i, j) && CooldownPassed(rule, h, i, j))
  {
    NotifiesByCooldown(rule, h, j);
    var i := LastBefore(rule, h, j);
    var last := StateAfter(rule, h[..j]).lastNotified;
    if last.Some? && h[j].reading.Measured? {
      CooldownOverIff(rule, h, i, j, last.value);
      assert forall k :: k < j && NotifiesAt(rule, h, k) && QuietBetween(rule, h, k, j) ==> k == i;
    }
  }

  /** On a clock that never steps back, any two notifications are a cooldown apart. */
  lemma NotificationsApart(rule: Rule, h: seq<Tick>, i: nat, j: nat)
    requires ClockNeverSteps(h, (t: Tick) => t.now)
    requires i < j < |h| && NotifiesAt(rule, h, i) && NotifiesAt(rule, h, j)
    ensures h[i].now + rule.cooldownSecs <= h[j].now
  {
    NotifiesIff(rule, h, j);
    var last :| last < j && NotifiesAt(rule, h, last) && QuietBetween(rule, h, last, j) && CooldownPassed(rule, h, last, j);
    assert i <= last;
    var m :| 0 <= last <= m <= j && h[m].reading.Measured? && h[m].now + rule.cooldownSecs <= h[j].now;
  }

  /** And none is withheld longer: a measured active tick that stays quiet is inside the cooldown. */
  lemma QuietOnlyInsideCooldown(rule: Rule, h: seq<Tick>, j: nat)
    requires ClockNeverSteps(h, (t: Tick) => t.now)
    requires MeasuredActive(rule, h, j) && !NotifiesAt(rule, h, j)
    ensures exists i :: 0 <= i < j && NotifiesAt(rule, h, i) && h[j].now < h[i].now + rule.cooldownSecs
  {
    NotifiesByCooldown(rule, h, j);
    var i := LastBefore(rule, h, j);
    CooldownOverIff(rule, h, i, j, StateAfter(rule, h[..j]).lastNotified.value);
    if h[i].now + rule.cooldownSecs <= h[j].now {
      assert CooldownPassed(rule, h, i, j);
    }
  }
}
