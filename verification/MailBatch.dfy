/**
 The batch between two mail reports (src/mail/batch.rs) and when one is due (src/mail/client.rs):
 which samples are kept, which incidents are new, and what the next report carries.
 */
module MailBatch {
  import opened Basics
  import opened Alerts
  import opened AlertRuns

  const MAX_SAMPLES := 60
  const MAX_ALERTS := 64
  const INCIDENT_SPACING := 60 * SECOND

  datatype Report<S> = Report(seqNo: nat, samples: seq<S>, alerts: seq<ActiveAlert>)

  datatype BatchView<S> = BatchView(
    nextSeq: nat,
    lastKept: Option<nat>,
    samples: seq<S>,
    alerts: seq<ActiveAlert>,
    active: seq<nat>)

  function NewBatch<S>(): BatchView<S> {
    BatchView(1, None, [], [], [])
  }

  /** Whether a time `spacing` long has passed since `last`. */
  predicate Spaced(last: Option<nat>, now: nat, spacing: nat) {
    last.None? || SatSub(now, last.value) >= spacing
  }

  /** `x` after `s`, the oldest leaving when there are `cap` already. */
  function Bounded<T>(s: seq<T>, x: T, cap: nat): seq<T> {
    if |s| == cap && s != [] then s[1..] + [x] else s + [x]
  }

  function OfferView<S>(v: BatchView<S>, interval: nat, sample: S, now: nat): BatchView<S> {
    if Spaced(v.lastKept, now, interval)
    then v.(samples := Bounded(v.samples, sample, MAX_SAMPLES), lastKept := Some(now))
    else v
  }

  function NoteOne(noted: seq<ActiveAlert>, alert: ActiveAlert): seq<ActiveAlert> {
    if alert.id in Ids(noted) then noted else Bounded(noted, alert, MAX_ALERTS)
  }

  function NoteAll(noted: seq<ActiveAlert>, alerts: seq<ActiveAlert>): seq<ActiveAlert> {
    if alerts == [] then noted else NoteOne(NoteAll(noted, alerts[..|alerts| - 1]), alerts[|alerts| - 1])
  }

  function NoteView<S>(v: BatchView<S>, alerts: seq<ActiveAlert>): BatchView<S> {
    v.(alerts := NoteAll(v.alerts, alerts), active := Ids(alerts))
  }

  function CloseView<S>(v: BatchView<S>): BatchView<S> {
    if v.samples == [] then v else v.(nextSeq := v.nextSeq + 1, samples := [], alerts := [])
  }

  function ReportOf<S>(v: BatchView<S>): Option<Report<S>> {
    if v.samples == [] then None else Some(Report(v.nextSeq, v.samples, v.alerts))
  }

  /** `id` is active on this note and was not on the one before. */
  predicate IsNew<S>(v: BatchView<S>, alerts: seq<ActiveAlert>, id: nat) {
    id in Ids(alerts) && id !in v.active
  }

  class MailBatch<S> {
    const sampleInterval: nat
    var nextSeq: nat
    var lastKept: Option<nat>
    var samples: seq<S>
    var alerts: seq<ActiveAlert>
    var active: seq<nat>

    function View(): BatchView<S>
      reads this
    {
      BatchView(nextSeq, lastKept, samples, alerts, active)
    }

    constructor (sampleInterval: nat)
      ensures View() == NewBatch() && this.sampleInterval == sampleInterval
    {
      this.sampleInterval := sampleInterval;
      nextSeq, lastKept, samples, alerts, active := 1, None, [], [], [];
    }

    method Offer(sample: S, now: nat) returns (kept: bool)
      modifies this
      ensures kept == Spaced(old(lastKept), now, sampleInterval)
      ensures View() == OfferView(old(View()), sampleInterval, sample, now)
    {
      kept := lastKept.None? || SatSub(now, lastKept.value) >= sampleInterval;
      if !kept {
        return;
      }
      if |samples| == MAX_SAMPLES {
        samples := samples[1..];
      }
      samples := samples + [sample];
      lastKept := Some(now);
    }

    method NoteAlerts(current: seq<ActiveAlert>) returns (anyNew: bool)
      modifies this
      ensures anyNew <==> exists id :: IsNew(old(View()), current, id)
      ensures View() == NoteView(old(View()), current)
    {
      anyNew := false;
      var ids := [];
      for k := 0 to |current|
        invariant ids == Ids(current)[..k]
        invariant anyNew <==> exists id :: id in ids && id !in active
      {
        anyNew := anyNew || current[k].id !in active;
        ids := ids + [current[k].id];
      }
      assert forall id :: IsNew(View(), current, id) <==> id in ids && id !in active;
      active := ids;
      for k := 0 to |current|
        invariant alerts == NoteAll(old(alerts), current[..k])
        invariant active == ids && unchanged(`nextSeq, `lastKept, `samples)
      {
        assert current[..k + 1][..k] == current[..k];
        if current[k].id !in Ids(alerts) {
          if |alerts| == MAX_ALERTS {
            alerts := alerts[1..];
          }
          alerts := alerts + [current[k]];
        }
      }
      assert current[..|current|] == current;
    }

    method Close() returns (report: Option<Report<S>>)
      modifies this
      ensures report == ReportOf(old(View()))
      ensures View() == CloseView(old(View()))
    {
      if samples == [] {
        return None;
      }
      report := Some(Report(nextSeq, samples, alerts));
      nextSeq := nextSeq + 1;
      samples, alerts := [], [];
    }
  }

  // ----- every run -----

  datatype Event<S> = Offer(sample: S, now: nat) | Note(alerts: seq<ActiveAlert>) | Close

  function Apply<S>(v: BatchView<S>, interval: nat, e: Event<S>): BatchView<S> {
    match e
    case Offer(sample, now) => OfferView(v, interval, sample, now)
    case Note(alerts) => NoteView(v, alerts)
    case Close => CloseView(v)
  }

  function After<S>(interval: nat, h: seq<Event<S>>, n: nat): BatchView<S>
    requires n <= |h|
  {
    if n == 0 then NewBatch() else Apply(After(interval, h, n - 1), interval, h[n - 1])
  }

  /** Event `n` kept its sample. */
  predicate KeptAt<S>(interval: nat, h: seq<Event<S>>, n: nat) {
    n < |h| && h[n].Offer? && Spaced(After(interval, h, n).lastKept, h[n].now, interval)
  }

  // ----- samples -----

  /** Every sample kept since the last report, however many. */
  function KeptSince<S>(interval: nat, h: seq<Event<S>>, n: nat): seq<S>
    requires n <= |h|
  {
    if n == 0 || h[n - 1].Close? then []
    else if KeptAt(interval, h, n - 1) then KeptSince(interval, h, n - 1) + [h[n - 1].sample]
    else KeptSince(interval, h, n - 1)
  }

  /** Event `n` closes the batch with a sample kept since the last close: a report is due. */
  predicate ReportsAt<S>(interval: nat, h: seq<Event<S>>, n: nat) {
    n < |h| && h[n].Close? && KeptSince(interval, h, n) != []
  }

  function Latest<T>(s: seq<T>, cap: nat): seq<T> {
    if |s| <= cap then s else s[|s| - cap..]
  }

  /** The batch holds the latest 60 of the samples kept since the last report, in order. */
  lemma {:induction false} BatchHoldsTheLatest<S>(interval: nat, h: seq<Event<S>>, n: nat)
    requires n <= |h|
    ensures After(interval, h, n).samples == Latest(KeptSince(interval, h, n), MAX_SAMPLES)
  {
    if n > 0 {
      BatchHoldsTheLatest(interval, h, n - 1);
    }
  }

  /** Offers come at instants that never step back. */
  ghost predicate OffersInOrder<S>(h: seq<Event<S>>) {
    forall i, j :: 0 <= i <= j < |h| && h[i].Offer? && h[j].Offer? ==> h[i].now <= h[j].now
  }

  lemma {:induction false} LastKeptIsLatest<S>(interval: nat, h: seq<Event<S>>, n: nat, i: nat)
    requires i < n <= |h| && OffersInOrder(h) && KeptAt(interval, h, i)
    ensures After(interval, h, n).lastKept.Some? && h[i].now <= After(interval, h, n).lastKept.value
  {
    if i < n - 1 {
      LastKeptIsLatest(interval, h, n - 1, i);
    }
  }

  /** Any two kept samples are at least a sample interval apart, across reports too. */
  lemma KeptSamplesApart<S>(interval: nat, h: seq<Event<S>>, i: nat, j: nat)
    requires i < j && OffersInOrder(h) && KeptAt(interval, h, i) && KeptAt(interval, h, j)
    ensures h[i].now + interval <= h[j].now
  {
    LastKeptIsLatest(interval, h, j, i);
    assert h[i].now <= h[j].now;
  }

  /** Event `i` is the last before `n` that kept a sample. */
  predicate LastKeptAt<S>(interval: nat, h: seq<Event<S>>, n: nat, i: nat) {
    i < n <= |h| && KeptAt(interval, h, i) && After(interval, h, n).lastKept == Some(h[i].now)
  }

  lemma {:induction false} LastKeptFound<S>(interval: nat, h: seq<Event<S>>, n: nat) returns (i: nat)
    requires n <= |h| && After(interval, h, n).lastKept.Some?
    ensures LastKeptAt(interval, h, n, i)
  {
    if KeptAt(interval, h, n - 1) {
      i := n - 1;
    } else {
      i := LastKeptFound(interval, h, n - 1);
    }
  }

  /** And no offer is turned away for longer: one that is comes within an interval of a kept one. */
  lemma SkippedOnlyWithinInterval<S>(interval: nat, h: seq<Event<S>>, n: nat) returns (i: nat)
    requires n < |h| && h[n].Offer? && !KeptAt(interval, h, n)
    ensures i < n && KeptAt(interval, h, i) && SatSub(h[n].now, h[i].now) < interval
  {
    i := LastKeptFound(interval, h, n);
  }

  function DivCeil(a: nat, b: nat): nat
    requires b > 0
  {
    (a + b - 1) / b
  }

  /** `SampleInterval::new`, in seconds. */
  predicate IntervalFits(secs: nat, mailSecs: nat) {
    10 <= secs <= mailSecs && DivCeil(mailSecs, secs) <= MAX_SAMPLES
  }

  lemma IntervalFitsIff(secs: nat, mailSecs: nat)
    ensures IntervalFits(secs, mailSecs) <==> 10 <= secs <= mailSecs <= MAX_SAMPLES * secs
  {
    if 10 <= secs {
      var q := DivCeil(mailSecs, secs);
      assert q * secs <= mailSecs + secs - 1 < q * secs + secs;
      if q <= MAX_SAMPLES {
        assert q * secs <= MAX_SAMPLES * secs;
      } else {
        assert MAX_SAMPLES * secs + secs <= q * secs;
      }
    }
  }

  /** Which of the events from `a` to `b` kept a sample. */
  ghost function KeptBetween<S>(interval: nat, h: seq<Event<S>>, a: nat, b: nat): seq<nat>
    requires a <= b <= |h|
    decreases b - a
  {
    if a == b then []
    else if KeptAt(interval, h, b - 1) then KeptBetween(interval, h, a, b - 1) + [b - 1]
    else KeptBetween(interval, h, a, b - 1)
  }

  lemma {:induction false} KeptBetweenAreKept<S>(interval: nat, h: seq<Event<S>>, a: nat, b: nat)
    requires a <= b <= |h|
    ensures forall k :: k in KeptBetween(interval, h, a, b) ==> a <= k < b && KeptAt(interval, h, k)
    decreases b - a
  {
    if a < b {
      KeptBetweenAreKept(interval, h, a, b - 1);
    }
  }

  lemma OneStepMore(first: nat, m: nat, step: nat, last: nat, next: nat)
    requires first + m * step <= last && last + step <= next
    ensures first + (m + 1) * step <= next
  {
  }

  lemma {:induction false} KeptBetweenSpread<S>(interval: nat, h: seq<Event<S>>, a: nat, b: nat)
    requires a <= b <= |h| && OffersInOrder(h) && KeptBetween(interval, h, a, b) != []
    ensures var kept := KeptBetween(interval, h, a, b);
      && a <= kept[0] < b && a <= kept[|kept| - 1] < b
      && KeptAt(interval, h, kept[0]) && KeptAt(interval, h, kept[|kept| - 1])
      && h[kept[0]].now + (|kept| - 1) * interval <= h[kept[|kept| - 1]].now
    decreases b - a
  {
    KeptBetweenAreKept(interval, h, a, b);
    var before := KeptBetween(interval, h, a, b - 1);
    if !KeptAt(interval, h, b - 1) {
      KeptBetweenSpread(interval, h, a, b - 1);
    } else if before != [] {
      KeptBetweenSpread(interval, h, a, b - 1);
      var last := before[|before| - 1];
      KeptSamplesApart(interval, h, last, b - 1);
      OneStepMore(h[before[0]].now, |before| - 1, interval, h[last].now, h[b - 1].now);
    }
  }

  /** A fitting sample interval keeps at most 60 samples in any half-open span no longer than the
      mail interval. */
  lemma SpanKeepsAtMost60<S>(secs: nat, mailSecs: nat, h: seq<Event<S>>, a: nat, b: nat, from: nat)
    requires IntervalFits(secs, mailSecs) && a <= b <= |h| && OffersInOrder(h)
    requires forall k :: a <= k < b && h[k].Offer? ==> from <= h[k].now < from + mailSecs * SECOND
    ensures |KeptBetween(secs * SECOND, h, a, b)| <= MAX_SAMPLES
  {
    var interval := secs * SECOND;
    var kept := KeptBetween(interval, h, a, b);
    IntervalFitsIff(secs, mailSecs);
    if kept != [] {
      KeptBetweenSpread(interval, h, a, b);
      assert mailSecs * SECOND <= MAX_SAMPLES * interval;
      FewerSteps(|kept| - 1, MAX_SAMPLES, interval);
    }
  }

  lemma FewerSteps(m: nat, n: nat, step: nat)
    requires m * step < n * step
    ensures m < n
  {
    assert m >= n ==> (m - n) * step >= 0;
  }

  /** Event `a` is the first after the last close before event `n`. */
  ghost predicate SinceClose<S>(h: seq<Event<S>>, a: nat, n: nat) {
    && a <= n <= |h| && (a == 0 || h[a - 1].Close?)
    && forall k :: a <= k < n ==> !h[k].Close?
  }

  lemma {:induction false} KeptSinceTheClose<S>(interval: nat, h: seq<Event<S>>, a: nat, n: nat)
    requires SinceClose(h, a, n)
    ensures |KeptSince(interval, h, n)| == |KeptBetween(interval, h, a, n)|
    decreases n - a
  {
    if a < n {
      KeptSinceTheClose(interval, h, a, n - 1);
    }
  }

  /** So a batch whose offers span no more than the mail interval has lost no sample kept. */
  lemma SpanLosesNone<S>(secs: nat, mailSecs: nat, h: seq<Event<S>>, a: nat, n: nat, from: nat)
    requires IntervalFits(secs, mailSecs) && SinceClose(h, a, n) && OffersInOrder(h)
    requires forall k :: a <= k < n && h[k].Offer? ==> from <= h[k].now < from + mailSecs * SECOND
    ensures After(secs * SECOND, h, n).samples == KeptSince(secs * SECOND, h, n)
  {
    SpanKeepsAtMost60(secs, mailSecs, h, a, n, from);
    KeptSinceTheClose(secs * SECOND, h, a, n);
    BatchHoldsTheLatest(secs * SECOND, h, n);
  }

  // ----- reports -----

  /** Every report the first `n` events closed. */
  function ReportsIn<S>(interval: nat, h: seq<Event<S>>, n: nat): seq<Report<S>>
    requires n <= |h|
  {
    if n == 0 then []
    else if !h[n - 1].Close? then ReportsIn(interval, h, n - 1)
    else
      match ReportOf(After(interval, h, n - 1))
      case Some(report) => ReportsIn(interval, h, n - 1) + [report]
      case None => ReportsIn(interval, h, n - 1)
  }

  /** Reports are numbered 1, 2, 3, … and every one carries a sample. */
  lemma {:induction false} ReportsAreNumbered<S>(interval: nat, h: seq<Event<S>>, n: nat)
    requires n <= |h|
    ensures var reports := ReportsIn(interval, h, n);
      && After(interval, h, n).nextSeq == |reports| + 1
      && forall k :: 0 <= k < |reports| ==> reports[k].seqNo == k + 1 && reports[k].samples != []
  {
    if n > 0 {
      ReportsAreNumbered(interval, h, n - 1);
    }
  }

  // ----- alerts -----

  /** Event `k` noted `id` as active, and no report has closed since. */
  ghost predicate NotedSince<S>(interval: nat, h: seq<Event<S>>, n: nat, k: nat, id: nat) {
    && k < n <= |h| && h[k].Note? && id in Ids(h[k].alerts)
    && forall c: nat :: k < c < n ==> !ReportsAt(interval, h, c)
  }

  ghost predicate ActiveSince<S>(interval: nat, h: seq<Event<S>>, n: nat, id: nat) {
    exists k: nat :: NotedSince(interval, h, n, k, id)
  }

  /** The alerts of `alerts` whose ids `seen` does not have, added to it in order, with no cap. */
  function SeeAll(seen: seq<ActiveAlert>, alerts: seq<ActiveAlert>): seq<ActiveAlert> {
    if alerts == [] then seen
    else
      var before := SeeAll(seen, alerts[..|alerts| - 1]);
      var alert := alerts[|alerts| - 1];
      if alert.id in Ids(before) then before else before + [alert]
  }

  /** Every incident active since the last report, in first-seen order and as first seen, with no cap. */
  function FirstSeen<S>(interval: nat, h: seq<Event<S>>, n: nat): seq<ActiveAlert>
    requires n <= |h|
  {
    if n == 0 || ReportsAt(interval, h, n - 1) then []
    else if h[n - 1].Note? then SeeAll(FirstSeen(interval, h, n - 1), h[n - 1].alerts)
    else FirstSeen(interval, h, n - 1)
  }

  lemma IdsOfMore(alerts: seq<ActiveAlert>, alert: ActiveAlert)
    ensures Ids(alerts + [alert]) == Ids(alerts) + [alert.id]
  {
  }

  lemma {:induction false} SeeAllAdds(seen: seq<ActiveAlert>, alerts: seq<ActiveAlert>)
    requires Distinct(Ids(seen))
    ensures var all := SeeAll(seen, alerts);
      && seen <= all && Distinct(Ids(all))
      && forall id :: id in Ids(all) <==> id in Ids(seen) || id in Ids(alerts)
  {
    if alerts != [] {
      var init, last := alerts[..|alerts| - 1], alerts[|alerts| - 1];
      SeeAllAdds(seen, init);
      assert alerts == init + [last];
      IdsOfMore(init, last);
      IdsOfMore(SeeAll(seen, init), last);
    }
  }

  /** First-seen order is of the ids active since the last report, each once. */
  lemma {:induction false} FirstSeenIsActiveSince<S>(interval: nat, h: seq<Event<S>>, n: nat)
    requires n <= |h|
    ensures Distinct(Ids(FirstSeen(interval, h, n)))
    ensures forall id :: id in Ids(FirstSeen(interval, h, n)) <==> ActiveSince(interval, h, n, id)
  {
    if n > 0 {
      FirstSeenIsActiveSince(interval, h, n - 1);
      if h[n - 1].Note? {
        SeeAllAdds(FirstSeen(interval, h, n - 1), h[n - 1].alerts);
      }
      forall id ensures ActiveSince(interval, h, n, id) <==>
        !ReportsAt(interval, h, n - 1) && (ActiveSince(interval, h, n - 1, id) || (h[n - 1].Note? && id in Ids(h[n - 1].alerts)))
      {
        ActiveSinceStep(interval, h, n - 1, id);
      }
    }
  }

  lemma ActiveSinceStep<S>(interval: nat, h: seq<Event<S>>, n: nat, id: nat)
    requires n < |h|
    ensures ActiveSince(interval, h, n + 1, id) <==>
      !ReportsAt(interval, h, n) && (ActiveSince(interval, h, n, id) || (h[n].Note? && id in Ids(h[n].alerts)))
  {
    if ActiveSince(interval, h, n + 1, id) {
      var k: nat :| NotedSince(interval, h, n + 1, k, id);
      if k < n {
        assert !ReportsAt(interval, h, n);
        assert NotedSince(interval, h, n, k, id);
      }
    } else if !ReportsAt(interval, h, n) && ActiveSince(interval, h, n, id) {
      var k: nat :| NotedSince(interval, h, n, k, id);
      assert NotedSince(interval, h, n + 1, k, id);
    } else if h[n].Note? && id in Ids(h[n].alerts) {
      assert NotedSince(interval, h, n + 1, n, id);
    }
  }

  lemma {:induction false} NoteAllBelowCap(noted: seq<ActiveAlert>, seen: seq<ActiveAlert>, alerts: seq<ActiveAlert>)
    requires |noted| <= MAX_ALERTS && Distinct(Ids(seen))
    requires |seen| <= MAX_ALERTS ==> noted == seen
    ensures |NoteAll(noted, alerts)| <= MAX_ALERTS
    ensures |SeeAll(seen, alerts)| <= MAX_ALERTS ==> NoteAll(noted, alerts) == SeeAll(seen, alerts)
  {
    if alerts != [] {
      var init := alerts[..|alerts| - 1];
      NoteAllBelowCap(noted, seen, init);
      SeeAllAdds(seen, init);
    }
  }

  /** Up to 64 distinct incidents, the noted alerts are exactly those active since the last report, in
      first-seen order, each as it was first seen. */
  lemma {:induction false} NotedBelowCap<S>(interval: nat, h: seq<Event<S>>, n: nat)
    requires n <= |h|
    ensures |After(interval, h, n).alerts| <= MAX_ALERTS
    ensures |FirstSeen(interval, h, n)| <= MAX_ALERTS ==> After(interval, h, n).alerts == FirstSeen(interval, h, n)
  {
    if n > 0 {
      NotedBelowCap(interval, h, n - 1);
      FirstSeenIsActiveSince(interval, h, n - 1);
      BatchHoldsTheLatest(interval, h, n - 1);
      if h[n - 1].Note? {
        NoteAllBelowCap(After(interval, h, n - 1).alerts, FirstSeen(interval, h, n - 1), h[n - 1].alerts);
      }
    }
  }

  function ToSet(ids: seq<nat>): set<nat> {
    set id | id in ids
  }

  lemma {:induction false} DistinctCardinality(ids: seq<nat>)
    ensures |ToSet(ids)| <= |ids|
    ensures Distinct(ids) ==> |ToSet(ids)| == |ids|
  {
    if ids != [] {
      var init, last := ids[..|ids| - 1], ids[|ids| - 1];
      DistinctCardinality(init);
      assert ids == init + [last];
      assert ToSet(ids) == ToSet(init) + {last};
    }
  }

  /**
   Exactly when the next report misses no incident: when at most 64 distinct ones were active
   since the last report.
   */
  lemma ReportMissesNoneIff<S>(interval: nat, h: seq<Event<S>>, n: nat)
    requires n <= |h|
    ensures |FirstSeen(interval, h, n)| <= MAX_ALERTS <==>
            forall id :: ActiveSince(interval, h, n, id) ==> id in Ids(After(interval, h, n).alerts)
  {
    NotedBelowCap(interval, h, n);
    FirstSeenIsActiveSince(interval, h, n);
    var seen, noted := Ids(FirstSeen(interval, h, n)), Ids(After(interval, h, n).alerts);
    if forall id :: ActiveSince(interval, h, n, id) ==> id in noted {
      DistinctCardinality(seen);
      DistinctCardinality(noted);
      SubsetCardinality(ToSet(seen), ToSet(noted));
    }
  }

  lemma {:induction false} SubsetCardinality(a: set<nat>, b: set<nat>)
    requires a <= b
    ensures |a| <= |b|
  {
    if a != {} {
      var x :| x in a;
      SubsetCardinality(a - {x}, b - {x});
    }
  }

  lemma {:induction false} NotingKeepsDistinct(noted: seq<ActiveAlert>, alerts: seq<ActiveAlert>)
    requires Distinct(Ids(noted))
    ensures Distinct(Ids(NoteAll(noted, alerts)))
  {
    if alerts != [] {
      var before, alert := NoteAll(noted, alerts[..|alerts| - 1]), alerts[|alerts| - 1];
      NotingKeepsDistinct(noted, alerts[..|alerts| - 1]);
      if alert.id !in Ids(before) && |before| == MAX_ALERTS {
        assert Ids(before[1..] + [alert]) == Ids(before)[1..] + [alert.id];
      } else if alert.id !in Ids(before) {
        assert Ids(before + [alert]) == Ids(before) + [alert.id];
      }
    }
  }

  /** At any number of incidents, a report lists none of them twice. */
  lemma {:induction false} NotedOnceEach<S>(interval: nat, h: seq<Event<S>>, n: nat)
    requires n <= |h|
    ensures Distinct(Ids(After(interval, h, n).alerts))
  {
    if n > 0 {
      NotedOnceEach(interval, h, n - 1);
      if h[n - 1].Note? {
        NotingKeepsDistinct(After(interval, h, n - 1).alerts, h[n - 1].alerts);
      }
    }
  }

  lemma {:induction false} NotingFirst(alerts: seq<ActiveAlert>)
    requires |alerts| <= MAX_ALERTS && Distinct(Ids(alerts))
    ensures NoteAll([], alerts) == alerts
  {
    if alerts != [] {
      var init, alert := alerts[..|alerts| - 1], alerts[|alerts| - 1];
      assert Ids(init) == Ids(alerts)[..|alerts| - 1];
      NotingFirst(init);
      assert alert.id == Ids(alerts)[|alerts| - 1] && alert.id !in Ids(init);
    }
  }

  lemma NotingOne(noted: seq<ActiveAlert>, a: ActiveAlert)
    ensures NoteAll(noted, [a]) == NoteOne(noted, a)
  {
    assert [a][..0] == [];
  }

  lemma NotingTwo(noted: seq<ActiveAlert>, a: ActiveAlert, b: ActiveAlert)
    ensures NoteAll(noted, [a, b]) == NoteOne(NoteOne(noted, a), b)
  {
    assert [a, b][..1] == [a];
    NotingOne(noted, a);
  }

  /** A new alert beside 64 noted ones puts the oldest out. */
  lemma OldestPutOut(noted: seq<ActiveAlert>, b: ActiveAlert)
    requires |noted| == MAX_ALERTS && Distinct(Ids(noted)) && b.id !in Ids(noted)
    ensures NoteOne(noted, b) == noted[1..] + [b] && noted[0].id !in Ids(noted[1..] + [b])
  {
    assert Ids(noted)[0] == noted[0].id;
    assert Ids(noted[1..] + [b]) == Ids(noted)[1..] + [b.id];
  }

  /** Past 64 an incident still active can leave the noted alerts: whichever 64 came first, one more
      beside the oldest of them puts that one out, and noting it again puts it last. */
  lemma ActiveIncidentCanLeave<S>(interval: nat, first: seq<ActiveAlert>, b: ActiveAlert)
    requires |first| == MAX_ALERTS && Distinct(Ids(first)) && b.id !in Ids(first)
    ensures var h: seq<Event<S>> := [Note(first), Note([first[0], b]), Note([first[0]])];
      && first[0].id in After(interval, h, 2).active && first[0].id !in Ids(After(interval, h, 2).alerts)
      && After(interval, h, 3).alerts == first[2..] + [b, first[0]]
  {
    var h: seq<Event<S>> := [Note(first), Note([first[0], b]), Note([first[0]])];
    var left := first[1..] + [b];
    NotingFirst(first);
    assert After(interval, h, 1).alerts == first && Ids(first)[0] == first[0].id;
    NotingTwo(first, first[0], b);
    OldestPutOut(first, b);
    assert After(interval, h, 2).alerts == left && Ids([first[0], b])[0] == first[0].id;
    NotingOne(left, first[0]);
    assert left[1..] == first[2..] + [b];
  }

  /**
   What a report carries, by the events since the last: the latest 60 of the samples kept; no
   incident twice; and, when at most 64 distinct incidents were active, exactly those, as first seen.
   A close reports exactly when a sample was kept.
   */
  lemma ReportCarries<S>(interval: nat, h: seq<Event<S>>, n: nat)
    requires n < |h|
    ensures var (before, after) := (ReportsIn(interval, h, n), ReportsIn(interval, h, n + 1));
      if !ReportsAt(interval, h, n) then after == before
      else
        && |after| == |before| + 1 && after[..|before|] == before
        && var report := after[|before|];
        && report.samples == Latest(KeptSince(interval, h, n), MAX_SAMPLES)
        && Distinct(Ids(report.alerts))
        && (|FirstSeen(interval, h, n)| <= MAX_ALERTS ==> report.alerts == FirstSeen(interval, h, n))
        && (|FirstSeen(interval, h, n)| <= MAX_ALERTS <==>
              forall id :: ActiveSince(interval, h, n, id) ==> id in Ids(report.alerts))
  {
    BatchHoldsTheLatest(interval, h, n);
    NotedOnceEach(interval, h, n);
    NotedBelowCap(interval, h, n);
    ReportMissesNoneIff(interval, h, n);
  }

  // ----- new incidents -----

  /** The ids of the last note before event `n`, across reports. */
  function LastNoted<S>(h: seq<Event<S>>, n: nat): seq<nat>
    requires n <= |h|
  {
    if n == 0 then [] else if h[n - 1].Note? then Ids(h[n - 1].alerts) else LastNoted(h, n - 1)
  }

  lemma {:induction false} ActiveIsLastNoted<S>(interval: nat, h: seq<Event<S>>, n: nat)
    requires n <= |h|
    ensures After(interval, h, n).active == LastNoted(h, n)
  {
    if n > 0 {
      ActiveIsLastNoted(interval, h, n - 1);
    }
  }

  /** Event `n` notes `id` and the batch takes it for new: the reason `note_alerts` returns true. */
  predicate NewAt<S>(interval: nat, h: seq<Event<S>>, n: nat, id: nat) {
    n < |h| && h[n].Note? && IsNew(After(interval, h, n), h[n].alerts, id)
  }

  /** An id noted twice is noted every time between: what the alert manager guarantees. */
  ghost predicate Unbroken<S>(h: seq<Event<S>>) {
    forall a: nat, c: nat, b: nat, id ::
      a <= c <= b < |h| && h[a].Note? && h[c].Note? && h[b].Note? && id in Ids(h[a].alerts) && id in Ids(h[b].alerts)
      ==> id in Ids(h[c].alerts)
  }

  lemma {:induction false} LastNotedFound<S>(h: seq<Event<S>>, n: nat, k: nat) returns (l: nat)
    requires k < n <= |h| && h[k].Note?
    ensures k <= l < n && h[l].Note? && LastNoted(h, n) == Ids(h[l].alerts)
  {
    if h[n - 1].Note? {
      l := n - 1;
    } else {
      l := LastNotedFound(h, n - 1, k);
    }
  }

  /** An incident is new at most once in the agent's life, across every report. */
  lemma NewAtMostOnce<S>(interval: nat, h: seq<Event<S>>, m: nat, n: nat, id: nat)
    requires Unbroken(h) && m < n && NewAt(interval, h, m, id)
    ensures !NewAt(interval, h, n, id)
  {
    if n < |h| && h[n].Note? && id in Ids(h[n].alerts) {
      var l := LastNotedFound(h, n, m);
      assert id in Ids(h[l].alerts);
      ActiveIsLastNoted(interval, h, n);
    }
  }

  /** And every incident noted is new once. */
  lemma {:induction false} NewOnce<S>(interval: nat, h: seq<Event<S>>, k: nat, id: nat) returns (n: nat)
    requires k < |h| && h[k].Note? && id in Ids(h[k].alerts)
    ensures n <= k && NewAt(interval, h, n, id)
    decreases k
  {
    if NewAt(interval, h, k, id) {
      n := k;
    } else {
      ActiveIsLastNoted(interval, h, k);
      var l := NotedBefore(h, k, id);
      n := NewOnce(interval, h, l, id);
    }
  }

  lemma {:induction false} NotedBefore<S>(h: seq<Event<S>>, k: nat, id: nat) returns (l: nat)
    requires k <= |h| && id in LastNoted(h, k)
    ensures l < k && h[l].Note? && id in Ids(h[l].alerts)
  {
    if h[k - 1].Note? {
      l := k - 1;
    } else {
      l := NotedBefore(h, k - 1, id);
    }
  }

  /** The alerts an alert manager's run lists at the points a client samples it, in order. */
  ghost predicate SampledFrom<S>(h: seq<Event<S>>, rules: seq<Rule>, es: seq<AlertRuns.Event>, at: seq<nat>) {
    && |at| == |h|
    && (forall i :: 0 <= i < |h| ==> at[i] <= |es|)
    && (forall i, j :: 0 <= i <= j < |h| ==> at[i] <= at[j])
    && (forall i :: 0 <= i < |h| && h[i].Note? ==> h[i].alerts == AlertRuns.After(rules, es, at[i]).active)
  }

  lemma SampledIsUnbroken<S>(h: seq<Event<S>>, rules: seq<Rule>, es: seq<AlertRuns.Event>, at: seq<nat>)
    requires SampledFrom(h, rules, es, at)
    ensures Unbroken(h)
  {
    forall a: nat, c: nat, b: nat, id |
      a <= c <= b < |h| && h[a].Note? && h[c].Note? && h[b].Note? && id in Ids(h[a].alerts) && id in Ids(h[b].alerts)
      ensures id in Ids(h[c].alerts)
    {
      ActiveIdsUnbroken(rules, es, at[a], at[c], at[b], id);
    }
  }

  /**
   Sampled from any run of the alert manager, at any points in order, each incident sampled
   is new to the batch on exactly one note, whatever reports close between.
   */
  lemma EachIncidentIsNewExactlyOnce<S>(
    interval: nat, h: seq<Event<S>>, rules: seq<Rule>, es: seq<AlertRuns.Event>, at: seq<nat>, k: nat, id: nat) returns (n: nat)
    requires SampledFrom(h, rules, es, at)
    requires k < |h| && h[k].Note? && id in Ids(h[k].alerts)
    ensures NewAt(interval, h, n, id) && forall m: nat :: NewAt(interval, h, m, id) ==> m == n
  {
    SampledIsUnbroken(h, rules, es, at);
    n := NewOnce(interval, h, k, id);
    forall m: nat | NewAt(interval, h, m, id) ensures m == n {
      if m < n { NewAtMostOnce(interval, h, m, n, id); } else if n < m { NewAtMostOnce(interval, h, n, m, id); }
    }
  }
}
