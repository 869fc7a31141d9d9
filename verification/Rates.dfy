/**
 An application's rates between scrapes (src/applications/report.rs): counters that may reset,
 requests of the agent's own taken out, and nothing derived from what was not read. Values are
 reals; a non-finite one is absent.
 */
module Rates {
  import opened Basics

  /** One Micrometer meter as a scrape read it. */
  datatype MeterValue<+T> = Published(value: T) | NotPublished | MeterUnavailable

  datatype TimerTotals = TimerTotals(count: Option<real>, totalSeconds: Option<real>)

  datatype Meters = Meters(
    gcPauseSeconds: MeterValue<Option<real>>,
    httpRequests: MeterValue<TimerTotals>,
    httpServerErrors: MeterValue<Option<real>>,
    uptimeSeconds: MeterValue<Option<real>>)

  datatype Scrape = Unreachable | Reached(meters: Meters, ownRequests: nat)

  datatype Counters = Counters(
    requests: Option<real>,
    requestSeconds: Option<real>,
    serverErrors: Option<real>,
    gcPauseSeconds: Option<real>,
    uptimeSeconds: Option<real>)

  datatype Rates = Rates(
    requestsPerSecond: Option<real>,
    serverErrorsPerSecond: Option<real>,
    meanLatencyMs: Option<real>,
    gcPausePercent: Option<real>)

  const NO_RATES := Rates(None, None, None, None)

  function Finite(value: MeterValue<Option<real>>): Option<real> {
    match value
    case Published(v) => v
    case _ => None
  }

  /** A 404 for server errors while requests are published means none has happened yet. */
  function CountersOf(m: Meters): Counters {
    var (requests, requestSeconds) := match m.httpRequests
      case Published(timer) => (timer.count, timer.totalSeconds)
      case _ => (None, None);
    var serverErrors := if m.httpServerErrors.NotPublished? && requests.Some? then Some(0.0) else Finite(m.httpServerErrors);
    Counters(requests, requestSeconds, serverErrors, Finite(m.gcPauseSeconds), Finite(m.uptimeSeconds))
  }

  predicate Fell(prev: Option<real>, next: Option<real>) {
    prev.Some? && next.Some? && next.value < prev.value
  }

  /** The application restarted: some counter read both times went down. */
  predicate ResetBefore(prev: Counters, next: Counters) {
    || Fell(prev.requests, next.requests)
    || Fell(prev.requestSeconds, next.requestSeconds)
    || Fell(prev.serverErrors, next.serverErrors)
    || Fell(prev.gcPauseSeconds, next.gcPauseSeconds)
    || Fell(prev.uptimeSeconds, next.uptimeSeconds)
  }

  datatype Sample = Sample(value: real, at: nat)

  function Seconds(from: nat, to: nat): real
    requires from <= to
  {
    (to - from) as real / SECOND as real
  }

  function RatePerSecond(prev: Option<Sample>, curr: Sample): Option<real> {
    match prev
    case None => None
    case Some(p) =>
      // No time passed divides by zero, which is not finite.
      if curr.value < p.value || curr.at <= p.at then None
      else Some((curr.value - p.value) / Seconds(p.at, curr.at))
  }

  datatype Baseline = Baseline(counters: Counters, at: nat, ownRequests: nat)

  function SampleAt(value: Option<real>, at: nat): Option<Sample> {
    match value
    case Some(v) => Some(Sample(v, at))
    case None => None
  }

  function RateBetween(prev: Option<real>, from: nat, curr: Option<real>, to: nat): Option<real> {
    match curr
    case None => None
    case Some(v) => RatePerSecond(SampleAt(prev, from), Sample(v, to))
  }

  function MaxReal(a: real, b: real): real {
    if a < b then b else a
  }

  function MeanLatency(prev: Counters, next: Counters): Option<real> {
    if prev.requests.None? || next.requests.None? || prev.requestSeconds.None? || next.requestSeconds.None? then None
    else
      var count := next.requests.value - prev.requests.value;
      if count > 0.0 then Some((next.requestSeconds.value - prev.requestSeconds.value) / count * 1000.0) else None
  }

  function RatesTo(b: Baseline, counters: Counters, now: nat): Rates {
    var own := b.ownRequests as real;
    var netRequests := if counters.requests.Some? && b.counters.requests.Some?
      then Some(MaxReal(counters.requests.value - own, b.counters.requests.value)) else None;
    var gc := RateBetween(b.counters.gcPauseSeconds, b.at, counters.gcPauseSeconds, now);
    Rates(
      RateBetween(b.counters.requests, b.at, netRequests, now),
      RateBetween(b.counters.serverErrors, b.at, counters.serverErrors, now),
      MeanLatency(b.counters, counters),
      match gc case Some(rate) => Some(rate * 100.0) case None => None)
  }

  /** What one scrape reports, and the baseline it leaves for the next. */
  function Advance(baseline: Option<Baseline>, scrape: Scrape, now: nat): (Option<Baseline>, Rates) {
    match scrape
    case Unreachable => (None, NO_RATES)
    case Reached(meters, ownRequests) =>
      var counters := CountersOf(meters);
      var rates := if baseline.Some? && !ResetBefore(baseline.value.counters, counters)
        then RatesTo(baseline.value, counters, now) else NO_RATES;
      (Some(Baseline(counters, now, ownRequests)), rates)
  }

  // ----- every run of scrapes -----

  datatype TimedScrape = TimedScrape(scrape: Scrape, at: nat)

  function BaselineAfter(h: seq<TimedScrape>, n: nat): Option<Baseline>
    requires n <= |h|
  {
    if n == 0 then None else Advance(BaselineAfter(h, n - 1), h[n - 1].scrape, h[n - 1].at).0
  }

  function RatesAt(h: seq<TimedScrape>, n: nat): Rates
    requires n < |h|
  {
    Advance(BaselineAfter(h, n), h[n].scrape, h[n].at).1
  }

  // ----- the meters a rate is made of -----

  /** The scrape read a number for this meter. */
  predicate Known(m: MeterValue<Option<real>>) {
    m.Published? && m.value.Some?
  }

  function Read(m: MeterValue<Option<real>>): real {
    if Known(m) then m.value.value else 0.0
  }

  predicate KnownCount(m: Meters) {
    m.httpRequests.Published? && m.httpRequests.value.count.Some?
  }

  predicate KnownTime(m: Meters) {
    m.httpRequests.Published? && m.httpRequests.value.totalSeconds.Some?
  }

  function CountRead(m: Meters): real {
    if KnownCount(m) then m.httpRequests.value.count.value else 0.0
  }

  function TimeRead(m: Meters): real {
    if KnownTime(m) then m.httpRequests.value.totalSeconds.value else 0.0
  }

  /** Errors are known as read, and as none yet while requests are counted and no error has been. */
  predicate KnownErrors(m: Meters) {
    Known(m.httpServerErrors) || (m.httpServerErrors.NotPublished? && KnownCount(m))
  }

  /** Some meter read both times went down. */
  predicate Restarted(a: Meters, b: Meters) {
    || (KnownCount(a) && KnownCount(b) && CountRead(b) < CountRead(a))
    || (KnownTime(a) && KnownTime(b) && TimeRead(b) < TimeRead(a))
    || (KnownErrors(a) && KnownErrors(b) && Read(b.httpServerErrors) < Read(a.httpServerErrors))
    || (Known(a.gcPauseSeconds) && Known(b.gcPauseSeconds) && Read(b.gcPauseSeconds) < Read(a.gcPauseSeconds))
    || (Known(a.uptimeSeconds) && Known(b.uptimeSeconds) && Read(b.uptimeSeconds) < Read(a.uptimeSeconds))
  }

  function Shown(known: bool, value: real): Option<real> {
    if known then Some(value) else None
  }

  lemma CountersByMeters(m: Meters)
    ensures CountersOf(m) == Counters(
      Shown(KnownCount(m), CountRead(m)), Shown(KnownTime(m), TimeRead(m)),
      Shown(KnownErrors(m), Read(m.httpServerErrors)),
      Shown(Known(m.gcPauseSeconds), Read(m.gcPauseSeconds)), Shown(Known(m.uptimeSeconds), Read(m.uptimeSeconds)))
  {
  }

  lemma RestartedIsReset(a: Meters, b: Meters)
    ensures Restarted(a, b) <==> ResetBefore(CountersOf(a), CountersOf(b))
  {
    CountersByMeters(a);
    CountersByMeters(b);
  }

  function MetersAt(h: seq<TimedScrape>, n: nat): Meters
    requires n < |h| && h[n].scrape.Reached?
  {
    h[n].scrape.meters
  }

  /** Scrape `n` follows a reached one directly, and no meter read by both went down. */
  predicate Follows(h: seq<TimedScrape>, n: nat) {
    0 < n < |h| && h[n - 1].scrape.Reached? && h[n].scrape.Reached? && !Restarted(MetersAt(h, n - 1), MetersAt(h, n))
  }

  /** The rate is there exactly when both readings and some time are, and times the time it is
      what `delta` says. */
  ghost predicate IsRateOf(rate: Option<real>, both: bool, from: nat, to: nat, delta: real) {
    && (rate.Some? <==> both && from < to)
    && (rate.Some? ==> from < to && rate.value >= 0.0 && rate.value * Seconds(from, to) == delta)
  }

  lemma QuotientTimesElapsed(delta: real, from: nat, to: nat)
    requires from < to && delta >= 0.0
    ensures delta / Seconds(from, to) >= 0.0
    ensures delta / Seconds(from, to) * Seconds(from, to) == delta
  {
    var elapsed := Seconds(from, to);
    assert elapsed > 0.0;
  }

  lemma RateBetweenIsRate(prev: Option<real>, from: nat, curr: Option<real>, to: nat)
    requires !Fell(prev, curr)
    ensures IsRateOf(RateBetween(prev, from, curr, to), prev.Some? && curr.Some?, from, to,
                     if prev.Some? && curr.Some? then curr.value - prev.value else 0.0)
  {
    if prev.Some? && curr.Some? && from < to {
      QuotientTimesElapsed(curr.value - prev.value, from, to);
    }
  }

  /** No rate without a scrape to follow: a first one, one after an unreachable one, or one with any
      meter below what the scrape before it read, the uptime included. */
  lemma NoRatesUnlessFollowing(h: seq<TimedScrape>, n: nat)
    requires n < |h| && !Follows(h, n)
    ensures RatesAt(h, n) == NO_RATES
  {
    if n > 0 && h[n - 1].scrape.Reached? && h[n].scrape.Reached? {
      RestartedIsReset(MetersAt(h, n - 1), MetersAt(h, n));
    }
  }

  function Increase(prev: Option<real>, curr: Option<real>): real {
    if prev.Some? && curr.Some? then curr.value - prev.value else 0.0
  }

  ghost predicate ErrorsMeasured(b: Baseline, c: Counters, now: nat, rate: Option<real>) {
    IsRateOf(rate, b.counters.serverErrors.Some? && c.serverErrors.Some?, b.at, now,
             Increase(b.counters.serverErrors, c.serverErrors))
  }

  ghost predicate GcMeasured(b: Baseline, c: Counters, now: nat, percent: Option<real>) {
    IsRateOf(percent, b.counters.gcPauseSeconds.Some? && c.gcPauseSeconds.Some?, b.at, now,
             Increase(b.counters.gcPauseSeconds, c.gcPauseSeconds) * 100.0)
  }

  /** The agent's own requests of the earlier scrape are taken out, never below nothing. */
  ghost predicate RequestsMeasured(b: Baseline, c: Counters, now: nat, rate: Option<real>) {
    IsRateOf(rate, b.counters.requests.Some? && c.requests.Some?, b.at, now,
             MaxReal(Increase(b.counters.requests, c.requests) - b.ownRequests as real, 0.0))
  }

  lemma MeasureErrors(b: Baseline, c: Counters, now: nat)
    requires !ResetBefore(b.counters, c)
    ensures ErrorsMeasured(b, c, now, RatesTo(b, c, now).serverErrorsPerSecond)
  {
    RateBetweenIsRate(b.counters.serverErrors, b.at, c.serverErrors, now);
  }

  lemma TimesHundred(rate: Option<real>, both: bool, from: nat, to: nat, delta: real)
    requires IsRateOf(rate, both, from, to, delta) && rate.Some?
    ensures IsRateOf(Some(rate.value * 100.0), both, from, to, delta * 100.0)
  {
    assert rate.value * 100.0 * Seconds(from, to) == rate.value * Seconds(from, to) * 100.0;
  }

  lemma MeasureGc(b: Baseline, c: Counters, now: nat)
    requires !ResetBefore(b.counters, c)
    ensures GcMeasured(b, c, now, RatesTo(b, c, now).gcPausePercent)
  {
    var (prev, curr) := (b.counters.gcPauseSeconds, c.gcPauseSeconds);
    var rate := RateBetween(prev, b.at, curr, now);
    RateBetweenIsRate(prev, b.at, curr, now);
    if rate.Some? {
      TimesHundred(rate, prev.Some? && curr.Some?, b.at, now, Increase(prev, curr));
    }
  }

  lemma MeasureRequests(b: Baseline, c: Counters, now: nat)
    ensures RequestsMeasured(b, c, now, RatesTo(b, c, now).requestsPerSecond)
  {
    if b.counters.requests.Some? && c.requests.Some? {
      RateBetweenIsRate(b.counters.requests, b.at,
        Some(MaxReal(c.requests.value - b.ownRequests as real, b.counters.requests.value)), now);
    }
  }

  /** The mean latency is request time over request count, in milliseconds, when any came. */
  lemma LatencyIsTimeOverCount(p: Counters, c: Counters)
    requires p.requests.Some? && c.requests.Some? && p.requestSeconds.Some? && c.requestSeconds.Some?
    ensures MeanLatency(p, c).Some? <==> p.requests.value < c.requests.value
    ensures MeanLatency(p, c).Some? ==>
      MeanLatency(p, c).value * (c.requests.value - p.requests.value) == (c.requestSeconds.value - p.requestSeconds.value) * 1000.0
  {
    if p.requests.value < c.requests.value {
      var (count, seconds) := (c.requests.value - p.requests.value, c.requestSeconds.value - p.requestSeconds.value);
      var quotient := seconds / count;
      assert quotient * count == seconds;
      assert quotient * 1000.0 * count == quotient * count * 1000.0;
    }
  }

  lemma LatencyIsNonNegative(p: Counters, c: Counters)
    requires !ResetBefore(p, c)
    ensures MeanLatency(p, c).Some? ==> MeanLatency(p, c).value >= 0.0
  {
    if MeanLatency(p, c).Some? {
      var (count, seconds) := (c.requests.value - p.requests.value, c.requestSeconds.value - p.requestSeconds.value);
      assert seconds / count >= 0.0;
    }
  }

  /** A scrape that follows another is measured from that one, and from nothing earlier. */
  lemma RatesFromTheOneBefore(h: seq<TimedScrape>, n: nat)
    requires Follows(h, n)
    ensures var (prev, next) := (CountersOf(MetersAt(h, n - 1)), CountersOf(MetersAt(h, n)));
      && !ResetBefore(prev, next)
      && RatesAt(h, n) == RatesTo(Baseline(prev, h[n - 1].at, h[n - 1].scrape.ownRequests), next, h[n].at)
  {
    var (prev, next) := (CountersOf(MetersAt(h, n - 1)), CountersOf(MetersAt(h, n)));
    RestartedIsReset(MetersAt(h, n - 1), MetersAt(h, n));
    assert BaselineAfter(h, n) == Some(Baseline(prev, h[n - 1].at, h[n - 1].scrape.ownRequests));
  }

  /** Each rate of `r` measures its own meters' increase from `a` to `b`, over the time between: the
      agent's own requests of the earlier scrape taken out, never below nothing. */
  ghost predicate MeasuresErrors(r: Rates, a: Meters, b: Meters, from: nat, to: nat) {
    IsRateOf(r.serverErrorsPerSecond, KnownErrors(a) && KnownErrors(b), from, to, Read(b.httpServerErrors) - Read(a.httpServerErrors))
  }

  ghost predicate MeasuresGc(r: Rates, a: Meters, b: Meters, from: nat, to: nat) {
    IsRateOf(r.gcPausePercent, Known(a.gcPauseSeconds) && Known(b.gcPauseSeconds), from, to,
             (Read(b.gcPauseSeconds) - Read(a.gcPauseSeconds)) * 100.0)
  }

  ghost predicate MeasuresRequests(r: Rates, a: Meters, b: Meters, from: nat, to: nat, own: nat) {
    IsRateOf(r.requestsPerSecond, KnownCount(a) && KnownCount(b), from, to, MaxReal(CountRead(b) - CountRead(a) - own as real, 0.0))
  }

  /** The mean latency is there exactly when both timers are and requests came, and times their number
      is the time they took, in milliseconds. */
  ghost predicate MeasuresLatency(r: Rates, a: Meters, b: Meters) {
    && (r.meanLatencyMs.Some? <==>
          KnownCount(a) && KnownCount(b) && KnownTime(a) && KnownTime(b) && CountRead(a) < CountRead(b))
    && (r.meanLatencyMs.Some? ==>
          r.meanLatencyMs.value >= 0.0
          && r.meanLatencyMs.value * (CountRead(b) - CountRead(a)) == (TimeRead(b) - TimeRead(a)) * 1000.0)
  }

  lemma SameRate(rate: Option<real>, both: bool, from: nat, to: nat, delta: real, same: real)
    requires IsRateOf(rate, both, from, to, delta) && (both ==> delta == same)
    ensures IsRateOf(rate, both, from, to, same)
  {
  }

  lemma LatencyByMeters(a: Meters, b: Meters, r: Rates)
    requires r.meanLatencyMs == MeanLatency(CountersOf(a), CountersOf(b)) && !ResetBefore(CountersOf(a), CountersOf(b))
    ensures MeasuresLatency(r, a, b)
  {
    var (prev, next) := (CountersOf(a), CountersOf(b));
    CountersByMeters(a);
    CountersByMeters(b);
    LatencyIsNonNegative(prev, next);
    if KnownCount(a) && KnownCount(b) && KnownTime(a) && KnownTime(b) {
      LatencyIsTimeOverCount(prev, next);
    }
  }

  lemma ErrorsByMeters(a: Meters, b: Meters, from: nat, to: nat, own: nat, r: Rates)
    requires r == RatesTo(Baseline(CountersOf(a), from, own), CountersOf(b), to) && !ResetBefore(CountersOf(a), CountersOf(b))
    ensures MeasuresErrors(r, a, b, from, to)
  {
    CountersByMeters(a);
    CountersByMeters(b);
    MeasureErrors(Baseline(CountersOf(a), from, own), CountersOf(b), to);
    SameRate(r.serverErrorsPerSecond, KnownErrors(a) && KnownErrors(b), from, to,
             Increase(CountersOf(a).serverErrors, CountersOf(b).serverErrors), Read(b.httpServerErrors) - Read(a.httpServerErrors));
  }

  lemma GcByMeters(a: Meters, b: Meters, from: nat, to: nat, own: nat, r: Rates)
    requires r == RatesTo(Baseline(CountersOf(a), from, own), CountersOf(b), to) && !ResetBefore(CountersOf(a), CountersOf(b))
    ensures MeasuresGc(r, a, b, from, to)
  {
    CountersByMeters(a);
    CountersByMeters(b);
    MeasureGc(Baseline(CountersOf(a), from, own), CountersOf(b), to);
    SameRate(r.gcPausePercent, Known(a.gcPauseSeconds) && Known(b.gcPauseSeconds), from, to,
             Increase(CountersOf(a).gcPauseSeconds, CountersOf(b).gcPauseSeconds) * 100.0,
             (Read(b.gcPauseSeconds) - Read(a.gcPauseSeconds)) * 100.0);
  }

  lemma RequestsByMeters(a: Meters, b: Meters, from: nat, to: nat, own: nat, r: Rates)
    requires r == RatesTo(Baseline(CountersOf(a), from, own), CountersOf(b), to)
    ensures MeasuresRequests(r, a, b, from, to, own)
  {
    CountersByMeters(a);
    CountersByMeters(b);
    MeasureRequests(Baseline(CountersOf(a), from, own), CountersOf(b), to);
    SameRate(r.requestsPerSecond, KnownCount(a) && KnownCount(b), from, to,
             MaxReal(Increase(CountersOf(a).requests, CountersOf(b).requests) - own as real, 0.0),
             MaxReal(CountRead(b) - CountRead(a) - own as real, 0.0));
  }

  /** The rates of a scrape that follows another, over the meters the two of them read. */
  lemma RatesMeasureIncreases(h: seq<TimedScrape>, n: nat)
    requires Follows(h, n)
    ensures var (r, a, b, from, to) := (RatesAt(h, n), MetersAt(h, n - 1), MetersAt(h, n), h[n - 1].at, h[n].at);
      && MeasuresErrors(r, a, b, from, to) && MeasuresGc(r, a, b, from, to)
      && MeasuresRequests(r, a, b, from, to, h[n - 1].scrape.ownRequests) && MeasuresLatency(r, a, b)
  {
    var (a, b, own, r) := (MetersAt(h, n - 1), MetersAt(h, n), h[n - 1].scrape.ownRequests, RatesAt(h, n));
    RatesFromTheOneBefore(h, n);
    ErrorsByMeters(a, b, h[n - 1].at, h[n].at, own, r);
    GcByMeters(a, b, h[n - 1].at, h[n].at, own, r);
    RequestsByMeters(a, b, h[n - 1].at, h[n].at, own, r);
    LatencyByMeters(a, b, r);
  }

  /** The first server errors of an application show as a rate: before any, its requests alone
      stand for none. */
  lemma FirstErrorsShow(h: seq<TimedScrape>, n: nat, first: real)
    requires Follows(h, n) && h[n - 1].at < h[n].at
    requires KnownCount(MetersAt(h, n - 1)) && MetersAt(h, n - 1).httpServerErrors.NotPublished?
    requires MetersAt(h, n).httpServerErrors == Published(Some(first))
    ensures var rate := RatesAt(h, n).serverErrorsPerSecond;
      rate.Some? && rate.value * Seconds(h[n - 1].at, h[n].at) == first
  {
    RatesMeasureIncreases(h, n);
  }

  // ----- telescoping -----

  /** The counters whose rates add up to their increase. */
  datatype Counter = ServerErrors | GcPause

  predicate KnownFor(which: Counter, m: Meters) {
    match which
    case ServerErrors => KnownErrors(m)
    case GcPause => Known(m.gcPauseSeconds)
  }

  /** A meter in its rate's terms: a pause is a percentage of the time. */
  function ReadFor(which: Counter, m: Meters): real {
    match which
    case ServerErrors => Read(m.httpServerErrors)
    case GcPause => Read(m.gcPauseSeconds) * 100.0
  }

  function RateOf(which: Counter, r: Rates): Option<real> {
    match which
    case ServerErrors => r.serverErrorsPerSecond
    case GcPause => r.gcPausePercent
  }

  /** Scrapes `a` to `b` follow one another at strictly later times, each reading the counter. */
  ghost predicate Uninterrupted(h: seq<TimedScrape>, which: Counter, a: nat, b: nat) {
    && a <= b < |h|
    && (forall k :: a <= k <= b ==> h[k].scrape.Reached? && KnownFor(which, MetersAt(h, k)))
    && (forall k :: a < k <= b ==> Follows(h, k) && h[k - 1].at < h[k].at)
  }

  /** A rate times the time it covers, nothing when there is no rate or no time. */
  function Amount(rate: Option<real>, since: nat, now: nat): real {
    if rate.Some? && since <= now then rate.value * Seconds(since, now) else 0.0
  }

  /** The rate scrape `k` reports times the time since the one before. */
  function Term(h: seq<TimedScrape>, which: Counter, k: nat): real
    requires 0 < k < |h|
  {
    Amount(RateOf(which, RatesAt(h, k)), h[k - 1].at, h[k].at)
  }

  function Terms(h: seq<TimedScrape>, which: Counter, a: nat, b: nat): seq<real>
    requires a <= b < |h|
  {
    seq(b - a, k requires 0 <= k < b - a => Term(h, which, a + 1 + k))
  }

  function Sum(terms: seq<real>): real {
    if terms == [] then 0.0 else Sum(terms[..|terms| - 1]) + terms[|terms| - 1]
  }

  lemma {:induction false} SumTelescopes(terms: seq<real>, values: seq<real>)
    requires |values| == |terms| + 1 && forall k :: 0 <= k < |terms| ==> terms[k] == values[k + 1] - values[k]
    ensures Sum(terms) == values[|terms|] - values[0]
  {
    if terms != [] {
      SumTelescopes(terms[..|terms| - 1], values[..|terms|]);
    }
  }

  lemma AmountOfRate(rate: Option<real>, both: bool, since: nat, now: nat, delta: real)
    requires IsRateOf(rate, both, since, now, delta) && both && since < now
    ensures Amount(rate, since, now) == delta
  {
  }

  lemma AmountMeasured(r: Rates, which: Counter, a: Meters, b: Meters, from: nat, to: nat)
    requires MeasuresErrors(r, a, b, from, to) && MeasuresGc(r, a, b, from, to)
    requires KnownFor(which, a) && KnownFor(which, b) && from < to
    ensures Amount(RateOf(which, r), from, to) == ReadFor(which, b) - ReadFor(which, a)
  {
    match which {
      case ServerErrors =>
        AmountOfRate(r.serverErrorsPerSecond, KnownErrors(a) && KnownErrors(b), from, to,
                     Read(b.httpServerErrors) - Read(a.httpServerErrors));
      case GcPause =>
        AmountOfRate(r.gcPausePercent, Known(a.gcPauseSeconds) && Known(b.gcPauseSeconds), from, to,
                     (Read(b.gcPauseSeconds) - Read(a.gcPauseSeconds)) * 100.0);
    }
  }

  /** The meter as scrape `k` read it, in the rate's terms. */
  function ReadAt(h: seq<TimedScrape>, which: Counter, k: nat): real
    requires k < |h| && h[k].scrape.Reached?
  {
    ReadFor(which, MetersAt(h, k))
  }

  lemma OneStep(h: seq<TimedScrape>, which: Counter, a: nat, b: nat, k: nat)
    requires Uninterrupted(h, which, a, b) && a < k <= b
    ensures Term(h, which, k) == ReadAt(h, which, k) - ReadAt(h, which, k - 1)
  {
    RatesMeasureIncreases(h, k);
    AmountMeasured(RatesAt(h, k), which, MetersAt(h, k - 1), MetersAt(h, k), h[k - 1].at, h[k].at);
  }

  /** Over an uninterrupted stretch the rates account for the whole increase, no more, no less. */
  lemma RatesTelescope(h: seq<TimedScrape>, which: Counter, a: nat, b: nat)
    requires Uninterrupted(h, which, a, b)
    ensures Sum(Terms(h, which, a, b)) == ReadAt(h, which, b) - ReadAt(h, which, a)
  {
    var terms := Terms(h, which, a, b);
    var values := seq(b - a + 1, k requires 0 <= k <= b - a => ReadAt(h, which, a + k));
    forall k | 0 <= k < |terms| ensures terms[k] == values[k + 1] - values[k] {
      OneStep(h, which, a, b, a + 1 + k);
    }
    SumTelescopes(terms, values);
  }
}
