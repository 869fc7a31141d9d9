/**
 When the mail client closes a report (src/mail/client.rs, src/mail/batch.rs): on schedule, or at
 once for a new incident, at most one a minute.
 */
module MailClient {
  import opened Basics
  import opened MailBatch

  datatype Reason = Scheduled | Incident

  datatype ClientView = ClientView(nextReport: nat, lastIncident: Option<nat>)

  datatype Tick = Tick(now: nat, newIncident: bool)

  function DueView(v: ClientView, t: Tick, interval: nat): (ClientView, Option<Reason>) {
    if t.now >= v.nextReport then (v.(nextReport := t.now + interval), Some(Scheduled))
    else if t.newIncident && Spaced(v.lastIncident, t.now, INCIDENT_SPACING)
    then (v.(lastIncident := Some(t.now)), Some(Incident))
    else (v, None)
  }

  class IncidentPace {
    var last: Option<nat>

    constructor ()
      ensures last == None
    {
      last := None;
    }

    method Allows(now: nat) returns (allowed: bool)
      modifies this
      ensures allowed == Spaced(old(last), now, INCIDENT_SPACING)
      ensures last == if allowed then Some(now) else old(last)
    {
      allowed := last.None? || SatSub(now, last.value) >= INCIDENT_SPACING;
      if allowed {
        last := Some(now);
      }
    }
  }

  class Client {
    const pace: IncidentPace
    var nextReport: nat

    function View(): ClientView
      reads this, pace
    {
      ClientView(nextReport, pace.last)
    }

    constructor (start: nat, interval: nat)
      ensures View() == ClientView(start + interval, None) && fresh(pace)
    {
      pace := new IncidentPace();
      nextReport := start + interval;
    }

    method Due(now: nat, interval: nat, newIncident: bool) returns (reason: Option<Reason>)
      modifies this, pace
      ensures (View(), reason) == DueView(old(View()), Tick(now, newIncident), interval)
    {
      if now >= nextReport {
        nextReport := now + interval;
        return Some(Scheduled);
      }
      reason := None;
      if newIncident {
        var allowed := pace.Allows(now);
        if allowed {
          reason := Some(Incident);
        }
      }
    }
  }

  function After(start: nat, interval: nat, h: seq<Tick>, n: nat): ClientView
    requires n <= |h|
  {
    if n == 0 then ClientView(start + interval, None) else DueView(After(start, interval, h, n - 1), h[n - 1], interval).0
  }

  function ReasonAt(start: nat, interval: nat, h: seq<Tick>, n: nat): Option<Reason>
    requires n < |h|
  {
    DueView(After(start, interval, h, n), h[n], interval).1
  }

  /** Tick `i` is the last one before `n` that reported for `reason`. */
  ghost predicate LastFor(start: nat, interval: nat, h: seq<Tick>, n: nat, reason: Reason, i: nat)
    requires n <= |h|
  {
    i < n && ReasonAt(start, interval, h, i) == Some(reason)
    && forall j: nat :: i < j < n ==> ReasonAt(start, interval, h, j) != Some(reason)
  }

  ghost predicate NeverFor(start: nat, interval: nat, h: seq<Tick>, n: nat, reason: Reason)
    requires n <= |h|
  {
    forall j: nat :: j < n ==> ReasonAt(start, interval, h, j) != Some(reason)
  }

  /** What the client remembers is when it last reported for each reason. */
  lemma {:induction false} StateByHistory(start: nat, interval: nat, h: seq<Tick>, n: nat)
    requires n <= |h|
    ensures var v := After(start, interval, h, n);
      && (if NeverFor(start, interval, h, n, Scheduled) then v.nextReport == start + interval
          else exists i: nat :: LastFor(start, interval, h, n, Scheduled, i) && v.nextReport == h[i].now + interval)
      && (if NeverFor(start, interval, h, n, Incident) then v.lastIncident == None
          else exists i: nat :: LastFor(start, interval, h, n, Incident, i) && v.lastIncident == Some(h[i].now))
  {
    if n > 0 {
      StateByHistory(start, interval, h, n - 1);
      StandsOrMoves(start, interval, h, n, Scheduled);
      StandsOrMoves(start, interval, h, n, Incident);
    }
  }

  lemma StandsOrMoves(start: nat, interval: nat, h: seq<Tick>, n: nat, reason: Reason)
    requires 0 < n <= |h|
    ensures ReasonAt(start, interval, h, n - 1) == Some(reason) ==> LastFor(start, interval, h, n, reason, n - 1)
    ensures ReasonAt(start, interval, h, n - 1) != Some(reason) ==>
      && (NeverFor(start, interval, h, n, reason) <==> NeverFor(start, interval, h, n - 1, reason))
      && forall i: nat :: LastFor(start, interval, h, n - 1, reason, i) ==> LastFor(start, interval, h, n, reason, i)
  {
  }

  /** Tick `n` is at or past its scheduled time: the interval after the last scheduled report, or
      after the start when there was none. */
  ghost predicate OnSchedule(start: nat, interval: nat, h: seq<Tick>, n: nat)
    requires n < |h|
  {
    if NeverFor(start, interval, h, n, Scheduled) then h[n].now >= start + interval
    else exists i: nat :: LastFor(start, interval, h, n, Scheduled, i) && h[n].now >= h[i].now + interval
  }

  /** Less than a minute has passed since the last incident report before tick `n`. */
  ghost predicate PacedOut(start: nat, interval: nat, h: seq<Tick>, n: nat)
    requires n < |h|
  {
    exists i: nat :: LastFor(start, interval, h, n, Incident, i) && SatSub(h[n].now, h[i].now) < INCIDENT_SPACING
  }

  lemma LastForIsUnique(start: nat, interval: nat, h: seq<Tick>, n: nat, reason: Reason, i: nat, j: nat)
    requires n <= |h| && LastFor(start, interval, h, n, reason, i) && LastFor(start, interval, h, n, reason, j)
    ensures i == j
  {
  }

  /** What a tick reports, by the reports before it: the schedule first; else a new incident not
      within a minute of the last incident report; else nothing. */
  lemma ReasonByHistory(start: nat, interval: nat, h: seq<Tick>, n: nat)
    requires n < |h|
    ensures ReasonAt(start, interval, h, n) == Some(Scheduled) <==> OnSchedule(start, interval, h, n)
    ensures ReasonAt(start, interval, h, n) == Some(Incident) <==>
      !OnSchedule(start, interval, h, n) && h[n].newIncident && !PacedOut(start, interval, h, n)
  {
    StateByHistory(start, interval, h, n);
    forall i: nat, j: nat, reason |
      LastFor(start, interval, h, n, reason, i) && LastFor(start, interval, h, n, reason, j) ensures i == j
    {
      LastForIsUnique(start, interval, h, n, reason, i, j);
    }
  }

  /** How long reports for one reason stay apart. */
  function SpacingFor(reason: Reason, interval: nat): nat {
    match reason
    case Scheduled => interval
    case Incident => INCIDENT_SPACING
  }

  /** On the monotonic clock, scheduled reports come at least the mail interval apart, and
      incident reports at least a minute apart. */
  lemma ReportsApart(start: nat, interval: nat, h: seq<Tick>, i: nat, j: nat, reason: Reason)
    requires ClockNeverSteps(h, (t: Tick) => t.now) && i < j < |h|
    requires ReasonAt(start, interval, h, i) == Some(reason) && ReasonAt(start, interval, h, j) == Some(reason)
    ensures h[i].now + SpacingFor(reason, interval) <= h[j].now
  {
    StateByHistory(start, interval, h, j);
    var v := After(start, interval, h, j);
    assert !NeverFor(start, interval, h, j, reason);
    var last: nat :| LastFor(start, interval, h, j, reason, last) &&
      (reason.Scheduled? ==> v.nextReport == h[last].now + interval) && (reason.Incident? ==> v.lastIncident == Some(h[last].now));
    assert i <= last;
  }

  /**
   And none is withheld: a tick that reports nothing is before the scheduled time, and had no
   new incident or came less than a minute after the last incident report.
   */
  lemma NothingWithheld(start: nat, interval: nat, h: seq<Tick>, n: nat)
    requires n < |h| && ReasonAt(start, interval, h, n) == None
    ensures h[n].now < After(start, interval, h, n).nextReport
    ensures h[n].newIncident ==>
      exists i: nat :: LastFor(start, interval, h, n, Incident, i) && SatSub(h[n].now, h[i].now) < INCIDENT_SPACING
  {
    StateByHistory(start, interval, h, n);
  }
}
