/**
 The outbox and the delivery task (src/mail/outbox.rs, src/mail/client.rs): a bounded queue of
 messages sent from the front, a backoff that doubles up to the mail interval, and a count of
 dropped messages logged at most hourly.
 */
module Outbox {
  import opened Basics

  const MAX_QUEUED := 288
  const FIRST_RETRY := 30 * SECOND
  const DROPPED_WARNING_EVERY := 3600 * SECOND

  datatype SendResult = Sent | Temporary | Permanent

  datatype OutboxView<M> = OutboxView(queue: seq<M>, dropped: nat, backoff: Option<nat>)

  function EmptyOutbox<M>(): OutboxView<M> {
    OutboxView([], 0, None)
  }

  function WithoutFront<M>(queue: seq<M>): seq<M> {
    if queue == [] then [] else queue[1..]
  }

  function PushView<M>(v: OutboxView<M>, message: M): OutboxView<M> {
    if |v.queue| == MAX_QUEUED
    then v.(queue := WithoutFront(v.queue) + [message], dropped := v.dropped + 1)
    else v.(queue := v.queue + [message])
  }

  /** The wait after one more temporary failure. */
  function NextBackoff(backoff: Option<nat>, max: nat): nat {
    match backoff
    case None => Min(FIRST_RETRY, max)
    case Some(wait) => Min(wait * 2, max)
  }

  function AfterView<M>(v: OutboxView<M>, result: SendResult, max: nat): (OutboxView<M>, nat) {
    match result
    case Sent => (OutboxView(WithoutFront(v.queue), v.dropped, None), 0)
    case Permanent => (OutboxView(WithoutFront(v.queue), v.dropped + 1, None), 0)
    case Temporary =>
      var next := NextBackoff(v.backoff, max);
      (v.(backoff := Some(next)), next)
  }

  class Outbox<M> {
    var queue: seq<M>
    var dropped: nat
    var backoff: Option<nat>

    function View(): OutboxView<M>
      reads this
    {
      OutboxView(queue, dropped, backoff)
    }

    constructor ()
      ensures View() == EmptyOutbox()
    {
      queue, dropped, backoff := [], 0, None;
    }

    method Push(message: M)
      modifies this
      ensures View() == PushView(old(View()), message)
    {
      if |queue| == MAX_QUEUED {
        queue := queue[1..];
        dropped := dropped + 1;
      }
      queue := queue + [message];
    }

    method After(result: SendResult, max: nat) returns (wait: nat)
      modifies this
      ensures (View(), wait) == AfterView(old(View()), result, max)
    {
      match result {
        case Sent =>
          queue, backoff, wait := WithoutFront(queue), None, 0;
        case Permanent =>
          queue, dropped, backoff, wait := WithoutFront(queue), dropped + 1, None, 0;
        case Temporary =>
          wait := match backoff
            case None => Min(FIRST_RETRY, max)
            case Some(last) => Min(last * 2, max);
          backoff := Some(wait);
      }
    }

    method TakeDropped() returns (count: nat)
      modifies this
      ensures count == old(dropped) && View() == old(View()).(dropped := 0)
    {
      count := dropped;
      dropped := 0;
    }
  }

  // ----- the delivery task -----

  datatype DeliveryView<M> = DeliveryView(outbox: OutboxView<M>, wait: nat, warnedAt: Option<nat>)

  /** One turn of the delivery loop: a message came in, or the front one was tried. */
  datatype Turn<M> = Received(message: M, now: nat) | Attempted(result: SendResult, now: nat)

  predicate QuietHour(warnedAt: Option<nat>, now: nat) {
    warnedAt.Some? && SatSub(now, warnedAt.value) < DROPPED_WARNING_EVERY
  }

  /** How many drops the log line after a turn names: 0 when it is not written. */
  function LoggedNow(dropped: nat, warnedAt: Option<nat>, now: nat): nat {
    if QuietHour(warnedAt, now) then 0 else dropped
  }

  function LogView<M>(v: DeliveryView<M>, now: nat): DeliveryView<M> {
    if LoggedNow(v.outbox.dropped, v.warnedAt, now) == 0 then v
    else v.(outbox := v.outbox.(dropped := 0), warnedAt := Some(now))
  }

  /** The turn itself, before its log line. The send arm is off while nothing is queued. */
  function HandleView<M>(v: DeliveryView<M>, t: Turn<M>, max: nat): DeliveryView<M> {
    match t
    case Received(message, _) => v.(outbox := PushView(v.outbox, message))
    case Attempted(result, _) =>
      if v.outbox.queue == [] then v
      else
        var (outbox, wait) := AfterView(v.outbox, result, max);
        v.(outbox := outbox, wait := wait)
  }

  function TurnView<M>(v: DeliveryView<M>, t: Turn<M>, max: nat): DeliveryView<M> {
    LogView(HandleView(v, t, max), t.now)
  }

  class Delivery<M> {
    const outbox: Outbox<M>
    var wait: nat
    var warnedAt: Option<nat>

    function View(): DeliveryView<M>
      reads this, outbox
    {
      DeliveryView(outbox.View(), wait, warnedAt)
    }

    constructor ()
      ensures View() == DeliveryView(EmptyOutbox(), 0, None) && fresh(outbox)
    {
      outbox := new Outbox();
      wait, warnedAt := 0, None;
    }

    method LogDropped(now: nat) returns (logged: nat)
      modifies this`warnedAt, outbox
      ensures logged == LoggedNow(old(outbox.dropped), old(warnedAt), now)
      ensures View() == LogView(old(View()), now)
    {
      var quiet := warnedAt.Some? && SatSub(now, warnedAt.value) < DROPPED_WARNING_EVERY;
      if quiet || outbox.dropped == 0 {
        return 0;
      }
      logged := outbox.TakeDropped();
      warnedAt := Some(now);
    }

    method Take(t: Turn<M>, max: nat) returns (logged: nat)
      modifies this, outbox
      ensures View() == TurnView(old(View()), t, max)
      ensures logged == LoggedNow(HandleView(old(View()), t, max).outbox.dropped, old(warnedAt), t.now)
    {
      match t {
        case Received(message, _) =>
          outbox.Push(message);
        case Attempted(result, _) =>
          if outbox.queue != [] {
            wait := outbox.After(result, max);
          }
      }
      logged := LogDropped(t.now);
    }
  }

  // ----- every run -----

  function After<M>(h: seq<Turn<M>>, n: nat, max: nat): DeliveryView<M>
    requires n <= |h|
  {
    if n == 0 then DeliveryView(EmptyOutbox(), 0, None) else TurnView(After(h, n - 1, max), h[n - 1], max)
  }

  /** Every message received in the first `n` turns. */
  function AllReceived<M>(h: seq<Turn<M>>, n: nat): seq<M>
    requires n <= |h|
  {
    if n == 0 then [] else AllReceived(h, n - 1) + NewlyReceived(h[n - 1])
  }

  function NewlyReceived<M>(t: Turn<M>): seq<M> {
    match t
    case Received(message, _) => [message]
    case Attempted(_, _) => []
  }

  /** A turn that finds `v` tries the front message. */
  predicate Tries<M>(v: DeliveryView<M>, t: Turn<M>) {
    t.Attempted? && v.outbox.queue != []
  }

  function NewlySent<M>(v: DeliveryView<M>, t: Turn<M>): seq<M> {
    if Tries(v, t) && t.result.Sent? then [v.outbox.queue[0]] else []
  }

  /** A turn drops a message pushed out of a full queue, or refused for good. */
  function NewlyDropped<M>(v: DeliveryView<M>, t: Turn<M>): nat {
    if (t.Received? && |v.outbox.queue| == MAX_QUEUED) || (Tries(v, t) && t.result.Permanent?) then 1 else 0
  }

  /** How many drops a turn's log line names, 0 for no line. */
  function NewlyLogged<M>(v: DeliveryView<M>, t: Turn<M>, max: nat): nat {
    LoggedNow(HandleView(v, t, max).outbox.dropped, v.warnedAt, t.now)
  }

  /** Every message sent in the first `n` turns, in sending order. */
  function AllSent<M>(h: seq<Turn<M>>, n: nat, max: nat): seq<M>
    requires n <= |h|
  {
    if n == 0 then [] else AllSent(h, n - 1, max) + NewlySent(After(h, n - 1, max), h[n - 1])
  }

  function DroppedEver<M>(h: seq<Turn<M>>, n: nat, max: nat): nat
    requires n <= |h|
  {
    if n == 0 then 0 else DroppedEver(h, n - 1, max) + NewlyDropped(After(h, n - 1, max), h[n - 1])
  }

  function LoggedEver<M>(h: seq<Turn<M>>, n: nat, max: nat): nat
    requires n <= |h|
  {
    if n == 0 then 0 else LoggedEver(h, n - 1, max) + NewlyLogged(After(h, n - 1, max), h[n - 1], max)
  }

  /** `s` is `t` with some elements left out. */
  ghost predicate InOrder<M>(s: seq<M>, t: seq<M>) {
    s == [] ||
    (t != [] && ((s[|s| - 1] == t[|t| - 1] && InOrder(s[..|s| - 1], t[..|t| - 1])) || InOrder(s, t[..|t| - 1])))
  }

  lemma InOrderAppend<M>(s: seq<M>, t: seq<M>, m: M)
    requires InOrder(s, t)
    ensures InOrder(s, t + [m]) && InOrder(s + [m], t + [m])
  {
    assert (t + [m])[..|t|] == t && (s + [m])[..|s|] == s;
  }

  /** Where every message of `all` is: queued, sent in order, or dropped and counted once. */
  ghost predicate Accounted<M>(v: OutboxView<M>, all: seq<M>, sent: seq<M>, droppedEver: nat, loggedEver: nat) {
    && |v.queue| <= MAX_QUEUED
    && |all| == |sent| + droppedEver + |v.queue|
    && v.queue == all[|all| - |v.queue|..]
    && InOrder(sent, all[..|all| - |v.queue|])
    && droppedEver == loggedEver + v.dropped
  }

  /** The front message leaves, sent or not. */
  lemma FrontLeaves<M>(all: seq<M>, queue: seq<M>, sent: seq<M>)
    requires 0 < |queue| <= |all| && queue == all[|all| - |queue|..] && InOrder(sent, all[..|all| - |queue|])
    ensures queue[1..] == all[|all| - |queue| + 1..]
    ensures InOrder(sent, all[..|all| - |queue| + 1]) && InOrder(sent + [queue[0]], all[..|all| - |queue| + 1])
  {
    var p := |all| - |queue|;
    assert all[..p + 1] == all[..p] + [queue[0]];
    InOrderAppend(sent, all[..p], queue[0]);
  }

  lemma MessageJoins<M>(v: OutboxView<M>, m: M, all: seq<M>, sent: seq<M>, dropped: nat, logged: nat)
    requires Accounted(v, all, sent, dropped, logged)
    ensures Accounted(PushView(v, m), all + [m], sent, dropped + if |v.queue| == MAX_QUEUED then 1 else 0, logged)
  {
    var p := |all| - |v.queue|;
    if |v.queue| == MAX_QUEUED {
      FrontLeaves(all, v.queue, sent);
      assert (all + [m])[..p + 1] == all[..p + 1];
    } else {
      assert (all + [m])[..p] == all[..p];
    }
  }

  lemma TryKeepsAccount<M>(v: OutboxView<M>, result: SendResult, max: nat, all: seq<M>, sent: seq<M>, dropped: nat, logged: nat)
    requires Accounted(v, all, sent, dropped, logged) && v.queue != []
    ensures Accounted(AfterView(v, result, max).0, all, if result.Sent? then sent + [v.queue[0]] else sent,
                      if result.Permanent? then dropped + 1 else dropped, logged)
  {
    FrontLeaves(all, v.queue, sent);
  }

  lemma HandleKeepsAccount<M>(v: DeliveryView<M>, t: Turn<M>, max: nat, all: seq<M>, sent: seq<M>, dropped: nat, logged: nat)
    requires Accounted(v.outbox, all, sent, dropped, logged)
    ensures Accounted(HandleView(v, t, max).outbox, all + NewlyReceived(t), sent + NewlySent(v, t), dropped + NewlyDropped(v, t), logged)
  {
    match t {
      case Received(message, _) =>
        assert sent + NewlySent(v, t) == sent;
        MessageJoins(v.outbox, message, all, sent, dropped, logged);
      case Attempted(result, _) =>
        assert all + NewlyReceived(t) == all;
        assert sent + [] == sent;
        if Tries(v, t) {
          TryKeepsAccount(v.outbox, result, max, all, sent, dropped, logged);
        }
    }
  }

  lemma LogKeepsAccount<M>(v: DeliveryView<M>, now: nat, all: seq<M>, sent: seq<M>, dropped: nat, logged: nat)
    requires Accounted(v.outbox, all, sent, dropped, logged)
    ensures Accounted(LogView(v, now).outbox, all, sent, dropped, logged + LoggedNow(v.outbox.dropped, v.warnedAt, now))
  {
  }

  lemma TurnKeepsAccount<M>(v: DeliveryView<M>, t: Turn<M>, max: nat, all: seq<M>, sent: seq<M>, dropped: nat, logged: nat)
    requires Accounted(v.outbox, all, sent, dropped, logged)
    ensures Accounted(TurnView(v, t, max).outbox, all + NewlyReceived(t), sent + NewlySent(v, t),
                      dropped + NewlyDropped(v, t), logged + NewlyLogged(v, t, max))
  {
    HandleKeepsAccount(v, t, max, all, sent, dropped, logged);
    LogKeepsAccount(HandleView(v, t, max), t.now,
      all + NewlyReceived(t), sent + NewlySent(v, t), dropped + NewlyDropped(v, t), logged);
  }

  /**
   Messages are conserved and leave in order: the queue is the latest of those received, the
   sent ones are among the rest in the order they came, and each other one was dropped. Every
   drop has been named by exactly one log line or waits for the next.
   */
  lemma {:induction false} MessagesAreConserved<M>(h: seq<Turn<M>>, n: nat, max: nat)
    requires n <= |h|
    ensures Accounted(After(h, n, max).outbox, AllReceived(h, n), AllSent(h, n, max), DroppedEver(h, n, max), LoggedEver(h, n, max))
  {
    if n > 0 {
      MessagesAreConserved(h, n - 1, max);
      TurnKeepsAccount(After(h, n - 1, max), h[n - 1], max,
        AllReceived(h, n - 1), AllSent(h, n - 1, max), DroppedEver(h, n - 1, max), LoggedEver(h, n - 1, max));
    }
  }

  // ----- backoff -----

  function Pow2(k: nat): nat {
    if k == 0 then 1 else 2 * Pow2(k - 1)
  }

  /** How many temporary failures there have been since a message last left by a try. */
  function FailuresInARow<M>(h: seq<Turn<M>>, n: nat, max: nat): nat
    requires n <= |h|
  {
    if n == 0 then 0
    else if !Tries(After(h, n - 1, max), h[n - 1]) then FailuresInARow(h, n - 1, max)
    else if h[n - 1].result.Temporary? then FailuresInARow(h, n - 1, max) + 1
    else 0
  }

  /** The wait after the `k`-th failure in a row: 30 s doubled `k - 1` times, at most `max`. */
  function WaitAfter(k: nat, max: nat): nat {
    if k == 0 then 0 else Min(FIRST_RETRY * Pow2(k - 1), max)
  }

  lemma TurnDoublesBackoff<M>(v: DeliveryView<M>, t: Turn<M>, max: nat, k: nat)
    requires v.outbox.backoff == if k == 0 then None else Some(WaitAfter(k, max))
    ensures var v' := TurnView(v, t, max);
      if !Tries(v, t) then v'.outbox.backoff == v.outbox.backoff && v'.wait == v.wait
      else if t.result.Temporary? then v'.outbox.backoff == Some(WaitAfter(k + 1, max)) && v'.wait == WaitAfter(k + 1, max)
      else v'.outbox.backoff == None && v'.wait == 0
  {
    if k > 0 {
      assert FIRST_RETRY * Pow2(k) == 2 * (FIRST_RETRY * Pow2(k - 1));
    }
  }

  /** The wait is the one the failures in a row call for, whatever else came in meanwhile. */
  lemma {:induction false} BackoffDoubles<M>(h: seq<Turn<M>>, n: nat, max: nat)
    requires n <= |h|
    ensures After(h, n, max).wait == WaitAfter(FailuresInARow(h, n, max), max)
    ensures After(h, n, max).outbox.backoff ==
      if FailuresInARow(h, n, max) == 0 then None else Some(WaitAfter(FailuresInARow(h, n, max), max))
  {
    if n > 0 {
      BackoffDoubles(h, n - 1, max);
      TurnDoublesBackoff(After(h, n - 1, max), h[n - 1], max, FailuresInARow(h, n - 1, max));
    }
  }

  // ----- log lines -----

  /** Turn `n` wrote a log line. */
  predicate LogsAt<M>(h: seq<Turn<M>>, n: nat, max: nat) {
    n < |h| && NewlyLogged(After(h, n, max), h[n], max) > 0
  }

  lemma {:induction false} WarnedSince<M>(h: seq<Turn<M>>, n: nat, max: nat, i: nat)
    requires i < n <= |h| && ClockNeverSteps(h, (t: Turn<M>) => t.now) && LogsAt(h, i, max)
    ensures After(h, n, max).warnedAt.Some? && h[i].now <= After(h, n, max).warnedAt.value <= h[n - 1].now
  {
    if i < n - 1 {
      WarnedSince(h, n - 1, max, i);
    }
  }

  /** Two log lines are at least an hour apart. */
  lemma LogLinesApart<M>(h: seq<Turn<M>>, i: nat, j: nat, max: nat)
    requires i < j && ClockNeverSteps(h, (t: Turn<M>) => t.now) && LogsAt(h, i, max) && LogsAt(h, j, max)
    ensures h[i].now + DROPPED_WARNING_EVERY <= h[j].now
  {
    WarnedSince(h, j, max, i);
  }

  /** And no drop is kept back for longer: one not yet named comes within an hour of a line. */
  lemma PendingOnlyInQuietHour<M>(h: seq<Turn<M>>, n: nat, max: nat)
    requires 0 < n <= |h| && After(h, n, max).outbox.dropped > 0
    ensures QuietHour(After(h, n, max).warnedAt, h[n - 1].now)
    ensures exists i: nat :: i < n && LogsAt(h, i, max) && SatSub(h[n - 1].now, h[i].now) < DROPPED_WARNING_EVERY
  {
    var i := WarnedByALine(h, n, max);
  }

  lemma {:induction false} WarnedByALine<M>(h: seq<Turn<M>>, n: nat, max: nat) returns (i: nat)
    requires n <= |h| && After(h, n, max).warnedAt.Some?
    ensures i < n && LogsAt(h, i, max) && After(h, n, max).warnedAt == Some(h[i].now)
  {
    if LogsAt(h, n - 1, max) {
      i := n - 1;
    } else {
      i := WarnedByALine(h, n - 1, max);
    }
  }
}
