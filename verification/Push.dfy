/**
 Snapshot delivery (src/push/mod.rs, src/snapshot.rs): which published snapshot a push tick owes
 the hub, across publishes, failed sends, and reconnects; and what a live stream tells its client.
 */
module Push {
  import opened Basics
  import Sourcing
  import Collector
  import EndToEnd

  const STALENESS_BOUND := 30 * SECOND

  /** What the push client reads of a published snapshot. */
  datatype Snapshot = Snapshot(seqNo: nat, readAt: nat)

  function SnapshotOf(p: Collector.Published): Snapshot {
    Snapshot(p.seqNo, p.collected.tick.now)
  }

  /** More than the staleness bound old; exactly the bound is still fresh. */
  predicate IsStale(s: Snapshot, now: nat) {
    SatSub(now, s.readAt) > STALENESS_BOUND
  }

  datatype Due = Send(snapshot: Snapshot) | Unchanged | Stale

  /** Which snapshot the hub was last sent, kept across connections. */
  class SnapshotCursor {
    var lastSent: Option<nat>

    constructor ()
      ensures lastSent == None
    {
      lastSent := None;
    }

    method MarkSent(seqNo: nat)
      modifies this
      ensures lastSent == Some(seqNo)
    {
      lastSent := Some(seqNo);
    }

    /** A snapshot that can't be encoded is skipped, and marked sent like one that was. */
    method SendSnapshot(snapshot: Snapshot, result: SendResult) returns (ok: bool)
      modifies this
      ensures ok == (result != Failed)
      ensures lastSent == MarkedBy(old(lastSent), snapshot, result)
    {
      ok := result != Failed;
      if ok {
        MarkSent(snapshot.seqNo);
      }
    }
  }

  function DueOf(published: Snapshot, lastSent: Option<nat>, now: nat): Due {
    if IsStale(published, now) then Stale
    else if lastSent == Some(published.seqNo) then Unchanged
    else Send(published)
  }

  datatype SendResult = Delivered | NotEncoded | Failed

  function MarkedBy(lastSent: Option<nat>, snapshot: Snapshot, result: SendResult): Option<nat> {
    if result == Failed then lastSent else Some(snapshot.seqNo)
  }

  // ----- the collector and the push client together -----

  /** `sending` is the snapshot a tick chose, until its send ends: newer ones may be published
      meanwhile. */
  datatype State = State(lastSent: Option<nat>, connected: bool, sending: Option<Snapshot>)

  datatype Event =
    | CollectorTurn
    | Connect(now: nat)
    | PushTick(now: nat)
    | SendEnds(result: SendResult)
    | HangUp

  /** One event, with `published` the snapshot readers share. One that can't happen in `s` changes
      nothing. */
  function Next(s: State, published: Snapshot, e: Event): State {
    match e
    case CollectorTurn => s
    // No handshake is made until the published snapshot is fresh.
    case Connect(now) => if s.connected || IsStale(published, now) then s else s.(connected := true)
    case PushTick(now) =>
      if !s.connected || s.sending.Some? then s
      else
        (match DueOf(published, s.lastSent, now)
         case Send(snapshot) => s.(sending := Some(snapshot))
         case Unchanged => s
         case Stale => s.(connected := false))
    case SendEnds(result) =>
      (match s.sending
       case None => s
       case Some(snapshot) =>
         s.(sending := None, lastSent := MarkedBy(s.lastSent, snapshot, result), connected := result != Failed))
    case HangUp => if s.sending.Some? then s else s.(connected := false)
  }

  /** A run of the collector, with the push client's events anywhere between its own. Each
      `CollectorTurn` is its next event: a sample, an early read, a panic, a rebuild, new rules. */
  datatype Delivery = Delivery(run: EndToEnd.Run, events: seq<Event>)

  /** How many of the collector's events the first `n` events cover. */
  function Turns(d: Delivery, n: nat): (turns: nat)
    requires n <= |d.events|
    ensures turns <= |d.run.events|
  {
    if n == 0 then 0
    else
      var before := Turns(d, n - 1);
      if d.events[n - 1].CollectorTurn? && before < |d.run.events| then before + 1 else before
  }

  ghost function PublishedAt(d: Delivery, n: nat): Snapshot
    requires n <= |d.events|
  {
    SnapshotOf(EndToEnd.StateAt(d.run, Turns(d, n)).published)
  }

  ghost function After(d: Delivery, n: nat): State
    requires n <= |d.events|
  {
    if n == 0 then State(None, false, None) else Next(After(d, n - 1), PublishedAt(d, n - 1), d.events[n - 1])
  }

  /** The samples the collector has published by event `n`, the startup one first. */
  ghost function SamplesAt(d: Delivery, n: nat): seq<Sourcing.ReadTick>
    requires n <= |d.events|
  {
    EndToEnd.Samples(d.run, Turns(d, n))
  }

  /** The published snapshot is the last sample's, numbered by its place: whatever fails between,
      samples are published under 0, 1, 2 and on, none skipped. */
  lemma PublishedIsTheLastSample(d: Delivery, n: nat)
    requires n <= |d.events|
    ensures var samples := SamplesAt(d, n);
      samples != [] && PublishedAt(d, n) == Snapshot(|samples| - 1, samples[|samples| - 1].now)
  {
    EndToEnd.PublishedByTheSamples(d.run, Turns(d, n));
  }

  /** From 0 on, a turn of the collector publishes the next number exactly when it is a sample read by
      a ready sampler; every other event leaves the snapshot as it is. */
  lemma PublishedAreConsecutive(d: Delivery, n: nat)
    requires n < |d.events|
    ensures PublishedAt(d, 0).seqNo == 0
    ensures var turn := Turns(d, n);
      if d.events[n].CollectorTurn? && EndToEnd.Publishes(d.run, turn)
      then PublishedAt(d, n + 1) == Snapshot(PublishedAt(d, n).seqNo + 1, d.run.events[turn].collected.tick.now)
      else PublishedAt(d, n + 1) == PublishedAt(d, n)
  {
  }

  lemma {:induction false} TurnsAscend(d: Delivery, m: nat, n: nat)
    requires m <= n <= |d.events|
    ensures Turns(d, m) <= Turns(d, n)
  {
    if m < n {
      TurnsAscend(d, m, n - 1);
    }
  }

  /** A sample once published keeps its number; the published number never steps back. */
  lemma PublishedNeverRewinds(d: Delivery, m: nat, n: nat)
    requires m <= n <= |d.events|
    ensures SamplesAt(d, m) <= SamplesAt(d, n)
    ensures PublishedAt(d, m).seqNo <= PublishedAt(d, n).seqNo
  {
    TurnsAscend(d, m, n);
    EndToEnd.SamplesGrow(d.run, Turns(d, m), Turns(d, n));
    PublishedIsTheLastSample(d, m);
    PublishedIsTheLastSample(d, n);
  }

  /** Nothing sent or being sent is newer than what is published, nor sent already. */
  ghost predicate Sound(s: State, published: Snapshot) {
    && (s.lastSent.Some? ==> s.lastSent.value <= published.seqNo)
    && (s.sending.Some? ==> s.sending.value.seqNo <= published.seqNo && s.connected)
    && (s.sending.Some? && s.lastSent.Some? ==> s.lastSent.value < s.sending.value.seqNo)
  }

  lemma NextKeepsSound(s: State, published: Snapshot, e: Event, later: Snapshot)
    requires Sound(s, published) && published.seqNo <= later.seqNo
    ensures Sound(Next(s, published, e), later)
  {
  }

  lemma {:induction false} RunsAreSound(d: Delivery, n: nat)
    requires n <= |d.events|
    ensures Sound(After(d, n), PublishedAt(d, n))
  {
    if n > 0 {
      RunsAreSound(d, n - 1);
      PublishedNeverRewinds(d, n - 1, n);
      NextKeepsSound(After(d, n - 1), PublishedAt(d, n - 1), d.events[n - 1], PublishedAt(d, n));
    }
  }

  /** Event `n` marks snapshot `seqNo` sent. */
  ghost predicate Marks(d: Delivery, n: nat, seqNo: nat) {
    n < |d.events| && d.events[n].SendEnds? && d.events[n].result != Failed
    && After(d, n).sending.Some? && After(d, n).sending.value.seqNo == seqNo
  }

  lemma {:induction false} LastSentStays(d: Delivery, m: nat, n: nat, seqNo: nat)
    requires m < n <= |d.events| && Marks(d, m, seqNo)
    ensures After(d, n).lastSent.Some? && seqNo <= After(d, n).lastSent.value
  {
    if m < n - 1 {
      LastSentStays(d, m, n - 1, seqNo);
      RunsAreSound(d, n - 1);
    }
  }

  /** Numbers marked sent strictly increase, across reconnects, panics and rebuilds: no snapshot is
      marked sent twice. */
  lemma MarkedStrictlyIncrease(d: Delivery, m: nat, n: nat, first: nat, second: nat)
    requires m < n && Marks(d, m, first) && Marks(d, n, second)
    ensures first < second
  {
    LastSentStays(d, m, n, first);
    RunsAreSound(d, n);
  }

  lemma {:induction false} LastSentWasMarked(d: Delivery, n: nat) returns (m: nat)
    requires n <= |d.events| && After(d, n).lastSent.Some?
    ensures m < n && Marks(d, m, After(d, n).lastSent.value)
  {
    if After(d, n - 1).lastSent == After(d, n).lastSent {
      m := LastSentWasMarked(d, n - 1);
    } else {
      m := n - 1;
    }
  }

  /** A push tick that finds its connection idle sends the published snapshot exactly when it is
      at most 30 s old and was never marked sent before, on this connection or any other. */
  lemma TickSendsWhatIsOwed(d: Delivery, n: nat)
    requires n < |d.events| && d.events[n].PushTick?
    requires After(d, n).connected && After(d, n).sending.None?
    ensures var published := PublishedAt(d, n);
      After(d, n + 1).sending == Some(published) <==>
        SatSub(d.events[n].now, published.readAt) <= STALENESS_BOUND && forall m: nat :: m < n ==> !Marks(d, m, published.seqNo)
  {
    var s, published := After(d, n), PublishedAt(d, n);
    if s.lastSent.Some? {
      var m := LastSentWasMarked(d, n);
    }
    forall m: nat | m < n && Marks(d, m, published.seqNo) ensures s.lastSent == Some(published.seqNo) {
      LastSentStays(d, m, n, published.seqNo);
      RunsAreSound(d, n);
    }
  }

  /** Event `n` is the push tick that chose the snapshot still being sent at `m`. */
  ghost predicate ChosenAt(d: Delivery, n: nat, m: nat, snapshot: Snapshot) {
    && n < m <= |d.events| && d.events[n].PushTick?
    && After(d, n).sending.None? && PublishedAt(d, n) == snapshot
    && forall k :: n < k <= m ==> After(d, k).sending == Some(snapshot)
  }

  lemma {:induction false} SendingWasChosen(d: Delivery, m: nat, snapshot: Snapshot) returns (n: nat)
    requires m <= |d.events| && After(d, m).sending == Some(snapshot)
    ensures ChosenAt(d, n, m, snapshot)
    ensures SatSub(d.events[n].now, snapshot.readAt) <= STALENESS_BOUND
    ensures After(d, n).lastSent != Some(snapshot.seqNo)
  {
    if After(d, m - 1).sending == Some(snapshot) {
      n := SendingWasChosen(d, m - 1, snapshot);
    } else {
      n := m - 1;
    }
  }

  /** Whatever is being sent is a sample of the collector's, under its place as its number, that was
      the last one on the tick that chose it and had been read at most 30 s before. */
  lemma SentSnapshotsWereFresh(d: Delivery, m: nat, snapshot: Snapshot) returns (n: nat)
    requires m <= |d.events| && After(d, m).sending == Some(snapshot)
    ensures ChosenAt(d, n, m, snapshot)
    ensures var samples := SamplesAt(d, n);
      && |samples| == snapshot.seqNo + 1 && samples <= SamplesAt(d, m)
      && SatSub(d.events[n].now, samples[snapshot.seqNo].now) <= STALENESS_BOUND
    ensures After(d, n).lastSent != Some(snapshot.seqNo)
  {
    n := SendingWasChosen(d, m, snapshot);
    PublishedIsTheLastSample(d, n);
    PublishedNeverRewinds(d, n, m);
  }

  /** The events that end a session at `n`: an idle tick that finds the snapshot over 30 s old, a send
      that fails, a hang-up noticed while idle. */
  ghost predicate EndsSession(d: Delivery, n: nat)
    requires n < |d.events|
  {
    var idle := After(d, n).sending.None?;
    match d.events[n]
    case PushTick(now) => idle && SatSub(now, PublishedAt(d, n).readAt) > STALENESS_BOUND
    case SendEnds(result) => !idle && result == Failed
    case HangUp => idle
    case _ => false
  }

  /** A handshake made while the published snapshot is at most 30 s old. */
  ghost predicate BeginsSession(d: Delivery, n: nat)
    requires n < |d.events|
  {
    d.events[n].Connect? && SatSub(d.events[n].now, PublishedAt(d, n).readAt) <= STALENESS_BOUND
  }

  /** A session lasts from such a handshake to the first event that ends one, and a send within it to
      that send's end. */
  lemma SessionsLastUntilEnded(d: Delivery, n: nat)
    requires n < |d.events|
    ensures After(d, n + 1).connected <==> if After(d, n).connected then !EndsSession(d, n) else BeginsSession(d, n)
    ensures After(d, n).sending.Some? ==>
      After(d, n + 1).sending == if d.events[n].SendEnds? then None else After(d, n).sending
  {
    RunsAreSound(d, n);
  }

  // ----- live streams -----

  datatype StreamMode = Live | Stalled

  datatype Emit = EmitSnapshot | EmitStaleNotice | EmitNothing

  /** What a stream last told its client. */
  class StreamState {
    var mode: StreamMode

    constructor ()
      ensures mode == Live
    {
      mode := Live;
    }

    method Next(snapshot: Snapshot, now: nat) returns (emit: Emit)
      modifies this
      ensures (mode, emit) == NextEmit(old(mode), IsStale(snapshot, now))
    {
      var stale := IsStale(snapshot, now);
      if !stale {
        emit := EmitSnapshot;
      } else if mode.Live? {
        emit := EmitStaleNotice;
      } else {
        emit := EmitNothing;
      }
      mode := if stale then Stalled else Live;
    }
  }

  function NextEmit(mode: StreamMode, stale: bool): (StreamMode, Emit) {
    if !stale then (Live, EmitSnapshot)
    else (Stalled, if mode.Live? then EmitStaleNotice else EmitNothing)
  }

  /** A tick of a stream: the snapshot it sees, and when. */
  datatype StreamTick = StreamTick(snapshot: Snapshot, now: nat)

  /** The stream's mode after the first `n` ticks, and what tick `n` emits. */
  function StreamAfter(ticks: seq<StreamTick>, n: nat): StreamMode
    requires n <= |ticks|
  {
    if n == 0 then Live else NextEmit(StreamAfter(ticks, n - 1), IsStale(ticks[n - 1].snapshot, ticks[n - 1].now)).0
  }

  function EmitAt(ticks: seq<StreamTick>, n: nat): Emit
    requires n < |ticks|
  {
    NextEmit(StreamAfter(ticks, n), IsStale(ticks[n].snapshot, ticks[n].now)).1
  }

  predicate Fresh(t: StreamTick) {
    SatSub(t.now, t.snapshot.readAt) <= STALENESS_BOUND
  }

  /** A tick emits its snapshot exactly when that is at most 30 s old, the notice exactly on the first
      tick of each stale stretch, and nothing on the rest of one. */
  lemma StreamSaysWhatItSees(ticks: seq<StreamTick>, n: nat)
    requires n < |ticks|
    ensures EmitAt(ticks, n) == EmitSnapshot <==> Fresh(ticks[n])
    ensures EmitAt(ticks, n) == EmitStaleNotice <==> !Fresh(ticks[n]) && (n == 0 || Fresh(ticks[n - 1]))
    ensures EmitAt(ticks, n) == EmitNothing <==> n > 0 && !Fresh(ticks[n]) && !Fresh(ticks[n - 1])
  {
  }
}
