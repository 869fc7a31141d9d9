/**
 The id file's creation (src/push/identity.rs): any number of agents reading, writing a temp
 file each, hard-linking it into place, unlinking and reading again, their file-system steps
 interleaved in any order, any step failing, and any agent crashing anywhere.
 */
module IdFile {
  import opened Basics
  import opened AgentIds

  /** The names in the id file's directory. A temp name carries a fresh UUID, so it is its
      agent's alone. */
  datatype Name = Final | Temp(agent: nat)

  /** Which file a name is linked to: the one there at first, or the one an agent created. */
  datatype Inode = AtFirst | Of(agent: nat)

  datatype Outcome = Written | FromFile(id: Bytes) | Refused(error: IdError)

  datatype LinkResult = Linked | Taken | LinkFailed(error: IdError)

  datatype Phase =
    | Starting
    | Creating
    | Writing(written: nat)
    | Linking
    | Unlinking(link: LinkResult)
    | FinalReading
    | Returned(outcome: Outcome)
    | Crashed

  datatype Agent = Agent(id: Bytes, phase: Phase, unlinkFailed: bool)

  datatype State = State(names: map<Name, Inode>, contents: map<Inode, Bytes>, agents: seq<Agent>)

  /** One file-system step of one agent, and how it went. */
  datatype Action =
    | Read
    | ReadFails
    | Create
    | CreateFails
    | Write(count: nat)
    | WriteFails
    | Sync
    | Link
    | LinkFails(noHardLinks: bool)
    | Unlink(removed: bool)
    | Crash

  /** What `fs::read` and `parse_id_file` make of the id file. */
  function ReadFinal(s: State): Option<Result<Bytes, IdError>> {
    if Final in s.names && s.names[Final] in s.contents then Some(ParseIdFile(s.contents[s.names[Final]])) else None
  }

  function FromRead(read: Result<Bytes, IdError>): Phase {
    match read
    case Ok(id) => Returned(FromFile(id))
    case Err(error) => Returned(Refused(error))
  }

  function WithPhase(s: State, i: nat, phase: Phase): State
    requires i < |s.agents|
  {
    s.(agents := s.agents[i := s.agents[i].(phase := phase)])
  }

  /** The first read, in `resolve_push_id`. */
  function StepStarting(s: State, i: nat, a: Action): State
    requires i < |s.agents|
  {
    match a
    case Read =>
      (match ReadFinal(s)
       case None => WithPhase(s, i, Creating)
       case Some(read) => WithPhase(s, i, FromRead(read)))
    case ReadFails => WithPhase(s, i, Returned(Refused(Unreadable)))
    case _ => s
  }

  /** `write_temp`: creating the file, writing its line in any number of pieces, syncing it. */
  function StepWriting(s: State, i: nat, a: Action): State
    requires i < |s.agents| && (s.agents[i].phase.Creating? || s.agents[i].phase.Writing?)
  {
    var agent := s.agents[i];
    match (agent.phase, a)
    case (Creating, Create) =>
      WithPhase(s, i, Writing(0)).(names := s.names[Temp(i) := Of(i)], contents := s.contents[Of(i) := []])
    case (Creating, CreateFails) => WithPhase(s, i, Unlinking(LinkFailed(Unwritable)))
    case (Writing(written), Write(count)) =>
      var upto := Min(written + count, |Line(agent.id)|);
      if upto < written then s
      else WithPhase(s, i, Writing(upto)).(contents := s.contents[Of(i) := Line(agent.id)[..upto]])
    case (Writing(written), Sync) => if written == |Line(agent.id)| then WithPhase(s, i, Linking) else s
    case (Writing(_), WriteFails) => WithPhase(s, i, Unlinking(LinkFailed(Unwritable)))
    case _ => s
  }

  /** `hard_link`, which never replaces a file. */
  function StepLinking(s: State, i: nat, a: Action): State
    requires i < |s.agents|
  {
    match a
    case Link =>
      if Final in s.names then WithPhase(s, i, Unlinking(Taken))
      else WithPhase(s, i, Unlinking(Linked)).(names := s.names[Final := Of(i)])
    case LinkFails(noHardLinks) =>
      WithPhase(s, i, Unlinking(LinkFailed(if noHardLinks then NoHardLinks else Unwritable)))
    case _ => s
  }

  /** `remove_file`, whose failure is ignored. */
  function StepUnlinking(s: State, i: nat, link: LinkResult, a: Action): State
    requires i < |s.agents|
  {
    match a
    case Unlink(removed) =>
      var phase := match link
        case Linked => Returned(Written)
        case Taken => FinalReading
        case LinkFailed(error) => Returned(Refused(error));
      if removed then WithPhase(s, i, phase).(names := s.names - {Temp(i)})
      else s.(agents := s.agents[i := Agent(s.agents[i].id, phase, true)])
    case _ => s
  }

  /** `read_final`: a missing file is a failure too. */
  function StepFinalReading(s: State, i: nat, a: Action): State
    requires i < |s.agents|
  {
    match a
    case Read =>
      (match ReadFinal(s)
       case None => WithPhase(s, i, Returned(Refused(Unreadable)))
       case Some(read) => WithPhase(s, i, FromRead(read)))
    case ReadFails => WithPhase(s, i, Returned(Refused(Unreadable)))
    case _ => s
  }

  /** Agent `i` takes a step. A step that is not its next one changes nothing. */
  function Step(s: State, i: nat, a: Action): (t: State)
    ensures |t.agents| == |s.agents|
  {
    if i >= |s.agents| then s
    else if a.Crash? then if s.agents[i].phase.Returned? then s else WithPhase(s, i, Crashed)
    else
      match s.agents[i].phase
      case Starting => StepStarting(s, i, a)
      case Creating => StepWriting(s, i, a)
      case Writing(_) => StepWriting(s, i, a)
      case Linking => StepLinking(s, i, a)
      case Unlinking(link) => StepUnlinking(s, i, link, a)
      case FinalReading => StepFinalReading(s, i, a)
      case Returned(_) => s
      case Crashed => s
  }

  function After(start: State, schedule: seq<(nat, Action)>, n: nat): State
    requires n <= |schedule|
  {
    if n == 0 then start else Step(After(start, schedule, n - 1), schedule[n - 1].0, schedule[n - 1].1)
  }

  /** Every agent is about to start, with an id of its own, and the id file is missing or holds
      anything at all. */
  ghost predicate Initial(s: State) {
    && (forall i :: 0 <= i < |s.agents| ==> s.agents[i].phase.Starting? && !s.agents[i].unlinkFailed && IsAgentId(s.agents[i].id))
    && (s.names == map[] || (s.names == map[Final := AtFirst] && AtFirst in s.contents))
  }

  /** What the id file's bytes are, when it is there. */
  ghost predicate FileHolds(s: State, bytes: Bytes) {
    Final in s.names && s.names[Final] in s.contents && s.contents[s.names[Final]] == bytes
  }

  /** How far agent `i` has got with its own file, and what that says of the id file. */
  ghost predicate AgentSound(s: State, i: nat)
    requires i < |s.agents|
  {
    var agent := s.agents[i];
    && IsAgentId(agent.id)
    && (Temp(i) in s.names ==> s.names[Temp(i)] == Of(i))
    && (Final in s.names && s.names[Final] == Of(i) ==>
         FileHolds(s, Line(agent.id)) && agent.phase in {Unlinking(Linked), Returned(Written), Crashed})
    && match agent.phase
       case Starting => Temp(i) !in s.names
       case Creating => Temp(i) !in s.names
       case Writing(written) => written <= |Line(agent.id)| && Of(i) in s.contents && s.contents[Of(i)] == Line(agent.id)[..written]
       case Linking => Of(i) in s.contents && s.contents[Of(i)] == Line(agent.id)
       case Unlinking(Linked) => Final in s.names && s.names[Final] == Of(i)
       case Unlinking(Taken) => Final in s.names
       case Unlinking(LinkFailed(error)) => error.Unwritable? || error.NoHardLinks?
       case FinalReading => Final in s.names && (Temp(i) in s.names ==> agent.unlinkFailed)
       case Returned(outcome) =>
         && (Temp(i) in s.names ==> agent.unlinkFailed)
         && (outcome.Written? ==> Final in s.names && s.names[Final] == Of(i))
         && (outcome.FromFile? ==> ReadFinal(s) == Some(Ok(outcome.id)))
         && (outcome.Refused? && (outcome.error.NotUtf8? || outcome.error.Invalid?) ==> ReadFinal(s) == Some(Err(outcome.error)))
       case Crashed => true
  }

  /** What every step of every agent keeps, from a state that started as `start`. */
  ghost predicate Sound(start: State, s: State) {
    && |s.agents| == |start.agents|
    && (forall i :: 0 <= i < |s.agents| ==> s.agents[i].id == start.agents[i].id)
    && (forall i :: 0 <= i < |s.agents| ==> AgentSound(s, i))
    && (Final in start.names ==> Final in s.names && s.names[Final] == AtFirst)
    && (AtFirst in start.contents ==> AtFirst in s.contents && s.contents[AtFirst] == start.contents[AtFirst])
    && (Final in s.names ==>
         && s.names[Final] in s.contents
         && (if Final in start.names then s.names[Final] == AtFirst else s.names[Final].Of? && s.names[Final].agent < |s.agents|))
  }

  lemma InitialIsSound(s: State)
    requires Initial(s)
    ensures Sound(s, s)
  {
  }

  /** Agent `i`'s step touches its own temp name and file only, and links the id file only when
      it is missing. */
  ghost predicate TouchesOwn(s: State, t: State, i: nat) {
    && |t.agents| == |s.agents|
    && (forall j :: 0 <= j < |s.agents| && j != i ==> t.agents[j] == s.agents[j])
    && (forall j: nat :: j != i ==> (Temp(j) in t.names <==> Temp(j) in s.names))
    && (forall j: nat :: j != i && Temp(j) in s.names ==> t.names[Temp(j)] == s.names[Temp(j)])
    && (Final in s.names ==> Final in t.names && t.names[Final] == s.names[Final])
    && (Final in t.names && Final !in s.names ==> t.names[Final] == Of(i))
    && (forall f :: f in s.contents && f != Of(i) ==> f in t.contents && t.contents[f] == s.contents[f])
    && (Final in s.names && s.names[Final] in s.contents ==> FileHolds(t, s.contents[s.names[Final]]))
  }

  /** Agent `i` stays sound in `t`, and `t` differs from `s` in its own things only. */
  ghost predicate GoodStep(s: State, t: State, i: nat)
    requires i < |s.agents|
  {
    && TouchesOwn(s, t, i)
    && AgentSound(t, i) && t.agents[i].id == s.agents[i].id
    && (Final in t.names ==> t.names[Final] in t.contents)
  }

  lemma StartingIsGood(start: State, s: State, i: nat, a: Action)
    requires Sound(start, s) && i < |s.agents| && s.agents[i].phase.Starting?
    ensures GoodStep(s, StepStarting(s, i, a), i)
  {
    assert AgentSound(s, i);
  }

  lemma FinalReadingIsGood(start: State, s: State, i: nat, a: Action)
    requires Sound(start, s) && i < |s.agents| && s.agents[i].phase.FinalReading?
    ensures GoodStep(s, StepFinalReading(s, i, a), i)
  {
    assert AgentSound(s, i);
  }

  lemma WritingIsGood(start: State, s: State, i: nat, a: Action)
    requires Sound(start, s) && i < |s.agents| && (s.agents[i].phase.Creating? || s.agents[i].phase.Writing?)
    ensures GoodStep(s, StepWriting(s, i, a), i)
  {
    assert AgentSound(s, i);
  }

  lemma LinkingIsGood(start: State, s: State, i: nat, a: Action)
    requires Sound(start, s) && i < |s.agents| && s.agents[i].phase.Linking?
    ensures GoodStep(s, StepLinking(s, i, a), i)
  {
    assert AgentSound(s, i);
  }

  lemma UnlinkingIsGood(start: State, s: State, i: nat, a: Action)
    requires Sound(start, s) && i < |s.agents| && s.agents[i].phase.Unlinking?
    ensures GoodStep(s, StepUnlinking(s, i, s.agents[i].phase.link, a), i)
  {
    assert AgentSound(s, i);
  }

  lemma CrashIsGood(start: State, s: State, i: nat)
    requires Sound(start, s) && i < |s.agents| && !s.agents[i].phase.Returned?
    ensures GoodStep(s, WithPhase(s, i, Crashed), i)
  {
    assert AgentSound(s, i);
  }

  lemma StepIsGood(start: State, s: State, i: nat, a: Action)
    requires Sound(start, s) && i < |s.agents|
    ensures GoodStep(s, Step(s, i, a), i)
  {
    assert AgentSound(s, i);
    if a.Crash? && !s.agents[i].phase.Returned? {
      CrashIsGood(start, s, i);
    } else {
      match s.agents[i].phase {
        case Starting => StartingIsGood(start, s, i, a);
        case Creating => WritingIsGood(start, s, i, a);
        case Writing(_) => WritingIsGood(start, s, i, a);
        case Linking => LinkingIsGood(start, s, i, a);
        case Unlinking(_) => UnlinkingIsGood(start, s, i, a);
        case FinalReading => FinalReadingIsGood(start, s, i, a);
        case Returned(_) =>
        case Crashed =>
      }
    }
  }

  lemma OthersStaySound(start: State, s: State, t: State, i: nat, j: nat)
    requires Sound(start, s) && TouchesOwn(s, t, i) && i < |s.agents| && j < |s.agents| && i != j
    ensures AgentSound(t, j)
  {
    assert AgentSound(s, j);
  }

  /** One step keeps every agent sound, and an id file once there stays as it is. */
  lemma StepKeepsSound(start: State, s: State, i: nat, a: Action)
    requires Initial(start) && Sound(start, s)
    ensures Sound(start, Step(s, i, a))
    ensures Final in s.names ==> FileHolds(Step(s, i, a), s.contents[s.names[Final]])
  {
    if i < |s.agents| {
      var t := Step(s, i, a);
      StepIsGood(start, s, i, a);
      forall j | 0 <= j < |t.agents| ensures AgentSound(t, j) {
        if j != i { OthersStaySound(start, s, t, i, j); }
      }
    }
  }

  lemma {:induction false} RunsAreSound(start: State, schedule: seq<(nat, Action)>, n: nat)
    requires Initial(start) && n <= |schedule|
    ensures Sound(start, After(start, schedule, n))
  {
    if n == 0 {
      InitialIsSound(start);
    } else {
      RunsAreSound(start, schedule, n - 1);
      StepKeepsSound(start, After(start, schedule, n - 1), schedule[n - 1].0, schedule[n - 1].1);
    }
  }

  // ----- what it comes to -----

  /** The id file is never torn: it holds what it held at first, or one agent's whole line. */
  lemma NeverTorn(start: State, schedule: seq<(nat, Action)>, n: nat)
    requires Initial(start) && n <= |schedule|
    ensures var s := After(start, schedule, n);
      Final in s.names ==>
        if Final in start.names then FileHolds(s, start.contents[AtFirst])
        else exists w :: 0 <= w < |start.agents| && FileHolds(s, start.agents[w].id + [NEWLINE]) && ReadFinal(s) == Some(Ok(start.agents[w].id))
  {
    RunsAreSound(start, schedule, n);
    var s := After(start, schedule, n);
    if Final in s.names && Final !in start.names {
      var w := s.names[Final].agent;
      assert AgentSound(s, w);
      IdFileRoundTrip(s.agents[w].id);
      assert FileHolds(s, start.agents[w].id + [NEWLINE]);
    }
  }

  /** And never changes once there. */
  lemma {:induction false} NeverChanges(start: State, schedule: seq<(nat, Action)>, m: nat, n: nat, bytes: Bytes)
    requires Initial(start) && m <= n <= |schedule|
    requires FileHolds(After(start, schedule, m), bytes)
    ensures FileHolds(After(start, schedule, n), bytes)
  {
    if m < n {
      NeverChanges(start, schedule, m, n - 1, bytes);
      RunsAreSound(start, schedule, n - 1);
      StepKeepsSound(start, After(start, schedule, n - 1), schedule[n - 1].0, schedule[n - 1].1);
    }
  }

  /** The id an agent that succeeded presents. */
  function Holds(agent: Agent): Option<Bytes> {
    match agent.phase
    case Returned(Written) => Some(agent.id)
    case Returned(FromFile(id)) => Some(id)
    case _ => None
  }

  /** Every agent that succeeds holds the id the file parses to, then and at any later point. */
  lemma SuccessIsTheFilesId(start: State, schedule: seq<(nat, Action)>, m: nat, n: nat, i: nat)
    requires Initial(start) && m <= n <= |schedule| && i < |start.agents|
    requires |After(start, schedule, m).agents| == |start.agents| && Holds(After(start, schedule, m).agents[i]).Some?
    ensures ReadFinal(After(start, schedule, n)) == Some(Ok(Holds(After(start, schedule, m).agents[i]).value))
  {
    RunsAreSound(start, schedule, m);
    var s := After(start, schedule, m);
    assert AgentSound(s, i);
    IdFileRoundTrip(s.agents[i].id);
    NeverChanges(start, schedule, m, n, s.contents[s.names[Final]]);
  }

  /** Any two agents that succeed, whenever they do, hold one id. */
  lemma Agreement(start: State, schedule: seq<(nat, Action)>, m: nat, n: nat, i: nat, j: nat)
    requires Initial(start) && m <= n <= |schedule| && i < |start.agents| && j < |start.agents|
    requires |After(start, schedule, m).agents| == |start.agents| == |After(start, schedule, n).agents|
    requires Holds(After(start, schedule, m).agents[i]).Some? && Holds(After(start, schedule, n).agents[j]).Some?
    ensures Holds(After(start, schedule, m).agents[i]) == Holds(After(start, schedule, n).agents[j])
  {
    SuccessIsTheFilesId(start, schedule, m, n, i);
    SuccessIsTheFilesId(start, schedule, n, n, j);
  }

  /** At most one agent reports that it wrote the file, and none does over a file already there. */
  lemma AtMostOneWrites(start: State, schedule: seq<(nat, Action)>, n: nat, i: nat, j: nat)
    requires Initial(start) && n <= |schedule|
    requires var s := After(start, schedule, n);
      && i < |s.agents| && j < |s.agents|
      && s.agents[i].phase == Returned(Written) && s.agents[j].phase == Returned(Written)
    ensures i == j && Final !in start.names
  {
    RunsAreSound(start, schedule, n);
    assert AgentSound(After(start, schedule, n), i);
    assert AgentSound(After(start, schedule, n), j);
  }

  lemma OnlyUnlinkFails(s: State, i: nat, j: nat, a: Action)
    requires i < |s.agents| && Step(s, j, a).agents[i].unlinkFailed && !s.agents[i].unlinkFailed
    ensures j == i && a == Unlink(false)
  {
  }

  /** Agent `i` has had an unlink fail by step `n`. */
  predicate HadUnlinkFail(start: State, schedule: seq<(nat, Action)>, n: nat, i: nat) {
    n <= |schedule| && i < |After(start, schedule, n).agents| && After(start, schedule, n).agents[i].unlinkFailed
  }

  lemma UnlinkFailsNowOrBefore(start: State, schedule: seq<(nat, Action)>, n: nat, i: nat)
    requires n < |schedule| && HadUnlinkFail(start, schedule, n + 1, i)
    ensures HadUnlinkFail(start, schedule, n, i) || schedule[n] == (i, Unlink(false))
  {
    if !HadUnlinkFail(start, schedule, n, i) {
      OnlyUnlinkFails(After(start, schedule, n), i, schedule[n].0, schedule[n].1);
    }
  }

  lemma {:induction false} UnlinkFailedBy(start: State, schedule: seq<(nat, Action)>, n: nat, i: nat) returns (m: nat)
    requires Initial(start) && i < |start.agents| && HadUnlinkFail(start, schedule, n, i)
    ensures m < n && schedule[m] == (i, Unlink(false))
  {
    m := n - 1;
    UnlinkFailsNowOrBefore(start, schedule, m, i);
    if schedule[m] != (i, Unlink(false)) {
      m := UnlinkFailedBy(start, schedule, m, i);
    }
  }

  /** An agent that returned has removed its temp file, unless its very unlink failed. */
  lemma NoTempLeftBehind(start: State, schedule: seq<(nat, Action)>, n: nat, i: nat)
    requires Initial(start) && n <= |schedule|
    requires i < |After(start, schedule, n).agents| && After(start, schedule, n).agents[i].phase.Returned?
    requires forall m :: 0 <= m < n ==> schedule[m] != (i, Unlink(false))
    ensures Temp(i) !in After(start, schedule, n).names
  {
    RunsAreSound(start, schedule, n);
    assert AgentSound(After(start, schedule, n), i);
    if After(start, schedule, n).agents[i].unlinkFailed {
      var m := UnlinkFailedBy(start, schedule, n, i);
    }
  }

  /** An agent that returned says it wrote the file exactly when the file is its own. */
  lemma WrittenIffItsFile(start: State, schedule: seq<(nat, Action)>, n: nat, i: nat)
    requires Initial(start) && n <= |schedule|
    requires i < |After(start, schedule, n).agents| && After(start, schedule, n).agents[i].phase.Returned?
    ensures var s := After(start, schedule, n);
      s.agents[i].phase.outcome == Written <==> Final in s.names && s.names[Final] == Of(i)
  {
    RunsAreSound(start, schedule, n);
    assert AgentSound(After(start, schedule, n), i);
  }

  lemma ReaderStep(s: State, i: nat, a: Action, read: Result<Bytes, IdError>)
    requires i < |s.agents| && ReadFinal(s) == Some(read)
    requires s.agents[i].phase.Starting? || s.agents[i].phase.Crashed? || s.agents[i].phase.Returned?
    ensures Step(s, i, a).agents[i].phase in {s.agents[i].phase, Crashed, FromRead(read)}
      || (a == ReadFails && Step(s, i, a).agents[i].phase == Returned(Refused(Unreadable)))
  {
  }

  /** Agent `i` has only read a file holding `bytes`: it is about to, crashed, or returned with what they
      give, or refused for a read of its own that failed. */
  predicate OnlyRead(phase: Phase, bytes: Bytes, schedule: seq<(nat, Action)>, n: nat, i: nat) {
    || phase == Starting || phase == Crashed
    || phase == FromRead(ParseIdFile(bytes))
    || (phase == Returned(Refused(Unreadable)) && exists m :: 0 <= m < n && m < |schedule| && schedule[m] == (i, ReadFails))
  }

  /** Over a file already there an agent only reads: it holds the file's id, is refused for what the
      file holds, or for a read of its own that failed. */
  lemma {:induction false} ExistingFileDecides(start: State, schedule: seq<(nat, Action)>, n: nat, i: nat)
    requires Initial(start) && n <= |schedule| && i < |start.agents| && Final in start.names
    ensures |After(start, schedule, n).agents| == |start.agents|
    ensures OnlyRead(After(start, schedule, n).agents[i].phase, start.contents[AtFirst], schedule, n, i)
  {
    if n > 0 {
      var s, j, a := After(start, schedule, n - 1), schedule[n - 1].0, schedule[n - 1].1;
      ExistingFileDecides(start, schedule, n - 1, i);
      RunsAreSound(start, schedule, n - 1);
      if j == i {
        ReaderStep(s, i, a, ParseIdFile(start.contents[AtFirst]));
      } else if j < |s.agents| {
        StepIsGood(start, s, j, a);
      }
    }
  }

  /** With the file missing at first, no agent is ever refused over what the file holds. */
  lemma OnlyFaultsRefuse(start: State, schedule: seq<(nat, Action)>, n: nat, i: nat)
    requires Initial(start) && n <= |schedule| && Final !in start.names
    requires var s := After(start, schedule, n);
      i < |s.agents| && s.agents[i].phase.Returned? && s.agents[i].phase.outcome.Refused?
    ensures var error := After(start, schedule, n).agents[i].phase.outcome.error;
      error == Unreadable || error == Unwritable || error == NoHardLinks
  {
    RunsAreSound(start, schedule, n);
    NeverTorn(start, schedule, n);
    assert AgentSound(After(start, schedule, n), i);
  }

  // ----- which fault a refusal is for -----

  /** What a failed step is refused as, in the phase that takes it. */
  function FaultOf(phase: Phase, a: Action): Option<IdError> {
    match (phase, a)
    case (Starting, ReadFails) => Some(Unreadable)
    case (Creating, CreateFails) => Some(Unwritable)
    case (Writing(_), WriteFails) => Some(Unwritable)
    case (Linking, LinkFails(noHardLinks)) => Some(if noHardLinks then NoHardLinks else Unwritable)
    case (FinalReading, ReadFails) => Some(Unreadable)
    case _ => None
  }

  /** Step `m` of the run is agent `i`'s, and fails as `error`. */
  ghost predicate FaultsAt(start: State, schedule: seq<(nat, Action)>, m: nat, i: nat, error: IdError) {
    m < |schedule| && schedule[m].0 == i && i < |After(start, schedule, m).agents| &&
    FaultOf(After(start, schedule, m).agents[i].phase, schedule[m].1) == Some(error)
  }

  /** The error an agent is on its way out with. */
  function LeavingWith(phase: Phase): Option<IdError> {
    match phase
    case Unlinking(LinkFailed(error)) => Some(error)
    case Returned(Refused(error)) => Some(error)
    case _ => None
  }

  /** A file missing at first reads back as an id whenever it is there. */
  ghost predicate ReadsAsId(s: State) {
    Final in s.names ==> ReadFinal(s).Some? && ReadFinal(s).value.Ok?
  }

  /** A phase after another: the way out is kept, or entered with `fault`, if any. */
  predicate LeavesBy(was: Phase, now: Phase, fault: Option<IdError>) {
    now.Crashed? || LeavingWith(now) == if LeavingWith(was).Some? then LeavingWith(was) else fault
  }

  lemma LeavingByReading(s: State, i: nat, a: Action)
    requires i < |s.agents| && ReadsAsId(s) && AgentSound(s, i)
    ensures s.agents[i].phase.Starting? ==>
      LeavesBy(s.agents[i].phase, StepStarting(s, i, a).agents[i].phase, FaultOf(s.agents[i].phase, a))
    ensures s.agents[i].phase.FinalReading? ==>
      LeavesBy(s.agents[i].phase, StepFinalReading(s, i, a).agents[i].phase, FaultOf(s.agents[i].phase, a))
  {
  }

  lemma LeavingByWriting(s: State, i: nat, a: Action)
    requires i < |s.agents| && (s.agents[i].phase.Creating? || s.agents[i].phase.Writing?)
    ensures LeavesBy(s.agents[i].phase, StepWriting(s, i, a).agents[i].phase, FaultOf(s.agents[i].phase, a))
  {
  }

  lemma LeavingByLinking(s: State, i: nat, a: Action)
    requires i < |s.agents| && s.agents[i].phase.Linking?
    ensures LeavesBy(s.agents[i].phase, StepLinking(s, i, a).agents[i].phase, FaultOf(s.agents[i].phase, a))
  {
  }

  lemma LeavingByUnlinking(s: State, i: nat, a: Action)
    requires i < |s.agents| && s.agents[i].phase.Unlinking?
    ensures LeavesBy(s.agents[i].phase, StepUnlinking(s, i, s.agents[i].phase.link, a).agents[i].phase, FaultOf(s.agents[i].phase, a))
  {
  }

  /** An agent on its way out stays so; one not yet so gets there by its own failed step alone. */
  lemma LeavingOnlyByFault(s: State, i: nat, a: Action)
    requires i < |s.agents| && ReadsAsId(s) && AgentSound(s, i)
    ensures LeavesBy(s.agents[i].phase, Step(s, i, a).agents[i].phase, FaultOf(s.agents[i].phase, a))
  {
    if !a.Crash? {
      match s.agents[i].phase {
        case Starting => LeavingByReading(s, i, a);
        case Creating => LeavingByWriting(s, i, a);
        case Writing(_) => LeavingByWriting(s, i, a);
        case Linking => LeavingByLinking(s, i, a);
        case Unlinking(_) => LeavingByUnlinking(s, i, a);
        case FinalReading => LeavingByReading(s, i, a);
        case Returned(_) =>
        case Crashed =>
      }
    }
  }

  lemma ReadsAsIdOnRuns(start: State, schedule: seq<(nat, Action)>, n: nat)
    requires Initial(start) && n <= |schedule| && Final !in start.names
    ensures ReadsAsId(After(start, schedule, n))
  {
    NeverTorn(start, schedule, n);
  }

  /** What step `n` of the run fails agent `i` with. */
  ghost function FaultAt(start: State, schedule: seq<(nat, Action)>, n: nat, i: nat): Option<IdError>
    requires n < |schedule| && i < |After(start, schedule, n).agents|
  {
    if schedule[n].0 == i then FaultOf(After(start, schedule, n).agents[i].phase, schedule[n].1) else None
  }

  lemma LeavingOnStep(start: State, s: State, i: nat, j: nat, a: Action)
    requires Sound(start, s) && ReadsAsId(s) && i < |s.agents|
    ensures LeavesBy(s.agents[i].phase, Step(s, j, a).agents[i].phase, if j == i then FaultOf(s.agents[i].phase, a) else None)
  {
    assert AgentSound(s, i);
    if j == i {
      LeavingOnlyByFault(s, i, a);
    } else if j < |s.agents| {
      StepIsGood(start, s, j, a);
    }
  }

  lemma LeavingOnRuns(start: State, schedule: seq<(nat, Action)>, n: nat, i: nat)
    requires Initial(start) && n < |schedule| && i < |start.agents| && Final !in start.names
    ensures |After(start, schedule, n).agents| == |After(start, schedule, n + 1).agents| == |start.agents|
    ensures LeavesBy(After(start, schedule, n).agents[i].phase, After(start, schedule, n + 1).agents[i].phase,
                     FaultAt(start, schedule, n, i))
  {
    RunsAreSound(start, schedule, n);
    ReadsAsIdOnRuns(start, schedule, n);
    LeavingOnStep(start, After(start, schedule, n), i, schedule[n].0, schedule[n].1);
  }

  /** After `n` steps agent `i` is on its way out with `error`. */
  ghost predicate LeavesWith(start: State, schedule: seq<(nat, Action)>, n: nat, i: nat, error: IdError) {
    n <= |schedule| && i < |After(start, schedule, n).agents| && LeavingWith(After(start, schedule, n).agents[i].phase) == Some(error)
  }

  lemma LeavesByThisStepOrBefore(start: State, schedule: seq<(nat, Action)>, n: nat, i: nat, error: IdError)
    requires Initial(start) && n < |schedule| && i < |start.agents| && Final !in start.names
    requires LeavesWith(start, schedule, n + 1, i, error)
    ensures LeavesWith(start, schedule, n, i, error) || FaultsAt(start, schedule, n, i, error)
  {
    LeavingOnRuns(start, schedule, n, i);
  }

  lemma {:induction false} LeavesByItsFault(start: State, schedule: seq<(nat, Action)>, n: nat, i: nat, error: IdError) returns (m: nat)
    requires Initial(start) && i < |start.agents| && Final !in start.names
    requires LeavesWith(start, schedule, n, i, error)
    ensures m < n && FaultsAt(start, schedule, m, i, error)
  {
    m := n - 1;
    LeavesByThisStepOrBefore(start, schedule, m, i, error);
    if !FaultsAt(start, schedule, m, i, error) {
      m := LeavesByItsFault(start, schedule, m, i, error);
    }
  }

  /** After `n` steps agent `i` has crashed or is on its way out with `error`. */
  ghost predicate CrashedOrLeaves(start: State, schedule: seq<(nat, Action)>, n: nat, i: nat, error: IdError) {
    n <= |schedule| && i < |After(start, schedule, n).agents| &&
    var phase := After(start, schedule, n).agents[i].phase;
    phase.Crashed? || LeavingWith(phase) == Some(error)
  }

  lemma CrashedStaysCrashed(start: State, schedule: seq<(nat, Action)>, n: nat, i: nat)
    requires n < |schedule| && i < |After(start, schedule, n).agents| && After(start, schedule, n).agents[i].phase.Crashed?
    ensures |After(start, schedule, n + 1).agents| == |After(start, schedule, n).agents|
    ensures After(start, schedule, n + 1).agents[i].phase.Crashed?
  {
  }

  lemma FaultPutsOut(start: State, schedule: seq<(nat, Action)>, n: nat, i: nat, error: IdError)
    requires Initial(start) && n < |schedule| && i < |start.agents| && Final !in start.names
    requires FaultsAt(start, schedule, n, i, error)
    ensures CrashedOrLeaves(start, schedule, n + 1, i, error)
  {
    LeavingOnRuns(start, schedule, n, i);
  }

  lemma StaysOut(start: State, schedule: seq<(nat, Action)>, n: nat, i: nat, error: IdError)
    requires Initial(start) && n < |schedule| && i < |start.agents| && Final !in start.names
    requires CrashedOrLeaves(start, schedule, n, i, error)
    ensures CrashedOrLeaves(start, schedule, n + 1, i, error)
  {
    LeavingOnRuns(start, schedule, n, i);
    if After(start, schedule, n).agents[i].phase.Crashed? {
      CrashedStaysCrashed(start, schedule, n, i);
    }
  }

  lemma {:induction false} OutForGood(start: State, schedule: seq<(nat, Action)>, m: nat, n: nat, i: nat, error: IdError)
    requires Initial(start) && m <= n <= |schedule| && i < |start.agents| && Final !in start.names
    requires CrashedOrLeaves(start, schedule, m, i, error)
    ensures CrashedOrLeaves(start, schedule, n, i, error)
  {
    if m < n {
      OutForGood(start, schedule, m, n - 1, i, error);
      StaysOut(start, schedule, n - 1, i, error);
    }
  }

  /** With the file missing at first, an agent that returned was refused exactly when one of its
      own steps failed, and for that failure: losing the race is no reason. */
  lemma RefusedIffFaulted(start: State, schedule: seq<(nat, Action)>, n: nat, i: nat, error: IdError)
    requires Initial(start) && n <= |schedule| && i < |start.agents| && Final !in start.names
    requires |After(start, schedule, n).agents| == |start.agents| && After(start, schedule, n).agents[i].phase.Returned?
    ensures After(start, schedule, n).agents[i].phase.outcome == Refused(error)
       <==> exists m :: 0 <= m < n && FaultsAt(start, schedule, m, i, error)
  {
    if exists m :: 0 <= m < n && FaultsAt(start, schedule, m, i, error) {
      var m :| 0 <= m < n && FaultsAt(start, schedule, m, i, error);
      FaultPutsOut(start, schedule, m, i, error);
      OutForGood(start, schedule, m + 1, n, i, error);
    }
    if After(start, schedule, n).agents[i].phase.outcome == Refused(error) {
      var m := LeavesByItsFault(start, schedule, n, i, error);
    }
  }

  // ----- an agent left alone -----

  /** The steps an agent takes when nothing fails. */
  function Solo(i: nat, id: Bytes): seq<(nat, Action)> {
    [(i, Read), (i, Create), (i, Write(|Line(id)|)), (i, Sync), (i, Link), (i, Unlink(true)), (i, Read)]
  }

  /** How far an agent on its way in or out is, once it has taken the first `k` of those steps. */
  predicate PastStep(agent: Agent, k: nat) {
    match agent.phase
    case Starting => k == 0
    case Creating => k <= 1
    case Writing(written) => k <= 2 || (k == 3 && written == |Line(agent.id)|)
    case Linking => k <= 4
    case Unlinking(_) => k <= 5
    case FinalReading => k == 0 || k == 6
    case Returned(_) => true
    case Crashed => false
  }

  lemma SoloReads(s: State, i: nat)
    requires i < |s.agents|
    ensures PastStep(StepStarting(s, i, Read).agents[i], 1)
    ensures PastStep(StepFinalReading(s, i, Read).agents[i], 7)
  {
  }

  lemma SoloWrites(s: State, i: nat, k: nat)
    requires i < |s.agents| && k < 7 && PastStep(s.agents[i], k) && (s.agents[i].phase.Creating? || s.agents[i].phase.Writing?)
    requires s.agents[i].phase.Writing? ==> s.agents[i].phase.written <= |Line(s.agents[i].id)|
    ensures PastStep(StepWriting(s, i, Solo(i, s.agents[i].id)[k].1).agents[i], k + 1)
  {
  }

  lemma SoloLinks(s: State, i: nat, k: nat)
    requires i < |s.agents| && k < 7 && PastStep(s.agents[i], k)
    ensures s.agents[i].phase.Linking? ==> PastStep(StepLinking(s, i, Solo(i, s.agents[i].id)[k].1).agents[i], k + 1)
    ensures s.agents[i].phase.Unlinking? ==>
      PastStep(StepUnlinking(s, i, s.agents[i].phase.link, Solo(i, s.agents[i].id)[k].1).agents[i], k + 1)
  {
  }

  lemma SoloStep(s: State, i: nat, k: nat)
    requires i < |s.agents| && k < 7 && PastStep(s.agents[i], k) && AgentSound(s, i)
    ensures PastStep(Step(s, i, Solo(i, s.agents[i].id)[k].1).agents[i], k + 1)
  {
    match s.agents[i].phase {
      case Starting => SoloReads(s, i);
      case Creating => SoloWrites(s, i, k);
      case Writing(_) => SoloWrites(s, i, k);
      case Linking => SoloLinks(s, i, k);
      case Unlinking(_) => SoloLinks(s, i, k);
      case FinalReading => SoloReads(s, i);
      case Returned(_) =>
      case Crashed =>
    }
  }

  lemma SoundReadsAsId(start: State, s: State)
    requires Initial(start) && Sound(start, s) && Final !in start.names
    ensures ReadsAsId(s)
  {
    if Final in s.names {
      var w := s.names[Final].agent;
      assert AgentSound(s, w);
      IdFileRoundTrip(s.agents[w].id);
    }
  }

  /** What `k` of its own steps, taken alone, make of agent `i`: it goes on, leaves every other agent as
      it was, and is refused for nothing new. */
  ghost predicate WentOn(start: State, s: State, t: State, i: nat, k: nat)
    requires i < |s.agents|
  {
    && Sound(start, t) && |t.agents| == |s.agents| && PastStep(t.agents[i], k)
    && (forall j :: 0 <= j < |s.agents| && j != i ==> t.agents[j] == s.agents[j])
    && t.agents[i].unlinkFailed == s.agents[i].unlinkFailed
    && (Final !in start.names && LeavingWith(s.agents[i].phase).None? ==> LeavingWith(t.agents[i].phase).None?)
  }

  lemma SoloKeepsUnlink(s: State, i: nat, k: nat)
    requires i < |s.agents| && k < 7
    ensures Step(s, i, Solo(i, s.agents[i].id)[k].1).agents[i].unlinkFailed == s.agents[i].unlinkFailed
  {
  }

  lemma GoesOn(start: State, s: State, t: State, i: nat, k: nat)
    requires Initial(start) && i < |s.agents| && k < 7 && WentOn(start, s, t, i, k)
    ensures WentOn(start, s, Step(t, i, Solo(i, t.agents[i].id)[k].1), i, k + 1)
  {
    var a := Solo(i, t.agents[i].id)[k].1;
    assert AgentSound(t, i);
    SoloStep(t, i, k);
    SoloKeepsUnlink(t, i, k);
    StepKeepsSound(start, t, i, a);
    StepIsGood(start, t, i, a);
    if Final !in start.names {
      SoundReadsAsId(start, t);
      LeavingOnlyByFault(t, i, a);
      assert FaultOf(t.agents[i].phase, a) == None;
    }
  }

  lemma {:induction false} AloneGoesOn(start: State, s: State, i: nat, k: nat)
    requires Initial(start) && Sound(start, s) && i < |s.agents| && !s.agents[i].phase.Crashed? && k <= 7
    ensures WentOn(start, s, After(s, Solo(i, s.agents[i].id), k), i, k)
  {
    if k > 0 {
      AloneGoesOn(start, s, i, k - 1);
      GoesOn(start, s, After(s, Solo(i, s.agents[i].id), k - 1), i, k - 1);
    }
  }

  /**
   From any point of any run, an agent that has not crashed and is left alone with nothing failing
   returns within seven steps, its temp file gone. With the file missing at first it returns with an
   id, unless a step of its own had failed already: it waits for no other agent, crashed or not.
   */
  lemma LeftAloneReturns(start: State, schedule: seq<(nat, Action)>, n: nat, i: nat)
    requires Initial(start) && n <= |schedule| && i < |After(start, schedule, n).agents|
    requires !After(start, schedule, n).agents[i].phase.Crashed?
    ensures var s := After(start, schedule, n);
      var t := After(s, Solo(i, s.agents[i].id), 7);
      && Sound(start, t) && |t.agents| == |s.agents| && t.agents[i].phase.Returned?
      && (!s.agents[i].unlinkFailed ==> Temp(i) !in t.names)
      && (Final !in start.names && LeavingWith(s.agents[i].phase).None? ==> Holds(t.agents[i]).Some?)
  {
    RunsAreSound(start, schedule, n);
    var s := After(start, schedule, n);
    AloneGoesOn(start, s, i, 7);
    var t := After(s, Solo(i, s.agents[i].id), 7);
    assert AgentSound(t, i);
  }

  /** And the first agent there, left alone, writes the file with its own id. */
  lemma FirstAloneWrites(start: State, i: nat)
    requires Initial(start) && i < |start.agents| && Final !in start.names
    ensures var t := After(start, Solo(i, start.agents[i].id), 7);
      |t.agents| == |start.agents| && t.agents[i].phase == Returned(Written) && FileHolds(t, start.agents[i].id + [NEWLINE])
  {
    InitialIsSound(start);
    AloneGoesOn(start, start, i, 7);
    var t := After(start, Solo(i, start.agents[i].id), 7);
    assert AgentSound(t, i) && Holds(t.agents[i]).Some?;
    var w := t.names[Final].agent;
    assert AgentSound(t, w);
    assert w == i;
  }
}
