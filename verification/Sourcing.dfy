/**
 Where each reading group comes from on a tick (src/environment/sourcing.rs): the kernel until
 the monitored cgroup is first read, then the cgroup for good, its last values carried for
 30 s past a failure and unavailable after.
 */
module Sourcing {
  import opened Basics
  import opened Capacity

  const CARRY_BOUND := 30 * SECOND
  const MIN_USAGE_INTERVAL := SECOND / 2

  datatype Origin = Cgroup | Kernel | Carried | Unavailable

  datatype Sourced<+G> = Sourced(value: G, origin: Origin)

  /** A file that gave no value; which file it was is only logged. */
  datatype Failure = File | Vanished | NoDelta

  datatype Warning = KernelFallback(failure: Failure) | Carrying(failure: Failure) | CarryExpired

  datatype Carry = Reading | Since(since: nat) | Expired

  datatype GroupHistory<+G> = Untouched | KernelFailing | FromCgroup(last: G, carry: Carry)

  datatype Step<+G> = Step(sourced: Sourced<G>, history: GroupHistory<G>, warning: Option<Warning>)

  /** One tick of one group: its cgroup attempt (`None` for an absent usage file), the
      kernel's values, and the monotonic instant. */
  datatype GroupTick<+G> = GroupTick(read: Result<Option<G>, Failure>, kernel: G, now: nat)

  function SourceGroup<G>(history: GroupHistory<G>, t: GroupTick<G>): Step<G> {
    match (history, t.read)
    case (_, Ok(Some(value))) => Step(Sourced(value, Cgroup), FromCgroup(value, Reading), None)
    case (Untouched, Ok(None)) => Step(Sourced(t.kernel, Kernel), Untouched, None)
    case (Untouched, Err(failure)) => Step(Sourced(t.kernel, Kernel), KernelFailing, Some(KernelFallback(failure)))
    case (KernelFailing, _) => Step(Sourced(t.kernel, Kernel), KernelFailing, None)
    case (FromCgroup(last, carry), Ok(None)) => CarriedGroup(last, carry, Vanished, t.now)
    case (FromCgroup(last, carry), Err(failure)) => CarriedGroup(last, carry, failure, t.now)
  }

  function CarriedGroup<G>(last: G, carry: Carry, failure: Failure, now: nat): Step<G> {
    match carry
    case Reading => Step(Sourced(last, Carried), FromCgroup(last, Since(now)), Some(Carrying(failure)))
    case Since(since) =>
      if SatSub(now, since) <= CARRY_BOUND
      then Step(Sourced(last, Carried), FromCgroup(last, Since(since)), None)
      else Step(Sourced(last, Unavailable), FromCgroup(last, Expired), Some(CarryExpired))
    case Expired => Step(Sourced(last, Unavailable), FromCgroup(last, Expired), None)
  }

  // ----- a group's whole history -----

  function HistoryAfter<G>(h: seq<GroupTick<G>>): GroupHistory<G> {
    if h == [] then Untouched else SourceGroup(HistoryAfter(h[..|h| - 1]), h[|h| - 1]).history
  }

  /** What tick `n` of `h` decided. */
  function StepAt<G>(h: seq<GroupTick<G>>, n: nat): Step<G>
    requires n < |h|
  {
    SourceGroup(HistoryAfter(h[..n]), h[n])
  }

  predicate Succeeded<G>(t: GroupTick<G>) {
    t.read.Ok? && t.read.value.Some?
  }

  function FailureOf<G>(t: GroupTick<G>): Failure
    requires !Succeeded(t)
  {
    match t.read
    case Ok(_) => Vanished
    case Err(failure) => failure
  }

  /** No cgroup read succeeded in the first `n` ticks. */
  ghost predicate NeverRead<G>(h: seq<GroupTick<G>>, n: int) {
    n <= |h| && forall j :: 0 <= j < n ==> !Succeeded(h[j])
  }

  /** Tick `k` is the last success among the first `n` ticks. */
  ghost predicate LastSuccess<G>(h: seq<GroupTick<G>>, n: int, k: int) {
    0 <= k < n <= |h| && Succeeded(h[k]) && forall j :: k < j < n ==> !Succeeded(h[j])
  }

  /** Tick `j` came past the bound since the failures after tick `k` began. */
  predicate Overdue<G>(h: seq<GroupTick<G>>, k: int, j: int) {
    0 <= k < j < |h| && SatSub(h[j].now, h[k + 1].now) > CARRY_BOUND
  }

  ghost predicate WentOverdue<G>(h: seq<GroupTick<G>>, k: int, n: int) {
    exists j :: k < j < n && Overdue(h, k, j)
  }

  ghost predicate CarryIs<G>(h: seq<GroupTick<G>>, n: int, k: int, carry: Carry)
    requires LastSuccess(h, n, k)
  {
    match carry
    case Reading => k == n - 1
    case Since(since) => k < n - 1 && since == h[k + 1].now && !WentOverdue(h, k, n)
    case Expired => WentOverdue(h, k, n)
  }

  /** What the first `n` ticks say a group's history is. */
  ghost predicate Describes<G>(h: seq<GroupTick<G>>, n: nat, history: GroupHistory<G>) {
    n <= |h| &&
    match history
    case Untouched => forall j :: 0 <= j < n ==> h[j].read == Ok(None)
    case KernelFailing => NeverRead(h, n) && exists j :: 0 <= j < n && h[j].read.Err?
    case FromCgroup(last, carry) =>
      exists k :: LastSuccess(h, n, k) && h[k].read == Ok(Some(last)) && CarryIs(h, n, k, carry)
  }

  /** A failing tick of a group read from the cgroup moves its carry as its streak says. */
  lemma CarryAfterFailure<G>(h: seq<GroupTick<G>>, n: nat, k: nat, last: G, carry: Carry, failure: Failure)
    requires n < |h| && !Succeeded(h[n]) && LastSuccess(h, n, k) && CarryIs(h, n, k, carry)
    ensures LastSuccess(h, n + 1, k)
    ensures CarryIs(h, n + 1, k, CarriedGroup(last, carry, failure, h[n].now).history.carry)
  {
    var upto := n + 1;
    assert LastSuccess(h, upto, k);
    assert WentOverdue(h, k, upto) <==> WentOverdue(h, k, n) || Overdue(h, k, n);
  }

  lemma DescribesAfterTick<G>(h: seq<GroupTick<G>>, n: nat, history: GroupHistory<G>)
    requires n < |h| && Describes(h, n, history)
    ensures Describes(h, n + 1, SourceGroup(history, h[n]).history)
  {
    var upto := n + 1;
    if Succeeded(h[n]) {
      assert LastSuccess(h, upto, n) && CarryIs(h, upto, n, Reading);
    } else if history.FromCgroup? {
      var k :| LastSuccess(h, n, k) && h[k].read == Ok(Some(history.last)) && CarryIs(h, n, k, history.carry);
      CarryAfterFailure(h, n, k, history.last, history.carry, FailureOf(h[n]));
      assert LastSuccess(h, upto, k);
    }
  }

  lemma {:induction false} HistoryMatchesTicks<G>(h: seq<GroupTick<G>>, n: nat)
    requires n <= |h|
    ensures Describes(h, n, HistoryAfter(h[..n]))
  {
    if n > 0 {
      HistoryMatchesTicks(h, n - 1);
      assert h[..n][..n - 1] == h[..n - 1];
      DescribesAfterTick(h, n - 1, HistoryAfter(h[..n - 1]));
    }
  }

  lemma LastSuccessIsUnique<G>(h: seq<GroupTick<G>>, n: int, k: int, k': int)
    requires LastSuccess(h, n, k) && LastSuccess(h, n, k')
    ensures k == k'
  {
  }

  /** The last success of the first `n` ticks still stands: its streak never went overdue. */
  ghost predicate StillStands<G>(h: seq<GroupTick<G>>, n: nat) {
    exists k :: LastSuccess(h, n, k) && !WentOverdue(h, k, n)
  }

  ghost predicate StandsNoLonger<G>(h: seq<GroupTick<G>>, n: nat) {
    exists k :: LastSuccess(h, n, k) && WentOverdue(h, k, n)
  }

  ghost predicate ReadLast<G>(h: seq<GroupTick<G>>, n: nat, value: G) {
    exists k :: LastSuccess(h, n, k) && h[k].read == Ok(Some(value))
  }

  /**
   Where tick `n`'s values came from, by its history alone: the kernel until a cgroup read
   succeeds and never after; this read; or the last success's values, carried until a tick of
   the failing streak came more than 30 s after the streak began.
   */
  lemma OriginByHistory<G>(h: seq<GroupTick<G>>, n: nat)
    requires n < |h|
    ensures var s := StepAt(h, n).sourced;
      && (s.origin == Kernel <==> NeverRead(h, n + 1))
      && (if s.origin == Kernel then s.value == h[n].kernel else ReadLast(h, n + 1, s.value))
      && (s.origin == Cgroup <==> Succeeded(h[n]))
      && (s.origin == Carried <==> !Succeeded(h[n]) && StillStands(h, n + 1))
      && (s.origin == Unavailable <==> StandsNoLonger(h, n + 1))
  {
    HistoryMatchesTicks(h, n);
    var history, upto := HistoryAfter(h[..n]), n + 1;
    if Succeeded(h[n]) {
      assert LastSuccess(h, upto, n);
      forall k | LastSuccess(h, upto, k) ensures k == n { LastSuccessIsUnique(h, upto, k, n); }
    } else if history.FromCgroup? {
      var k :| LastSuccess(h, n, k) && h[k].read == Ok(Some(history.last)) && CarryIs(h, n, k, history.carry);
      assert LastSuccess(h, upto, k);
      assert WentOverdue(h, k, upto) <==> WentOverdue(h, k, n) || Overdue(h, k, n);
      forall k' | LastSuccess(h, upto, k') ensures k' == k { LastSuccessIsUnique(h, upto, k', k); }
    } else {
      assert NeverRead(h, upto);
    }
  }

  ghost predicate NonDecreasing<G>(h: seq<GroupTick<G>>) {
    ClockNeverSteps(h, (t: GroupTick<G>) => t.now)
  }

  /** On the monotonic clock, carried means at most 30 s since the streak's first failure. */
  lemma CarriedIffWithinBound<G>(h: seq<GroupTick<G>>, n: nat, k: int)
    requires NonDecreasing(h) && n < |h| && LastSuccess(h, n + 1, k) && k < n
    ensures StepAt(h, n).sourced.origin == if h[n].now - h[k + 1].now <= CARRY_BOUND then Carried else Unavailable
  {
    OriginByHistory(h, n);
    var upto := n + 1;
    if h[n].now - h[k + 1].now > CARRY_BOUND {
      assert Overdue(h, k, n);
    }
    forall k' | LastSuccess(h, upto, k') ensures k' == k { LastSuccessIsUnique(h, upto, k', k); }
  }

  // ----- warnings -----

  /** The first tick of a streak past the bound. */
  ghost predicate FirstOverdue<G>(h: seq<GroupTick<G>>, k: int, n: int) {
    Overdue(h, k, n) && !WentOverdue(h, k, n)
  }

  /** The warning this tick's history calls for. */
  ghost predicate CallsForFallback<G>(h: seq<GroupTick<G>>, n: nat) {
    n < |h| && h[n].read.Err? && forall j :: 0 <= j < n ==> h[j].read == Ok(None)
  }

  predicate CallsForCarrying<G>(h: seq<GroupTick<G>>, n: nat) {
    0 < n < |h| && Succeeded(h[n - 1]) && !Succeeded(h[n])
  }

  ghost predicate CallsForExpiry<G>(h: seq<GroupTick<G>>, n: nat) {
    n < |h| && !Succeeded(h[n]) && exists k :: LastSuccess(h, n, k) && FirstOverdue(h, k, n)
  }

  /** Exactly which tick warns, and of what. */
  lemma WarningByHistory<G>(h: seq<GroupTick<G>>, n: nat)
    requires n < |h|
    ensures StepAt(h, n).warning ==
      if CallsForFallback(h, n) then Some(KernelFallback(h[n].read.error))
      else if CallsForCarrying(h, n) then Some(Carrying(FailureOf(h[n])))
      else if CallsForExpiry(h, n) then Some(CarryExpired)
      else None
  {
    HistoryMatchesTicks(h, n);
    var history := HistoryAfter(h[..n]);
    if history.FromCgroup? {
      var k :| LastSuccess(h, n, k) && h[k].read == Ok(Some(history.last)) && CarryIs(h, n, k, history.carry);
      forall k' | LastSuccess(h, n, k') ensures k' == k { LastSuccessIsUnique(h, n, k', k); }
      if !Succeeded(h[n]) && history.carry.Since? {
        assert FirstOverdue(h, k, n) <==> Overdue(h, k, n);
      }
    }
  }

  /** A group says once in its life that it fell back to the kernel. */
  lemma FallbackWarnsOnce<G>(h: seq<GroupTick<G>>, m: nat, n: nat)
    requires m < n < |h|
    requires StepAt(h, m).warning.Some? && StepAt(h, m).warning.value.KernelFallback?
    ensures StepAt(h, n).warning.None? || !StepAt(h, n).warning.value.KernelFallback?
  {
    WarningByHistory(h, m);
    WarningByHistory(h, n);
  }

  /** A failing streak after a success warns once that it carries, on its first tick, and at
      most once that it expired. */
  lemma StreakWarnsOnce<G>(h: seq<GroupTick<G>>, k: nat, m: nat, n: nat)
    requires m < n < |h| && LastSuccess(h, n + 1, k) && k < m
    ensures StepAt(h, k + 1).warning == Some(Carrying(FailureOf(h[k + 1])))
    ensures StepAt(h, n).warning.None? || !StepAt(h, n).warning.value.Carrying?
    ensures StepAt(h, m).warning == Some(CarryExpired) ==> StepAt(h, n).warning != Some(CarryExpired)
  {
    WarningByHistory(h, k + 1);
    WarningByHistory(h, m);
    WarningByHistory(h, n);
    assert LastSuccess(h, m, k) && LastSuccess(h, n, k);
  }

  // ----- the groups -----

  datatype CpuGroup = CpuGroup(usage: Option<real>, capacity: CpuCount)
  datatype MemoryGroup = MemoryGroup(total: nat, used: nat, free: nat, available: nat, limit: Option<Limit<nat>>)
  datatype SwapGroup = SwapGroup(total: nat, used: nat, free: nat, limit: Option<Limit<nat>>)

  datatype CpuCounters = CpuCounters(usage: nat, readAt: nat)
  datatype CpuFiles = CpuFiles(counters: CpuCounters, quotas: seq<Limit<CpuCount>>, cpuset: Limit<CpuCount>)
  datatype MemoryFiles = MemoryFiles(current: nat, inactiveFile: nat, limits: seq<Limit<nat>>)
  datatype SwapFiles = SwapFiles(current: nat, limits: seq<Limit<nat>>)

  /** One tick's attempt at a group's files. */
  datatype CgroupRead<+T> = Read(files: T) | Absent | Failed

  datatype CgroupReadings = CgroupReadings(cpu: CgroupRead<CpuFiles>, memory: CgroupRead<MemoryFiles>, swap: CgroupRead<SwapFiles>)
  datatype KernelReadings = KernelReadings(cpu: CpuGroup, memory: MemoryGroup, swap: SwapGroup)

  /** `value` held to 0 to 100. */
  function Saturating(value: real): real {
    if value < 0.0 then 0.0 else if value > 100.0 then 100.0 else value
  }

  /** The share of `capacity` used between two readings (src/environment/usage.rs). */
  function CpuUsage(prev: CpuCounters, cur: CpuCounters, capacity: CpuCount): Option<real> {
    if cur.readAt < prev.readAt || cur.usage < prev.usage || cur.readAt - prev.readAt < MIN_USAGE_INTERVAL then None
    else
      var wall, used := (cur.readAt - prev.readAt) as real, (cur.usage - prev.usage) as real;
      assert wall * capacity > 0.0;
      Some(Saturating(used / (wall * capacity) * 100.0))
  }

  function CpuGroupOf(files: CpuFiles, prev: Option<CpuCounters>, host: CpuCount): Result<CpuGroup, Failure> {
    var capacity := CpuCapacity(host, files.quotas, files.cpuset);
    match prev
    case None => Err(NoDelta)
    case Some(before) =>
      match CpuUsage(before, files.counters, capacity)
      case Some(usage) => Ok(CpuGroup(Some(usage), capacity))
      case None => Err(NoDelta)
  }

  function MemoryGroupOf(files: MemoryFiles, host: nat): MemoryGroup {
    var total := MemoryCapacity(host, files.limits);
    var used := Min(SatSub(files.current, files.inactiveFile), total);
    MemoryGroup(total, used, SatSub(total, files.current), SatSub(total, used), Some(Tightest(files.limits)))
  }

  function SwapGroupOf(files: SwapFiles, host: nat): SwapGroup {
    var total := MemoryCapacity(host, files.limits);
    var used := Min(files.current, total);
    SwapGroup(total, used, SatSub(total, used), Some(Tightest(files.limits)))
  }

  /** One tick of all three groups. */
  datatype ReadTick = ReadTick(cgroup: Option<CgroupReadings>, kernel: KernelReadings, prevCpu: Option<CpuCounters>, now: nat)

  function CpuTick(t: ReadTick): GroupTick<CpuGroup> {
    var read := match t.cgroup
      case None => Ok(None)
      case Some(c) =>
        match c.cpu
        case Absent => Ok(None)
        case Failed => Err(File)
        case Read(files) =>
          match CpuGroupOf(files, t.prevCpu, t.kernel.cpu.capacity)
          case Ok(group) => Ok(Some(group))
          case Err(failure) => Err(failure);
    GroupTick(read, t.kernel.cpu, t.now)
  }

  function MemoryTick(t: ReadTick): GroupTick<MemoryGroup> {
    var read := match t.cgroup
      case None => Ok(None)
      case Some(c) =>
        match c.memory
        case Absent => Ok(None)
        case Failed => Err(File)
        case Read(files) => Ok(Some(MemoryGroupOf(files, t.kernel.memory.total)));
    GroupTick(read, t.kernel.memory, t.now)
  }

  function SwapTick(t: ReadTick): GroupTick<SwapGroup> {
    var read := match t.cgroup
      case None => Ok(None)
      case Some(c) =>
        match c.swap
        case Absent => Ok(None)
        case Failed => Err(File)
        case Read(files) => Ok(Some(SwapGroupOf(files, t.kernel.swap.total)));
    GroupTick(read, t.kernel.swap, t.now)
  }

  datatype Group = CpuReadings | MemoryReadings | SwapReadings
  datatype SourcingWarning = SourcingWarning(group: Group, warning: Warning)
  datatype SourcingHistory = SourcingHistory(cpu: GroupHistory<CpuGroup>, memory: GroupHistory<MemoryGroup>, swap: GroupHistory<SwapGroup>)
  datatype SourcedReadings = SourcedReadings(cpu: Sourced<CpuGroup>, memory: Sourced<MemoryGroup>, swap: Sourced<SwapGroup>)
  datatype Choice = Choice(readings: SourcedReadings, history: SourcingHistory, warnings: seq<SourcingWarning>)

  const AT_START := SourcingHistory(Untouched, Untouched, Untouched)

  function Warned(group: Group, warning: Option<Warning>): seq<SourcingWarning> {
    match warning
    case Some(w) => [SourcingWarning(group, w)]
    case None => []
  }

  function ChooseReadings(t: ReadTick, history: SourcingHistory): Choice {
    var cpu := SourceGroup(history.cpu, CpuTick(t));
    var memory := SourceGroup(history.memory, MemoryTick(t));
    var swap := SourceGroup(history.swap, SwapTick(t));
    Choice(
      SourcedReadings(cpu.sourced, memory.sourced, swap.sourced),
      SourcingHistory(cpu.history, memory.history, swap.history),
      Warned(CpuReadings, cpu.warning) + Warned(MemoryReadings, memory.warning) + Warned(SwapReadings, swap.warning))
  }

  function SourcingAfter(h: seq<ReadTick>): SourcingHistory {
    if h == [] then AT_START else ChooseReadings(h[|h| - 1], SourcingAfter(h[..|h| - 1])).history
  }

  function ChoiceAt(h: seq<ReadTick>, n: nat): Choice
    requires n < |h|
  {
    ChooseReadings(h[n], SourcingAfter(h[..n]))
  }

  function CpuTicks(h: seq<ReadTick>): seq<GroupTick<CpuGroup>> {
    seq(|h|, k requires 0 <= k < |h| => CpuTick(h[k]))
  }

  function MemoryTicks(h: seq<ReadTick>): seq<GroupTick<MemoryGroup>> {
    seq(|h|, k requires 0 <= k < |h| => MemoryTick(h[k]))
  }

  function SwapTicks(h: seq<ReadTick>): seq<GroupTick<SwapGroup>> {
    seq(|h|, k requires 0 <= k < |h| => SwapTick(h[k]))
  }

  /** The three groups never touch each other's history. */
  lemma {:induction false} GroupsAreIndependent(h: seq<ReadTick>)
    ensures SourcingAfter(h) == SourcingHistory(HistoryAfter(CpuTicks(h)), HistoryAfter(MemoryTicks(h)), HistoryAfter(SwapTicks(h)))
  {
    if h != [] {
      var p := h[..|h| - 1];
      GroupsAreIndependent(p);
      assert CpuTicks(h)[..|h| - 1] == CpuTicks(p);
      assert MemoryTicks(h)[..|h| - 1] == MemoryTicks(p);
      assert SwapTicks(h)[..|h| - 1] == SwapTicks(p);
    }
  }

  lemma ChoiceByGroup(h: seq<ReadTick>, n: nat)
    requires n < |h|
    ensures ChoiceAt(h, n).readings == SourcedReadings(
      StepAt(CpuTicks(h), n).sourced, StepAt(MemoryTicks(h), n).sourced, StepAt(SwapTicks(h), n).sourced)
  {
    GroupsAreIndependent(h[..n]);
    assert CpuTicks(h)[..n] == CpuTicks(h[..n]);
    assert MemoryTicks(h)[..n] == MemoryTicks(h[..n]);
    assert SwapTicks(h)[..n] == SwapTicks(h[..n]);
  }

  /** What group `g` warned of on tick `n`. */
  function WarningOf(g: Group, h: seq<ReadTick>, n: nat): Option<Warning>
    requires n < |h|
  {
    match g
    case CpuReadings => StepAt(CpuTicks(h), n).warning
    case MemoryReadings => StepAt(MemoryTicks(h), n).warning
    case SwapReadings => StepAt(SwapTicks(h), n).warning
  }

  /** A tick passes on each group's warning under that group's name, once, and no other. */
  lemma WarningsByGroup(h: seq<ReadTick>, n: nat)
    requires n < |h|
    ensures ChoiceAt(h, n).warnings ==
      Warned(CpuReadings, WarningOf(CpuReadings, h, n)) + Warned(MemoryReadings, WarningOf(MemoryReadings, h, n))
      + Warned(SwapReadings, WarningOf(SwapReadings, h, n))
  {
    GroupsAreIndependent(h[..n]);
    assert CpuTicks(h)[..n] == CpuTicks(h[..n]);
    assert MemoryTicks(h)[..n] == MemoryTicks(h[..n]);
    assert SwapTicks(h)[..n] == SwapTicks(h[..n]);
  }

  lemma InOneOfThree(a: seq<SourcingWarning>, b: seq<SourcingWarning>, c: seq<SourcingWarning>, w: SourcingWarning)
    ensures w in a + b + c <==> w in a || w in b || w in c
  {
  }

  lemma WarnedIff(h: seq<ReadTick>, n: nat, g: Group, w: Warning)
    requires n < |h|
    ensures SourcingWarning(g, w) in ChoiceAt(h, n).warnings <==> WarningOf(g, h, n) == Some(w)
  {
    WarningsByGroup(h, n);
    InOneOfThree(Warned(CpuReadings, WarningOf(CpuReadings, h, n)), Warned(MemoryReadings, WarningOf(MemoryReadings, h, n)),
                 Warned(SwapReadings, WarningOf(SwapReadings, h, n)), SourcingWarning(g, w));
  }

  // ----- what a tick's files come to -----

  /** The tick offers no file for the group: there is no cgroup, or its usage file is absent. */
  predicate NoFileFor(g: Group, t: ReadTick) {
    t.cgroup.None? ||
    match g
    case CpuReadings => t.cgroup.value.cpu.Absent?
    case MemoryReadings => t.cgroup.value.memory.Absent?
    case SwapReadings => t.cgroup.value.swap.Absent?
  }

  /** A file of the group's was there and could not be read. */
  predicate FileFailedFor(g: Group, t: ReadTick) {
    t.cgroup.Some? &&
    match g
    case CpuReadings => t.cgroup.value.cpu.Failed?
    case MemoryReadings => t.cgroup.value.memory.Failed?
    case SwapReadings => t.cgroup.value.swap.Failed?
  }

  /** The CPU's files were read, but there is no usage between two readings: no reading before this
      one, a counter that went back, or under half a second between. */
  predicate NoDeltaOn(t: ReadTick) {
    t.cgroup.Some? && t.cgroup.value.cpu.Read? &&
    (t.prevCpu.None? ||
     var (prev, cur) := (t.prevCpu.value, t.cgroup.value.cpu.files.counters);
     cur.usage < prev.usage || cur.readAt < prev.readAt + MIN_USAGE_INTERVAL)
  }

  /** How the tick failed the group, if it did. */
  function FailureFor(g: Group, t: ReadTick): Option<Failure> {
    if FileFailedFor(g, t) then Some(File)
    else if g.CpuReadings? && NoDeltaOn(t) then Some(NoDelta)
    else None
  }

  /** `tick` attempts the group as `t`'s files say. */
  predicate AttemptsAs<G>(tick: GroupTick<G>, g: Group, t: ReadTick) {
    && (tick.read == Ok(None) <==> NoFileFor(g, t))
    && (tick.read.Err? <==> FailureFor(g, t).Some?)
    && (tick.read.Err? ==> FailureFor(g, t) == Some(tick.read.error))
    && tick.now == t.now
  }

  lemma AttemptsByFiles(t: ReadTick)
    ensures AttemptsAs(CpuTick(t), CpuReadings, t) && CpuTick(t).kernel == t.kernel.cpu
    ensures AttemptsAs(MemoryTick(t), MemoryReadings, t) && MemoryTick(t).kernel == t.kernel.memory
    ensures AttemptsAs(SwapTick(t), SwapReadings, t) && SwapTick(t).kernel == t.kernel.swap
  {
    if t.cgroup.Some? && t.cgroup.value.cpu.Read? && t.prevCpu.Some? {
      var files := t.cgroup.value.cpu.files;
      CpuUsageIsAShare(t.prevCpu.value, files.counters, CpuCapacity(t.kernel.cpu.capacity, files.quotas, files.cpuset));
    }
  }

  /** Tick `n` is the first that offers the group any file, and fails it. */
  ghost predicate FirstFailsFor(g: Group, h: seq<ReadTick>, n: nat, failure: Failure) {
    n < |h| && FailureFor(g, h[n]) == Some(failure) && forall j :: 0 <= j < n ==> NoFileFor(g, h[j])
  }

  /** The fallback of one group to the kernel, by its own ticks. */
  lemma FallbackByTicks<G>(h: seq<GroupTick<G>>, g: Group, ticks: seq<ReadTick>, n: nat, failure: Failure)
    requires |h| == |ticks| && n < |h| && forall j :: 0 <= j < |h| ==> AttemptsAs(h[j], g, ticks[j])
    ensures StepAt(h, n).warning == Some(KernelFallback(failure)) <==> FirstFailsFor(g, ticks, n, failure)
  {
    WarningByHistory(h, n);
    assert forall j :: 0 <= j < n ==> (h[j].read == Ok(None) <==> NoFileFor(g, ticks[j]));
    assert h[n].read.Err? ==> FailureFor(g, ticks[n]) == Some(h[n].read.error);
  }

  /** A group is said to fall back to the kernel exactly when its first file fails. One whose files
      are never there, as on a host without that controller, is never said to. */
  lemma FallbackWarnedIff(h: seq<ReadTick>, n: nat, g: Group, failure: Failure)
    requires n < |h|
    ensures SourcingWarning(g, KernelFallback(failure)) in ChoiceAt(h, n).warnings <==> FirstFailsFor(g, h, n, failure)
  {
    WarnedIff(h, n, g, KernelFallback(failure));
    forall j | 0 <= j < |h|
      ensures AttemptsAs(CpuTick(h[j]), CpuReadings, h[j]) && AttemptsAs(MemoryTick(h[j]), MemoryReadings, h[j])
           && AttemptsAs(SwapTick(h[j]), SwapReadings, h[j])
    {
      AttemptsByFiles(h[j]);
    }
    match g {
      case CpuReadings => FallbackByTicks(CpuTicks(h), g, h, n, failure);
      case MemoryReadings => FallbackByTicks(MemoryTicks(h), g, h, n, failure);
      case SwapReadings => FallbackByTicks(SwapTicks(h), g, h, n, failure);
    }
  }

  ghost predicate MemoryAddsUp(g: MemoryGroup) {
    g.used + g.available == g.total && g.free <= g.available <= g.total
  }

  ghost predicate SwapAddsUp(g: SwapGroup) {
    g.used + g.free == g.total
  }

  /** A value not from the kernel was read by some tick up to this one. */
  lemma ReadBySomeTick<G>(h: seq<GroupTick<G>>, n: nat) returns (k: nat)
    requires n < |h| && StepAt(h, n).sourced.origin != Kernel
    ensures k <= n && h[k].read == Ok(Some(StepAt(h, n).sourced.value))
  {
    OriginByHistory(h, n);
    var upto := n + 1;
    k := SomeLastSuccess(h, upto);
    var value := StepAt(h, n).sourced.value;
    assert ReadLast(h, upto, value);
    var k' :| LastSuccess(h, upto, k') && h[k'].read == Ok(Some(value));
    LastSuccessIsUnique(h, upto, k, k');
  }

  /** The working set: what is held less the cache that can be reclaimed, none when that is more. */
  function WorkingSet(files: MemoryFiles): nat {
    SatSub(files.current, files.inactiveFile)
  }

  /**
   What a memory group shows of the files it was read from: of the total, the working set is used,
   all of it when there is more; the rest is available; what is not held at all is free; and the
   limit is the tightest of its levels.
   */
  ghost predicate ShowsMemory(g: MemoryGroup, files: MemoryFiles) {
    && (if WorkingSet(files) <= g.total then g.used == WorkingSet(files) else g.used == g.total)
    && g.used + g.available == g.total
    && (if files.current <= g.total then g.free + files.current == g.total else g.free == 0)
    && g.limit.Some? && IsTightest(g.limit.value, files.limits)
  }

  ghost predicate ShowsSwap(g: SwapGroup, files: SwapFiles) {
    && (if files.current <= g.total then g.used == files.current else g.used == g.total)
    && g.used + g.free == g.total
    && g.limit.Some? && IsTightest(g.limit.value, files.limits)
  }

  lemma MemoryGroupMeans(files: MemoryFiles, host: nat)
    ensures ShowsMemory(MemoryGroupOf(files, host), files) && LeastAmount(MemoryGroupOf(files, host).total, host, files.limits)
  {
    MemoryCapacityIsLeast(host, files.limits);
    TightestIsLeast(files.limits);
  }

  lemma SwapGroupMeans(files: SwapFiles, host: nat)
    ensures ShowsSwap(SwapGroupOf(files, host), files) && LeastAmount(SwapGroupOf(files, host).total, host, files.limits)
  {
    MemoryCapacityIsLeast(host, files.limits);
    TightestIsLeast(files.limits);
  }

  /** Tick `t` read the memory group `g` from the cgroup: over the least of the host's amount and its
      levels' limits, as its files show. */
  ghost predicate MemoryReadOn(t: ReadTick, g: MemoryGroup) {
    t.cgroup.Some? && t.cgroup.value.memory.Read? &&
    var files := t.cgroup.value.memory.files;
    LeastAmount(g.total, t.kernel.memory.total, files.limits) && ShowsMemory(g, files)
  }

  ghost predicate SwapReadOn(t: ReadTick, g: SwapGroup) {
    t.cgroup.Some? && t.cgroup.value.swap.Read? &&
    var files := t.cgroup.value.swap.files;
    LeastAmount(g.total, t.kernel.swap.total, files.limits) && ShowsSwap(g, files)
  }

  lemma MemoryReadMeans(t: ReadTick, g: MemoryGroup)
    requires MemoryTick(t).read == Ok(Some(g))
    ensures MemoryReadOn(t, g)
  {
    MemoryGroupMeans(t.cgroup.value.memory.files, t.kernel.memory.total);
  }

  lemma SwapReadMeans(t: ReadTick, g: SwapGroup)
    requires SwapTick(t).read == Ok(Some(g))
    ensures SwapReadOn(t, g)
  {
    SwapGroupMeans(t.cgroup.value.swap.files, t.kernel.swap.total);
  }

  /**
   Every memory group not read from the kernel, carried and expired ones included, adds up, and
   shows the files of the tick it was read on over the least amount they allow.
   */
  lemma CgroupMemoryAddsUp(h: seq<ReadTick>, n: nat)
    requires n < |h| && ChoiceAt(h, n).readings.memory.origin != Kernel
    ensures var g := ChoiceAt(h, n).readings.memory.value;
      MemoryAddsUp(g) && exists k :: 0 <= k <= n && MemoryReadOn(h[k], g)
  {
    ChoiceByGroup(h, n);
    var k := ReadBySomeTick(MemoryTicks(h), n);
    var g := ChoiceAt(h, n).readings.memory.value;
    assert MemoryTick(h[k]).read == Ok(Some(g));
    MemoryReadMeans(h[k], g);
  }

  /** And so does every swap group. */
  lemma CgroupSwapAddsUp(h: seq<ReadTick>, n: nat)
    requires n < |h| && ChoiceAt(h, n).readings.swap.origin != Kernel
    ensures var g := ChoiceAt(h, n).readings.swap.value;
      SwapAddsUp(g) && exists k :: 0 <= k <= n && SwapReadOn(h[k], g)
  {
    ChoiceByGroup(h, n);
    var k := ReadBySomeTick(SwapTicks(h), n);
    var g := ChoiceAt(h, n).readings.swap.value;
    assert SwapTick(h[k]).read == Ok(Some(g));
    SwapReadMeans(h[k], g);
  }

  /** How sysinfo states a host's memory: used is all that is not available. */
  predicate SysinfoMemory(g: MemoryGroup) {
    g.available <= g.total && g.used == g.total - g.available
  }

  /** Wherever a memory group came from, on every run, used and available add up to its total. */
  lemma UsedAndAvailableAddUp(h: seq<ReadTick>, n: nat)
    requires n < |h| && SysinfoMemory(h[n].kernel.memory)
    ensures var g := ChoiceAt(h, n).readings.memory.value; g.used + g.available == g.total
  {
    if ChoiceAt(h, n).readings.memory.origin == Kernel {
      KernelMemoryIsShown(h, n);
    } else {
      CgroupMemoryAddsUp(h, n);
    }
  }

  lemma KernelMemoryIsShown(h: seq<ReadTick>, n: nat)
    requires n < |h|
    ensures ChoiceAt(h, n).readings.memory.origin == Kernel <==> NeverRead(MemoryTicks(h), n + 1)
    ensures ChoiceAt(h, n).readings.memory.origin == Kernel ==> ChoiceAt(h, n).readings.memory.value == h[n].kernel.memory
  {
    ChoiceByGroup(h, n);
    OriginByHistory(MemoryTicks(h), n);
  }

  /** What is free is within what is available, exactly unless no tick has read the cgroup and this
      tick's kernel figures say otherwise: a cgroup read sets it right for good. */
  lemma FreeWithinAvailableIff(h: seq<ReadTick>, n: nat)
    requires n < |h| && SysinfoMemory(h[n].kernel.memory)
    ensures var g := ChoiceAt(h, n).readings.memory.value;
      g.free <= g.available <= g.total <==>
        !NeverRead(MemoryTicks(h), n + 1) || h[n].kernel.memory.free <= h[n].kernel.memory.available
  {
    KernelMemoryIsShown(h, n);
    if ChoiceAt(h, n).readings.memory.origin != Kernel {
      CgroupMemoryAddsUp(h, n);
    }
  }

  /** A host with little cache can: 10 in all, 7 used and 3 available, yet 5 free. */
  lemma KernelFreeMayExceedAvailable(t: ReadTick)
    requires t.cgroup.None? && t.kernel.memory == MemoryGroup(10, 7, 5, 3, None)
    ensures SysinfoMemory(t.kernel.memory)
    ensures var g := ChoiceAt([t], 0).readings.memory.value; g.free > g.available
  {
    FreeWithinAvailableIff([t], 0);
    assert MemoryTicks([t])[0].read == Ok(None);
  }

  lemma {:induction false} SomeLastSuccess<G>(h: seq<GroupTick<G>>, n: nat) returns (k: nat)
    requires n <= |h| && !NeverRead(h, n)
    ensures LastSuccess(h, n, k)
  {
    if Succeeded(h[n - 1]) {
      k := n - 1;
    } else {
      k := SomeLastSuccess(h, n - 1);
    }
  }

  /** `usage` is the CPU time used between two readings as a percentage of what `capacity` CPUs had in
      the wall time between, held at 100. */
  predicate IsShareOf(usage: real, prev: CpuCounters, cur: CpuCounters, capacity: CpuCount) {
    prev.usage <= cur.usage && prev.readAt + MIN_USAGE_INTERVAL <= cur.readAt &&
    var (wall, used) := ((cur.readAt - prev.readAt) as real, (cur.usage - prev.usage) as real);
    if used <= wall * capacity then usage * (wall * capacity) == used * 100.0 else usage == 100.0
  }

  lemma CpuUsageIsAShare(prev: CpuCounters, cur: CpuCounters, capacity: CpuCount)
    ensures var usage := CpuUsage(prev, cur, capacity);
      && (usage.Some? <==> prev.usage <= cur.usage && prev.readAt + MIN_USAGE_INTERVAL <= cur.readAt)
      && (usage.Some? ==> IsShareOf(usage.value, prev, cur, capacity) && 0.0 <= usage.value <= 100.0)
  {
    if CpuUsage(prev, cur, capacity).Some? {
      var (wall, used) := ((cur.readAt - prev.readAt) as real, (cur.usage - prev.usage) as real);
      var full := wall * capacity;
      assert full > 0.0;
      ShareOf(used, full);
    }
  }

  lemma ShareOf(used: real, full: real)
    requires full > 0.0 && used >= 0.0
    ensures var share := used / full * 100.0;
      && share * full == used * 100.0
      && share >= 0.0
      && (share <= 100.0 <==> used <= full)
  {
    var quotient := used / full;
    assert quotient * full == used;
    assert quotient <= 1.0 <==> used <= full by {
      assert quotient <= 1.0 ==> quotient * full <= full;
      assert quotient > 1.0 ==> quotient * full > full;
    }
    assert quotient * 100.0 * full == quotient * full * 100.0;
  }

  /** Tick `t` read the CPU group `g` from the cgroup: its capacity the least of the host's CPUs, the
      quotas and the cpuset, its usage the share of that capacity used since the reading before. */
  ghost predicate CpuReadOn(t: ReadTick, g: CpuGroup) {
    t.cgroup.Some? && t.cgroup.value.cpu.Read? && t.prevCpu.Some? && g.usage.Some? &&
    var files := t.cgroup.value.cpu.files;
    && LeastCapacity(g.capacity, t.kernel.cpu.capacity, files.quotas, files.cpuset)
    && IsShareOf(g.usage.value, t.prevCpu.value, files.counters, g.capacity)
  }

  lemma CpuReadMeans(t: ReadTick, g: CpuGroup)
    requires CpuTick(t).read == Ok(Some(g))
    ensures CpuReadOn(t, g) && 0.0 <= g.usage.value <= 100.0
  {
    var files := t.cgroup.value.cpu.files;
    var capacity := CpuCapacity(t.kernel.cpu.capacity, files.quotas, files.cpuset);
    CpuCapacityIsLeast(t.kernel.cpu.capacity, files.quotas, files.cpuset);
    CpuUsageIsAShare(t.prevCpu.value, files.counters, capacity);
  }

  /** Every CPU group not read from the kernel, carried and expired ones included, is a percentage of
      the capacity of the tick it was read on. */
  lemma CgroupCpuIsAShare(h: seq<ReadTick>, n: nat)
    requires n < |h| && ChoiceAt(h, n).readings.cpu.origin != Kernel
    ensures var g := ChoiceAt(h, n).readings.cpu.value;
      && g.usage.Some? && 0.0 <= g.usage.value <= 100.0
      && exists k :: 0 <= k <= n && CpuReadOn(h[k], g)
  {
    ChoiceByGroup(h, n);
    var k := ReadBySomeTick(CpuTicks(h), n);
    var g := ChoiceAt(h, n).readings.cpu.value;
    assert CpuTick(h[k]).read == Ok(Some(g));
    CpuReadMeans(h[k], g);
  }
}
