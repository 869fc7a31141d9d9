/**
 How much of a resource the monitored cgroup may use (src/environment/cgroup.rs): the least of
 the host's amount and every bounded limit, whatever order the levels come in.
 */
module Capacity {
  import opened Basics

  datatype Limit<+T> = Bounded(bound: T) | Unbounded

  /** A number of CPUs, possibly fractional. */
  type CpuCount = cpus: real | cpus > 0.0 witness 1.0

  function Tightest(limits: seq<Limit<nat>>): Limit<nat> {
    if limits == [] then Unbounded
    else
      match (limits[0], Tightest(limits[1..]))
      case (Unbounded, rest) => rest
      case (Bounded(b), Unbounded) => Bounded(b)
      case (Bounded(b), Bounded(rest)) => Bounded(Min(b, rest))
  }

  function MemoryCapacity(host: nat, limits: seq<Limit<nat>>): nat {
    match Tightest(limits)
    case Bounded(limit) => Min(limit, host)
    case Unbounded => host
  }

  function LeastCpus(least: CpuCount, limits: seq<Limit<CpuCount>>): CpuCount
    decreases |limits|
  {
    if limits == [] then least
    else
      var next := match limits[0]
        case Bounded(cpus) => if cpus < least then cpus else least
        case Unbounded => least;
      LeastCpus(next, limits[1..])
  }

  function CpuCapacity(host: CpuCount, quotas: seq<Limit<CpuCount>>, cpuset: Limit<CpuCount>): CpuCount {
    LeastCpus(host, quotas + [cpuset])
  }

  /** `tightest` is the least of the bounded limits, or unbounded when none is. */
  ghost predicate IsTightest(tightest: Limit<nat>, limits: seq<Limit<nat>>) {
    match tightest
    case Unbounded => forall limit :: limit in limits ==> limit.Unbounded?
    case Bounded(bound) => tightest in limits && forall limit :: limit in limits && limit.Bounded? ==> bound <= limit.bound
  }

  lemma {:induction false} TightestIsLeast(limits: seq<Limit<nat>>)
    ensures IsTightest(Tightest(limits), limits)
  {
    if limits != [] {
      TightestIsLeast(limits[1..]);
      assert forall limit :: limit in limits <==> limit == limits[0] || limit in limits[1..];
    }
  }

  /** `total` is the least of the host amount and every bounded limit. */
  ghost predicate LeastAmount(total: nat, host: nat, limits: seq<Limit<nat>>) {
    && total <= host
    && (forall limit :: limit in limits && limit.Bounded? ==> total <= limit.bound)
    && (total == host || Bounded(total) in limits)
  }

  lemma MemoryCapacityIsLeast(host: nat, limits: seq<Limit<nat>>)
    ensures LeastAmount(MemoryCapacity(host, limits), host, limits)
  {
    TightestIsLeast(limits);
  }

  lemma LevelOrderIsIrrelevant(host: nat, limits: seq<Limit<nat>>, others: seq<Limit<nat>>)
    requires forall limit :: limit in limits <==> limit in others
    ensures Tightest(limits) == Tightest(others)
    ensures MemoryCapacity(host, limits) == MemoryCapacity(host, others)
  {
    TightestIsLeast(limits);
    TightestIsLeast(others);
  }

  lemma {:induction false} LeastCpusIsLeast(least: CpuCount, limits: seq<Limit<CpuCount>>)
    ensures var cpus := LeastCpus(least, limits);
      && cpus <= least
      && (forall limit :: limit in limits && limit.Bounded? ==> cpus <= limit.bound)
      && (cpus == least || Bounded(cpus) in limits)
    decreases |limits|
  {
    if limits != [] {
      var next := match limits[0]
        case Bounded(cpus) => if cpus < least then cpus else least
        case Unbounded => least;
      LeastCpusIsLeast(next, limits[1..]);
      assert forall limit :: limit in limits <==> limit == limits[0] || limit in limits[1..];
    }
  }

  /** `cpus` is the least of the host's CPUs, every bounded quota and the cpuset. */
  ghost predicate LeastCapacity(cpus: CpuCount, host: CpuCount, quotas: seq<Limit<CpuCount>>, cpuset: Limit<CpuCount>) {
    && cpus <= host
    && (forall limit :: (limit in quotas || limit == cpuset) && limit.Bounded? ==> cpus <= limit.bound)
    && (cpus == host || Bounded(cpus) in quotas || cpuset == Bounded(cpus))
  }

  lemma CpuCapacityIsLeast(host: CpuCount, quotas: seq<Limit<CpuCount>>, cpuset: Limit<CpuCount>)
    ensures LeastCapacity(CpuCapacity(host, quotas, cpuset), host, quotas, cpuset)
  {
    LeastCpusIsLeast(host, quotas + [cpuset]);
    assert forall limit :: limit in quotas + [cpuset] <==> limit in quotas || limit == cpuset;
  }
}
