/**
 Cgroup paths, the monitored cgroup and the levels its limits are read at
 (src/environment/cgroup.rs).
 */
module CgroupPath {
  import opened Basics
  import opened Text

  const MAX_LEVELS := 32

  /** A cgroup's segments under the namespace root, or a directory's under the filesystem's. */
  type Path = seq<string>

  predicate IsSegment(s: string) {
    s != "" && s != "." && s != ".." && '/' !in s
  }

  predicate IsCgroupPath(p: Path) {
    forall k :: 0 <= k < |p| ==> IsSegment(p[k])
  }

  function NonEmpty(parts: seq<string>): seq<string> {
    if parts == [] then []
    else if parts[0] == "" then NonEmpty(parts[1..])
    else [parts[0]] + NonEmpty(parts[1..])
  }

  /** The path `/proc/<pid>/cgroup` or mountinfo writes. */
  function Parse(s: string): Option<Path> {
    if s == "" || s[0] != '/' then None
    else
      var segments := NonEmpty(Split('/', s[1..]));
      if "." in segments || ".." in segments then None else Some(segments)
  }

  function Display(p: Path): string {
    "/" + Join('/', p)
  }

  lemma {:induction false} NonEmptyKeeps(parts: seq<string>)
    ensures "" !in NonEmpty(parts)
    ensures forall part :: part in NonEmpty(parts) ==> part in parts
    ensures "" !in parts ==> NonEmpty(parts) == parts
  {
    if parts != [] {
      NonEmptyKeeps(parts[1..]);
      assert parts == [parts[0]] + parts[1..];
    }
  }

  /** A parsed path can't climb: every segment is a plain name. */
  lemma ParsedIsCgroupPath(s: string)
    requires Parse(s).Some?
    ensures IsCgroupPath(Parse(s).value)
  {
    NonEmptyKeeps(Split('/', s[1..]));
    SplitPartsAreBare('/', s[1..]);
    forall k | 0 <= k < |Parse(s).value| ensures IsSegment(Parse(s).value[k]) {
      assert Parse(s).value[k] in NonEmpty(Split('/', s[1..]));
    }
  }

  /** What a path displays as parses back to it. */
  lemma DisplayRoundTrip(p: Path)
    requires IsCgroupPath(p)
    ensures Parse(Display(p)) == Some(p)
  {
    var s := Display(p);
    assert s[1..] == Join('/', p);
    if p == [] {
      assert NonEmpty([""]) == [];
    } else {
      forall part | part in p ensures '/' !in part && part != "" && part != "." && part != ".." {
        var k :| 0 <= k < |p| && p[k] == part;
        assert IsSegment(p[k]);
      }
      SplitInvertsJoin('/', p);
      NonEmptyKeeps(p);
    }
  }

  lemma NonEmptyFirst(first: string, rest: seq<string>)
    ensures NonEmpty([first] + rest) == (if first == "" then [] else [first]) + NonEmpty(rest)
  {
    assert ([first] + rest)[1..] == rest;
  }

  lemma {:induction false} NonEmptyOfBoth(a: seq<string>, b: seq<string>)
    ensures NonEmpty(a + b) == NonEmpty(a) + NonEmpty(b)
  {
    if a == [] {
      assert a + b == b;
    } else {
      NonEmptyOfBoth(a[1..], b);
      NonEmptyFirst(a[0], a[1..]);
      NonEmptyFirst(a[0], a[1..] + b);
      assert a == [a[0]] + a[1..] && a + b == [a[0]] + (a[1..] + b);
    }
  }

  lemma {:induction false} NonEmptyHolds(parts: seq<string>, part: string)
    requires part != ""
    ensures part in NonEmpty(parts) <==> part in parts
  {
    if parts != [] {
      NonEmptyHolds(parts[1..], part);
      assert parts == [parts[0]] + parts[1..];
    }
  }

  /** A path is refused exactly when it is not absolute or some segment of it is a dot or two. */
  lemma RefusedIff(s: string)
    ensures Parse(s).None? <==>
      s == "" || s[0] != '/' || "." in Split('/', s[1..]) || ".." in Split('/', s[1..])
  {
    if s != "" {
      NonEmptyHolds(Split('/', s[1..]), ".");
      NonEmptyHolds(Split('/', s[1..]), "..");
    }
  }

  lemma ParsedAlike(s: string, t: string)
    requires NonEmpty(Split('/', s)) == NonEmpty(Split('/', t))
    ensures Parse("/" + s) == Parse("/" + t)
  {
    assert ("/" + s)[1..] == s && ("/" + t)[1..] == t;
  }

  lemma SegmentsAround(a: string, b: string)
    ensures NonEmpty(Split('/', a + ['/'] + b)) == NonEmpty(Split('/', a)) + NonEmpty(Split('/', b))
  {
    SplitOfJoined('/', a, b);
    NonEmptyOfBoth(Split('/', a), Split('/', b));
  }

  lemma SegmentsOfNothing()
    ensures NonEmpty(Split('/', "")) == []
  {
  }

  /** A slash more changes nothing: between segments, at the end or at the start. */
  lemma ExtraSlashIsIgnored(a: string, b: string)
    ensures Parse("/" + (a + ['/'] + (['/'] + b))) == Parse("/" + (a + ['/'] + b))
    ensures Parse("/" + (a + ['/'])) == Parse("/" + a)
    ensures Parse("/" + (['/'] + b)) == Parse("/" + b)
  {
    SegmentsOfNothing();
    assert "" + ['/'] + b == ['/'] + b && a + ['/'] + "" == a + ['/'];
    SegmentsAround("", b);
    SegmentsAround(a, "");
    SegmentsAround(a, b);
    SegmentsAround(a, ['/'] + b);
    ParsedAlike(a + ['/'] + (['/'] + b), a + ['/'] + b);
    ParsedAlike(a + ['/'], a);
    ParsedAlike(['/'] + b, b);
  }

  /** A path is displayed with one slash before each segment: `/` alone for the root. */
  lemma DisplayIsCanonical(p: Path)
    requires IsCgroupPath(p)
    ensures Display(p) != "" && Display(p)[0] == '/'
    ensures Split('/', Display(p)[1..]) == if p == [] then [""] else p
  {
    var s := Display(p);
    assert s[1..] == Join('/', p);
    if p != [] {
      forall part | part in p ensures '/' !in part {
        var k :| 0 <= k < |p| && p[k] == part;
        assert IsSegment(p[k]);
      }
      SplitInvertsJoin('/', p);
    }
  }

  function StripPrefix(p: Path, prefix: Path): Option<Path> {
    if prefix <= p then Some(p[|prefix|..]) else None
  }

  // ----- the monitored cgroup -----

  datatype Unreadable = V1Only | NoCgroupMount | SelfCgroupMissing | OutsideMountRoot

  datatype Mount = Mount(point: Path, root: Path)

  datatype Evidence = Evidence(
    selfCgroup: Result<Path, Unreadable>,
    mount: Option<Mount>,
    namespaceRootTyped: bool,
    pid1Cgroup: Option<Path>)

  datatype Pid1Placement = Inside | Outside

  datatype Monitored = Monitored(mountPoint: Path, dir: Path, path: Path, pid1: Pid1Placement)

  function MonitoredCgroup(e: Evidence): Result<Monitored, Unreadable> {
    match e.selfCgroup
    case Err(why) => Err(why)
    case Ok(own) =>
      match e.mount
      case None => Err(NoCgroupMount)
      case Some(mount) =>
        match StripPrefix(own, mount.root)
        case None => Err(OutsideMountRoot)
        case Some(ownDir) =>
          var privateRoot := mount.root == [] && e.namespaceRootTyped;
          var (dir, path) := if privateRoot then ([], []) else (ownDir, own);
          var pid1 := if e.pid1Cgroup.Some? && path <= e.pid1Cgroup.value then Inside else Outside;
          Ok(Monitored(mount.point, dir, path, pid1))
  }

  /**
   The directory read is the monitored cgroup's: its path in the namespace is where the mount
   shows its root, then the directory. It holds the agent's own cgroup, and PID 1's exactly when
   it is said to.
   */
  lemma MonitoredDirectoryIsItsPath(e: Evidence)
    requires MonitoredCgroup(e).Ok?
    ensures var m := MonitoredCgroup(e).value;
      && e.mount.Some? && e.selfCgroup.Ok?
      && m.mountPoint == e.mount.value.point
      && m.path == e.mount.value.root + m.dir
      && m.path <= e.selfCgroup.value
      && (m.pid1.Inside? <==> e.pid1Cgroup.Some? && m.path <= e.pid1Cgroup.value)
  {
    var own, mount := e.selfCgroup.value, e.mount.value;
    assert own == mount.root + own[|mount.root|..];
  }

  /** A private namespace's root is monitored whole; anywhere else, the agent's own cgroup. */
  lemma MonitoredIsRootOrOwn(e: Evidence)
    ensures MonitoredCgroup(e).Ok? <==> e.selfCgroup.Ok? && e.mount.Some? && e.mount.value.root <= e.selfCgroup.value
    ensures MonitoredCgroup(e).Ok? ==>
      var m := MonitoredCgroup(e).value;
      && (e.namespaceRootTyped && e.mount.value.root == [] ==> Directory(m) == e.mount.value.point)
      && (!(e.namespaceRootTyped && e.mount.value.root == []) ==>
           m.path == e.selfCgroup.value && |Directory(m)| == |e.mount.value.point| + |m.path| - |e.mount.value.root|)
    ensures e.selfCgroup.Err? ==> MonitoredCgroup(e) == Err(e.selfCgroup.error)
    ensures e.selfCgroup.Ok? && e.mount.None? ==> MonitoredCgroup(e) == Err(NoCgroupMount)
    ensures e.selfCgroup.Ok? && e.mount.Some? && MonitoredCgroup(e).Err? ==> MonitoredCgroup(e).error == OutsideMountRoot
  {
  }

  // ----- levels -----

  /** The prefixes of `p` from `depth` segments down to none, at most `count` of them. */
  function Ancestors(p: Path, depth: nat, count: nat): seq<Path>
    requires depth <= |p|
    decreases count
  {
    if count == 0 then []
    else if depth == 0 then [[]]
    else [p[..depth]] + Ancestors(p, depth - 1, count - 1)
  }

  function Ancestry(p: Path): seq<Path> {
    Ancestors(p, |p|, MAX_LEVELS)
  }

  function UnderMount(m: Monitored, level: Path): Path {
    m.mountPoint + level
  }

  function UnderMountAll(m: Monitored, levels: seq<Path>): seq<Path> {
    if levels == [] then [] else [UnderMount(m, levels[0])] + UnderMountAll(m, levels[1..])
  }

  function Levels(m: Monitored): seq<Path> {
    UnderMountAll(m, Ancestry(m.dir))
  }

  function Directory(m: Monitored): Path {
    UnderMount(m, m.dir)
  }

  lemma {:induction false} AncestorsClimb(p: Path, depth: nat, count: nat)
    requires depth <= |p|
    ensures var levels := Ancestors(p, depth, count);
      && |levels| == Min(depth + 1, count)
      && forall k :: 0 <= k < |levels| ==> k <= depth && levels[k] == p[..depth - k]
    decreases count
  {
    if count > 0 && depth > 0 {
      AncestorsClimb(p, depth - 1, count - 1);
    }
  }

  lemma {:induction false} UnderMountEach(m: Monitored, levels: seq<Path>)
    ensures |UnderMountAll(m, levels)| == |levels|
    ensures forall k :: 0 <= k < |levels| ==> UnderMountAll(m, levels)[k] == m.mountPoint + levels[k]
  {
    if levels != [] {
      UnderMountEach(m, levels[1..]);
    }
  }

  /**
   The levels are the monitored directory and its parents, one segment shorter each time and all
   under the mount point, which is the last of them unless there are 32 before it.
   */
  lemma LevelsClimbToTheMount(m: Monitored)
    ensures var levels := Levels(m);
      && |levels| == Min(|m.dir| + 1, MAX_LEVELS)
      && levels[0] == Directory(m)
      && (forall k :: 0 < k < |levels| ==> levels[k] <= levels[k - 1] && |levels[k]| + 1 == |levels[k - 1]|)
      && (forall k :: 0 <= k < |levels| ==> m.mountPoint <= levels[k])
      && (levels[|levels| - 1] == m.mountPoint <==> |m.dir| < MAX_LEVELS)
  {
    AncestorsClimb(m.dir, |m.dir|, MAX_LEVELS);
    UnderMountEach(m, Ancestry(m.dir));
    var levels := Levels(m);
    assert m.dir[..|m.dir|] == m.dir;
    forall k | 0 < k < |levels| ensures levels[k] <= levels[k - 1] && |levels[k]| + 1 == |levels[k - 1]| {
      assert m.dir[..|m.dir| - k] == m.dir[..|m.dir| - (k - 1)][..|m.dir| - k];
    }
  }
}
