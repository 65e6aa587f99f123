/** `seed`: the first-boot steps in order, what a failure leaves, and what later boots make of it. */
module Seeding {
  import opened Provision

  // ─── paths from names ──────────────────────────────────────────────────────

  /** The absolute path of these names. */
  function PathOf(names: Path): string
    decreases |names|
  {
    if names == [] then "" else PathOf(Parent(names)) + "/" + names[|names| - 1]
  }

  predicate IsName(s: string) {
    s != "" && '/' !in s
  }

  ghost predicate Names(names: Path) {
    forall i :: 0 <= i < |names| ==> IsName(names[i])
  }

  lemma {:induction false} PartsPathOf(names: Path)
    requires Names(names)
    ensures Parts(PathOf(names)) == names
    ensures names != [] ==> EndsInName(PathOf(names)) && PathOf(names)[0] == '/'
    decreases |names|
  {
    if names != [] {
      var before, name := Parent(names), names[|names| - 1];
      assert names == before + [name] && IsName(name);
      PartsPathOf(before);
      OneNameMore(PathOf(before), before, name);
    }
  }

  lemma {:induction false} OneNameMore(s: string, before: Path, name: string)
    requires Parts(s) == before && IsName(name) && (s == "" || s[0] == '/')
    ensures var path := s + "/" + name; Parts(path) == before + [name] && EndsInName(path) && path[0] == '/'
  {
    PartsSplit(s, name);
    PathEnds(s, name);
  }

  lemma PathEnds(s: string, name: string)
    requires IsName(name) && (s == "" || s[0] == '/')
    ensures var path := s + "/" + name; EndsInName(path) && path[0] == '/'
  {
    var path := s + "/" + name;
    assert path[|s|] == '/' && path[|path| - 1] == name[|name| - 1];
  }

  // ─── the steps ─────────────────────────────────────────────────────────────

  datatype Step = MakeDir(names: Path) | Install(names: Path, data: Bytes, mayFail: bool)

  const RELEASE: Path := ["mnt", "etc", "pagh-release"]

  // Which step installs the release file, and which is the last one.
  const RELEASE_STEP := 4
  const LAST_STEP := 11

  function SeedPaths(): (ps: seq<Path>)
    ensures |ps| == LAST_STEP + 1 && ps[RELEASE_STEP] == RELEASE
  {
    [ ["mnt", "etc"], ["mnt", "home", "user"], ["mnt", "usr", "share", "pagh"], ["mnt", "examples", "hello", "src"],
      RELEASE, ["mnt", "etc", "resolv.conf"], ["mnt", "etc", "hosts"], ["mnt", "etc", "motd"],
      ["mnt", "home", "user", "README.txt"], ["mnt", "usr", "share", "pagh", "LICENSE-NOTICE.txt"],
      ["mnt", "examples", "hello", "Cargo.toml"], ["mnt", "examples", "hello", "src", "main.rs"] ]
  }

  /** The steps of `seed`, with the file contents as inputs; only the hosts file may fail. */
  function SeedSteps(contents: Path -> Bytes): (steps: seq<Step>)
    ensures |steps| == LAST_STEP + 1
    ensures forall k :: 0 <= k <= LAST_STEP ==>
      steps[k].names == SeedPaths()[k] && steps[k].Install? == (k >= RELEASE_STEP)
    ensures forall k :: RELEASE_STEP <= k <= LAST_STEP ==>
      steps[k].data == contents(SeedPaths()[k]) && steps[k].mayFail == (k == 6)
  {
    var ps := SeedPaths();
    seq(|ps|, k requires 0 <= k < |ps| =>
      if k < RELEASE_STEP then MakeDir(ps[k]) else Install(ps[k], contents(ps[k]), k == 6))
  }

  lemma {:induction false} PathSnoc(names: Path, name: string)
    ensures PathOf(names + [name]) == PathOf(names) + "/" + name
  {
    assert Parent(names + [name]) == names;
  }

  lemma UnderMount(dir: string)
    ensures PathOf(["mnt", dir]) == "/mnt/" + dir
  {
    PathSnoc([], "mnt");
    PathSnoc(["mnt"], dir);
    assert [] + ["mnt"] == ["mnt"] && ["mnt"] + [dir] == ["mnt", dir];
  }

  /** The directories of `seed`, as its calls spell them, ... */
  lemma EtcDir()
    ensures PathOf(SeedPaths()[0]) == "/mnt/etc"
  {
    UnderMount("etc");
  }

  lemma HomeDir()
    ensures PathOf(SeedPaths()[1]) == "/mnt/home/user"
  {
    UnderMount("home");
    PathSnoc(["mnt", "home"], "user");
    assert ["mnt", "home"] + ["user"] == SeedPaths()[1];
  }

  lemma ShareDir()
    ensures PathOf(SeedPaths()[2]) == "/mnt/usr/share/pagh"
  {
    UnderMount("usr");
    PathSnoc(["mnt", "usr"], "share");
    PathSnoc(["mnt", "usr", "share"], "pagh");
    assert ["mnt", "usr"] + ["share"] == ["mnt", "usr", "share"];
    assert ["mnt", "usr", "share"] + ["pagh"] == SeedPaths()[2];
  }

  lemma HelloDir()
    ensures PathOf(["mnt", "examples", "hello"]) == "/mnt/examples/hello"
    ensures PathOf(SeedPaths()[3]) == "/mnt/examples/hello/src"
  {
    UnderMount("examples");
    PathSnoc(["mnt", "examples"], "hello");
    PathSnoc(["mnt", "examples", "hello"], "src");
    assert ["mnt", "examples"] + ["hello"] == ["mnt", "examples", "hello"];
    assert ["mnt", "examples", "hello"] + ["src"] == SeedPaths()[3];
  }

  /** ... and its files in them. */
  lemma SeedFiles()
    ensures PathOf(RELEASE) == "/mnt/etc" + "/pagh-release" && PathOf(SeedPaths()[4]) == PathOf(RELEASE)
    ensures PathOf(SeedPaths()[5]) == "/mnt/etc" + "/resolv.conf"
    ensures PathOf(SeedPaths()[6]) == "/mnt/etc" + "/hosts"
    ensures PathOf(SeedPaths()[7]) == "/mnt/etc" + "/motd"
  {
    EtcDir();
    PathSnoc(SeedPaths()[0], "pagh-release");
    PathSnoc(SeedPaths()[0], "resolv.conf");
    PathSnoc(SeedPaths()[0], "hosts");
    PathSnoc(SeedPaths()[0], "motd");
    assert SeedPaths()[0] + ["pagh-release"] == RELEASE && SeedPaths()[0] + ["resolv.conf"] == SeedPaths()[5];
    assert SeedPaths()[0] + ["hosts"] == SeedPaths()[6] && SeedPaths()[0] + ["motd"] == SeedPaths()[7];
  }

  lemma SeedDocs()
    ensures PathOf(SeedPaths()[8]) == "/mnt/home/user" + "/README.txt"
    ensures PathOf(SeedPaths()[9]) == "/mnt/usr/share/pagh" + "/LICENSE-NOTICE.txt"
    ensures PathOf(SeedPaths()[10]) == "/mnt/examples/hello" + "/Cargo.toml"
    ensures PathOf(SeedPaths()[11]) == "/mnt/examples/hello/src" + "/main.rs"
  {
    HomeDir();
    ShareDir();
    HelloDir();
    PathSnoc(SeedPaths()[1], "README.txt");
    PathSnoc(SeedPaths()[2], "LICENSE-NOTICE.txt");
    PathSnoc(["mnt", "examples", "hello"], "Cargo.toml");
    PathSnoc(SeedPaths()[3], "main.rs");
    assert SeedPaths()[1] + ["README.txt"] == SeedPaths()[8];
    assert SeedPaths()[2] + ["LICENSE-NOTICE.txt"] == SeedPaths()[9];
    assert ["mnt", "examples", "hello"] + ["Cargo.toml"] == SeedPaths()[10];
    assert SeedPaths()[3] + ["main.rs"] == SeedPaths()[11];
  }

  lemma SeedNames(k: nat)
    requires k <= LAST_STEP
    ensures Names(SeedPaths()[k]) && SeedPaths()[k] != []
  {
  }

  /** No file of the steps lies on the way to the node of another step. */
  ghost predicate Apart(steps: seq<Step>) {
    forall i, j :: 0 <= i < |steps| && 0 <= j < |steps| && i != j && steps[i].Install? ==>
      !(steps[i].names <= steps[j].names)
  }

  lemma NotBefore(p: Path, q: Path, n: nat)
    requires n < |p| && (|q| < |p| || q[n] != p[n])
    ensures !(p <= q)
  {
  }

  lemma SeedApartAt(i: nat, j: nat)
    requires RELEASE_STEP <= i <= LAST_STEP && j <= LAST_STEP && i != j
    ensures !(SeedPaths()[i] <= SeedPaths()[j])
  {
    var p, q := SeedPaths()[i], SeedPaths()[j];
    NotBefore(p, q, |p| - 1);
  }

  lemma SeedApart(contents: Path -> Bytes)
    ensures Apart(SeedSteps(contents))
  {
    var steps := SeedSteps(contents);
    forall i, j | 0 <= i < |steps| && 0 <= j < |steps| && i != j && steps[i].Install?
      ensures !(steps[i].names <= steps[j].names)
    {
      SeedApartAt(i, j);
    }
  }

  // ─── one step ──────────────────────────────────────────────────────────────

  predicate Optional(step: Step) {
    step.Install? && step.mayFail
  }

  /** The step's node is there; a file that is new since `was` has exactly its contents. */
  ghost predicate Fulfilled(was: Tree, now: Tree, step: Step) {
    && step.names in now && (step.MakeDir? ==> now[step.names] == Dir)
    && (step.Install? && step.names !in was ==> now[step.names] == File(step.data))
  }

  ghost predicate AllDirs(t: Tree) {
    forall p :: p in t ==> t[p] == Dir
  }

  /** Nothing stands in the way of the step on a tree of directories. */
  ghost predicate Sure(vfs: Vfs, step: Step) {
    AllSound(vfs.health, step.names, |step.names|)
  }

  lemma SureWalk(vfs: Vfs, t: Tree, names: Path, k: nat)
    requires vfs.lookupsWork && [] in t && AllDirs(t) && Names(names) && k <= |names|
    requires AllSound(vfs.health, names, |names|)
    ensures Walkable(vfs, t, names[..k])
  {
    forall i | 0 < i <= k ensures SoundAt(vfs.health, names[..k], i) {
      assert names[..k][..i] == names[..i] && SoundAt(vfs.health, names, i);
    }
    forall i | 0 <= i < k ensures names[..k][i] != "" {
      assert IsName(names[i]);
    }
  }

  lemma SureWrite(vfs: Vfs, t: Tree, names: Path)
    requires vfs.lookupsWork && [] in t && AllDirs(t) && Names(names) && names != []
    requires AllSound(vfs.health, names, |names|)
    ensures Writable(vfs, t, names)
  {
    SureWalk(vfs, t, names, |names| - 1);
    assert SoundAt(vfs.health, names, |names|) && names[..|names|] == names && IsName(names[|names| - 1]);
  }

  /** The tree and the backend leave the step no way to fail. */
  ghost predicate CannotFail(vfs: Vfs, t: Tree, step: Step) {
    vfs.lookupsWork && [] in t && AllDirs(t) && Sure(vfs, step)
  }

  /** One step; `wrote` if all the data of a file got to a new node, whatever the outcome. */
  method RunStep(vfs: Vfs, step: Step) returns (ok: bool, ghost wrote: bool)
    requires ValidTree(vfs.nodes) && Names(step.names) && step.names != []
    modifies vfs
    ensures ValidTree(vfs.nodes) && Grows(old(vfs.nodes), vfs.nodes, step.names)
    ensures step.MakeDir? && AllDirs(old(vfs.nodes)) ==> AllDirs(vfs.nodes)
    ensures ok && !Optional(step) ==> Fulfilled(old(vfs.nodes), vfs.nodes, step)
    ensures Optional(step) ==> ok
    ensures step.Install? && step.names !in old(vfs.nodes) ==>
      (wrote <==> Fulfilled(old(vfs.nodes), vfs.nodes, step))
    ensures step.Install? && step.names !in old(vfs.nodes) && vfs.health(step.names) == Broken ==>
      step.names !in vfs.nodes && (ok ==> step.mayFail)
    ensures CannotFail(vfs, old(vfs.nodes), step) ==> ok
  {
    match step
    case MakeDir(names) =>
      ok := RunMakeDir(vfs, step);
      wrote := false;
    case Install(names, data, mayFail) =>
      ok, wrote := RunInstall(vfs, step);
  }

  method RunMakeDir(vfs: Vfs, step: Step) returns (ok: bool)
    requires ValidTree(vfs.nodes) && Names(step.names) && step.MakeDir?
    modifies vfs
    ensures ValidTree(vfs.nodes) && Grows(old(vfs.nodes), vfs.nodes, step.names)
    ensures AllDirs(old(vfs.nodes)) ==> AllDirs(vfs.nodes)
    ensures ok ==> Fulfilled(old(vfs.nodes), vfs.nodes, step)
    ensures CannotFail(vfs, old(vfs.nodes), step) ==> ok
  {
    ghost var was := vfs.nodes;
    PartsPathOf(step.names);
    var r, made := EnsureDir(vfs, PathOf(step.names));
    ok := r.Ok?;
    WithDirsGrows(was, step.names, made, step.names);
    MadeDirs(was, step.names, made);
    if CannotFail(vfs, was, step) {
      SureWalk(vfs, was, step.names, |step.names|);
      assert step.names[..|step.names|] == step.names;
    }
  }

  method RunInstall(vfs: Vfs, step: Step) returns (ok: bool, ghost wrote: bool)
    requires ValidTree(vfs.nodes) && Names(step.names) && step.names != [] && step.Install?
    modifies vfs
    ensures ValidTree(vfs.nodes) && Grows(old(vfs.nodes), vfs.nodes, step.names)
    ensures ok && !step.mayFail ==> Fulfilled(old(vfs.nodes), vfs.nodes, step)
    ensures step.mayFail ==> ok
    ensures step.names !in old(vfs.nodes) ==> (wrote <==> Fulfilled(old(vfs.nodes), vfs.nodes, step))
    ensures step.names !in old(vfs.nodes) && vfs.health(step.names) == Broken ==>
      step.names !in vfs.nodes && (ok ==> step.mayFail)
    ensures CannotFail(vfs, old(vfs.nodes), step) ==> ok
  {
    PartsPathOf(step.names);
    if CannotFail(vfs, vfs.nodes, step) {
      SureWrite(vfs, vfs.nodes, step.names);
      SureWalk(vfs, vfs.nodes, step.names, |step.names|);
    }
    ghost var was := vfs.nodes;
    var r;
    r, wrote := WriteOnce(vfs, PathOf(step.names), step.data);
    InstallOutcome(was, vfs.nodes, step, r.Ok?, wrote);
    ok := r.Ok? || step.mayFail;
  }

  lemma InstallOutcome(was: Tree, now: Tree, step: Step, done: bool, wrote: bool)
    requires step.Install? && (done ==> step.names in now && (step.names !in was ==> wrote))
    requires wrote ==> step.names !in was && step.names in now && now[step.names] == File(step.data)
    requires !wrote && step.names in now && step.names !in was ==> now[step.names] != File(step.data)
    ensures done ==> Fulfilled(was, now, step)
    ensures step.names !in was ==> (wrote <==> Fulfilled(was, now, step))
  {
  }

  lemma {:induction false} MadeDirs(t: Tree, parts: Path, k: nat)
    requires k <= |parts|
    ensures AllDirs(t) ==> AllDirs(WithDirs(t, parts, k))
  {
    forall p | p in WithDirs(t, parts, k) && AllDirs(t) ensures WithDirs(t, parts, k)[p] == Dir {
      WithDirsExactly(t, parts, k, p);
    }
  }

  // ─── any run of steps ──────────────────────────────────────────────────────

  ghost predicate AllNamed(steps: seq<Step>) {
    forall k :: 0 <= k < |steps| ==> Names(steps[k].names) && steps[k].names != []
  }

  /** Nothing that was there changed, and what is new lies on the way to one of the first `n` steps' nodes. */
  ghost predicate GrownBy(was: Tree, now: Tree, steps: seq<Step>, n: nat)
    requires n <= |steps|
  {
    Preserved(was, now) && forall p :: p in now && p !in was ==> Towards(steps, n, p)
  }

  ghost predicate Towards(steps: seq<Step>, n: nat, p: Path)
    requires n <= |steps|
  {
    exists j :: 0 <= j < n && p <= steps[j].names
  }

  lemma GrownOneMore(was: Tree, mid: Tree, now: Tree, steps: seq<Step>, n: nat)
    requires n < |steps| && GrownBy(was, mid, steps, n) && Grows(mid, now, steps[n].names)
    ensures GrownBy(was, now, steps, n + 1)
  {
    forall p | p in now && p !in was ensures Towards(steps, n + 1, p) {
      if p in mid {
        var j :| 0 <= j < n && p <= steps[j].names;
        assert p <= steps[j].names;
      } else {
        assert p <= steps[n].names;
      }
    }
  }

  /** Steps that lie apart do not make each other's files. */
  lemma NotYet(was: Tree, now: Tree, steps: seq<Step>, n: nat, k: nat)
    requires n <= k < |steps| && Apart(steps) && steps[k].Install? && GrownBy(was, now, steps, n)
    requires steps[k].names in now
    ensures steps[k].names in was
  {
    forall j | 0 <= j < n ensures !(steps[k].names <= steps[j].names) {
    }
    assert !Towards(steps, n, steps[k].names);
  }

  /** The steps before `n` are done. */
  ghost predicate DoneSoFar(was: Tree, now: Tree, steps: seq<Step>, n: nat)
    requires n <= |steps|
  {
    forall k :: 0 <= k < n && !Optional(steps[k]) ==> Fulfilled(was, now, steps[k])
  }

  lemma DoneOneMore(was: Tree, mid: Tree, now: Tree, steps: seq<Step>, n: nat)
    requires n < |steps| && Apart(steps) && GrownBy(was, mid, steps, n) && DoneSoFar(was, mid, steps, n)
    requires Preserved(mid, now) && (Optional(steps[n]) || Fulfilled(mid, now, steps[n]))
    ensures DoneSoFar(was, now, steps, n + 1)
  {
    if steps[n].Install? && steps[n].names in mid { NotYet(was, mid, steps, n, n); }
  }

  /** The first `n` steps are sure to succeed: directories first, on a tree of directories, everything sound. */
  ghost predicate SureFirst(vfs: Vfs, t: Tree, steps: seq<Step>, n: nat)
    requires n <= |steps|
  {
    && vfs.lookupsWork && [] in t && AllDirs(t)
    && (forall k :: 0 <= k < n ==> Sure(vfs, steps[k])) && (forall k :: 0 <= k < n - 1 ==> steps[k].MakeDir?)
  }

  /**
   * The steps in order up to the first failure, at `stopped`. Nothing that was there changes; the steps
   * before are done, each new file with its contents; no file of a later step has appeared; and a file
   * that cannot be created stops the run. `wrote` if the step that failed had written all its data.
   */
  method RunSteps(vfs: Vfs, steps: seq<Step>, ghost sure: nat) returns (ok: bool, stopped: nat, ghost wrote: bool)
    requires ValidTree(vfs.nodes) && AllNamed(steps) && Apart(steps) && sure <= |steps|
    modifies vfs
    ensures ValidTree(vfs.nodes) && stopped <= |steps| && (ok <==> stopped == |steps|)
    ensures GrownBy(old(vfs.nodes), vfs.nodes, steps, if ok then stopped else stopped + 1)
    ensures DoneSoFar(old(vfs.nodes), vfs.nodes, steps, stopped)
    ensures forall k :: 0 <= k <= stopped && k < |steps| && NeverMade(vfs, old(vfs.nodes), steps[k]) ==>
      steps[k].names !in vfs.nodes && k == stopped
    ensures !ok && steps[stopped].Install? && steps[stopped].names !in old(vfs.nodes) ==>
      (wrote <==> Fulfilled(old(vfs.nodes), vfs.nodes, steps[stopped]))
    ensures SureFirst(vfs, old(vfs.nodes), steps, sure) ==> stopped >= sure
  {
    ghost var was := vfs.nodes;
    for i := 0 to |steps|
      invariant ValidTree(vfs.nodes) && GrownBy(was, vfs.nodes, steps, i) && DoneSoFar(was, vfs.nodes, steps, i)
      invariant forall k :: 0 <= k < i ==> !NeverMade(vfs, was, steps[k])
      invariant SureFirst(vfs, was, steps, sure) && i < sure ==> AllDirs(vfs.nodes) && [] in vfs.nodes
    {
      ghost var mid := vfs.nodes;
      if steps[i].Install? && steps[i].names in mid { NotYet(was, mid, steps, i, i); }
      ok, wrote := RunStep(vfs, steps[i]);
      GrownOneMore(was, mid, vfs.nodes, steps, i);
      if !ok {
        StillDone(was, mid, vfs.nodes, steps, i);
        stopped := i;
        return;
      }
      DoneOneMore(was, mid, vfs.nodes, steps, i);
    }
    ok, stopped, wrote := true, |steps|, false;
  }

  /** A required file that is not there and cannot be created. */
  ghost predicate NeverMade(vfs: Vfs, t: Tree, step: Step) {
    step.Install? && !step.mayFail && step.names !in t && vfs.health(step.names) == Broken
  }

  lemma StillDone(was: Tree, mid: Tree, now: Tree, steps: seq<Step>, n: nat)
    requires n <= |steps| && DoneSoFar(was, mid, steps, n) && Preserved(mid, now)
    ensures DoneSoFar(was, now, steps, n)
  {
  }

  // ─── seed ──────────────────────────────────────────────────────────────────

  lemma SeedNamed(contents: Path -> Bytes)
    ensures AllNamed(SeedSteps(contents)) && Names(RELEASE)
  {
    var steps := SeedSteps(contents);
    forall k | 0 <= k < |steps| ensures Names(steps[k].names) && steps[k].names != [] {
      SeedNames(k);
    }
    SeedNames(RELEASE_STEP);
  }

  /**
   * `seed`: never changes a node that was there. It looks at the release file alone; with working
   * lookups it is skipped if and only if that node exists.
   */
  method Seed(vfs: Vfs, contents: Path -> Bytes) returns (skipped: bool, ok: bool, stopped: nat, ghost wrote: bool)
    requires ValidTree(vfs.nodes)
    modifies vfs
    ensures ValidTree(vfs.nodes) && Preserved(old(vfs.nodes), vfs.nodes)
    ensures skipped ==> RELEASE in old(vfs.nodes) && vfs.nodes == old(vfs.nodes) && ok
    ensures vfs.lookupsWork ==> (skipped <==> RELEASE in old(vfs.nodes))
    ensures var steps := SeedSteps(contents);
      !skipped ==>
        && stopped <= |steps| && (ok <==> stopped == |steps|)
        && GrownBy(old(vfs.nodes), vfs.nodes, steps, if ok then stopped else stopped + 1)
        && DoneSoFar(old(vfs.nodes), vfs.nodes, steps, stopped)
        && (forall k :: 0 <= k <= stopped && k < |steps| && NeverMade(vfs, old(vfs.nodes), steps[k]) ==>
              steps[k].names !in vfs.nodes && k == stopped)
        && (!ok && steps[stopped].Install? && steps[stopped].names !in old(vfs.nodes) ==>
              (wrote <==> Fulfilled(old(vfs.nodes), vfs.nodes, steps[stopped])))
        && (SureFirst(vfs, old(vfs.nodes), steps, RELEASE_STEP + 1) ==> stopped > RELEASE_STEP)
  {
    SeedNamed(contents);
    SeedApart(contents);
    PartsPathOf(RELEASE);
    var found := vfs.LookupPath(PathOf(RELEASE));
    skipped, ok, stopped, wrote := found.Ok?, true, 0, false;
    if !skipped {
      ok, stopped, wrote := RunSteps(vfs, SeedSteps(contents), RELEASE_STEP + 1);
    }
  }

  // ─── any number of boots ───────────────────────────────────────────────────

  /** No file of `seed` is there yet. */
  ghost predicate Unseeded(t: Tree) {
    forall k :: RELEASE_STEP <= k <= LAST_STEP ==> SeedPaths()[k] !in t
  }

  /** Every step is done, but for the one that may fail. */
  ghost predicate AllDone(was: Tree, now: Tree, contents: Path -> Bytes) {
    DoneSoFar(was, now, SeedSteps(contents), LAST_STEP + 1)
  }

  /** A run that got through, or stopped at the last step with all its data written. */
  predicate Through(stopped: nat, wrote: bool) {
    stopped == LAST_STEP + 1 || (stopped == LAST_STEP && wrote)
  }

  /** A run that left the release node out left every other file out too. */
  lemma StillUnseeded(was: Tree, now: Tree, contents: Path -> Bytes, n: nat, stopped: nat)
    requires Unseeded(was) && RELEASE !in now && stopped <= LAST_STEP + 1
    requires n == (if stopped <= LAST_STEP then stopped + 1 else stopped)
    requires GrownBy(was, now, SeedSteps(contents), n) && DoneSoFar(was, now, SeedSteps(contents), stopped)
    ensures Unseeded(now)
  {
    var steps := SeedSteps(contents);
    SeedApart(contents);
    assert steps[RELEASE_STEP].names == RELEASE;
    assert stopped <= RELEASE_STEP;
    forall k | RELEASE_STEP <= k <= LAST_STEP ensures SeedPaths()[k] !in now {
      if k > RELEASE_STEP && SeedPaths()[k] in now { NotYet(was, now, steps, n, k); }
    }
  }

  /** The run that makes the release node decides whether everything is ever there. */
  lemma InstallingRun(first: Tree, was: Tree, now: Tree, contents: Path -> Bytes, n: nat, stopped: nat, wrote: bool)
    requires Unseeded(first) && Unseeded(was) && Preserved(first, was)
    requires stopped <= LAST_STEP + 1 && n == (if stopped <= LAST_STEP then stopped + 1 else stopped)
    requires GrownBy(was, now, SeedSteps(contents), n) && DoneSoFar(was, now, SeedSteps(contents), stopped)
    requires stopped == LAST_STEP ==> (wrote <==> Fulfilled(was, now, SeedSteps(contents)[LAST_STEP]))
    ensures AllDone(first, now, contents) <==> Through(stopped, wrote)
  {
    var steps := SeedSteps(contents);
    SeedApart(contents);
    assert DoneSoFar(first, now, steps, stopped);
    assert steps[LAST_STEP].names == SeedPaths()[LAST_STEP];
    if stopped < LAST_STEP && steps[LAST_STEP].names in now { NotYet(was, now, steps, n, LAST_STEP); }
  }

  /**
   * Any number of boots of a tree without a file of `seed`, with working lookups and failures anywhere
   * else. Everything that `seed` promises is there at the end if and only if some boot made the release
   * node and, in that very boot, no step failed from there on (or only the last one, having written all
   * its data): no later boot makes up for anything.
   */
  method SeedRepeatedly(vfs: Vfs, contents: Path -> Bytes, boots: nat)
    returns (installed: bool, stopped: nat, ghost wrote: bool)
    requires ValidTree(vfs.nodes) && vfs.lookupsWork && Unseeded(vfs.nodes)
    modifies vfs
    ensures ValidTree(vfs.nodes) && Preserved(old(vfs.nodes), vfs.nodes)
    ensures installed <==> RELEASE in vfs.nodes
    ensures AllDone(old(vfs.nodes), vfs.nodes, contents) <==> installed && Through(stopped, wrote)
  {
    ghost var first := vfs.nodes;
    assert SeedPaths()[RELEASE_STEP] == RELEASE;
    installed, stopped, wrote := false, 0, false;
    for i := 0 to boots
      invariant ValidTree(vfs.nodes) && Preserved(first, vfs.nodes) && (installed <==> RELEASE in vfs.nodes)
      invariant !installed ==> Unseeded(vfs.nodes)
      invariant installed ==> (AllDone(first, vfs.nodes, contents) <==> Through(stopped, wrote))
    {
      ghost var was := vfs.nodes;
      var skipped, ok, at, all := Seed(vfs, contents);
      if !skipped {
        if RELEASE in vfs.nodes {
          InstallingRun(first, was, vfs.nodes, contents, if ok then at else at + 1, at, all);
          installed, stopped, wrote := true, at, all;
        } else {
          StillUnseeded(was, vfs.nodes, contents, if ok then at else at + 1, at);
        }
      }
    }
    if !installed { NotInstalled(first, vfs.nodes, contents); }
  }

  lemma NotInstalled(first: Tree, now: Tree, contents: Path -> Bytes)
    requires RELEASE !in now
    ensures !AllDone(first, now, contents)
  {
    var steps := SeedSteps(contents);
    assert steps[RELEASE_STEP].names == RELEASE && !Optional(steps[RELEASE_STEP]);
    assert !Fulfilled(first, now, steps[RELEASE_STEP]);
  }

  // ─── a first boot that fails halfway ───────────────────────────────────────

  const RESOLV: Path := ["mnt", "etc", "resolv.conf"]

  /** A freshly mounted root. */
  function Mounted(): Tree {
    map[[] := Dir, ["mnt"] := Dir]
  }

  lemma MountedValid()
    ensures ValidTree(Mounted()) && AllDirs(Mounted()) && Unseeded(Mounted())
  {
    var t := Mounted();
    forall p | p in t && p != [] ensures InDir(t, p) {
      assert Parent(["mnt"]) == [];
    }
    forall k | RELEASE_STEP <= k <= LAST_STEP ensures SeedPaths()[k] !in t {
      assert |SeedPaths()[k]| > 2;
    }
  }

  function OnlyResolvBroken(p: Path): Health {
    if p == RESOLV then Broken else Sound
  }

  lemma ResolvSure(k: nat, i: nat)
    requires k <= RELEASE_STEP && i <= |SeedPaths()[k]|
    ensures SeedPaths()[k][..i] != RESOLV
  {
    var p := SeedPaths()[k];
    assert i > 2 ==> p[..i][2] == p[2];
    assert |RESOLV[2]| == 11 && RESOLV[2][0] == 'r';
  }

  lemma ResolvFirst(vfs: Vfs, contents: Path -> Bytes)
    requires vfs.lookupsWork && vfs.health == OnlyResolvBroken
    ensures SureFirst(vfs, Mounted(), SeedSteps(contents), RELEASE_STEP + 1)
  {
    var steps := SeedSteps(contents);
    MountedValid();
    forall k | 0 <= k <= RELEASE_STEP ensures Sure(vfs, steps[k]) {
      forall i | 0 < i <= |steps[k].names| ensures SoundAt(vfs.health, steps[k].names, i) {
        ResolvSure(k, i);
      }
    }
  }

  /**
   * A first boot on which `resolv.conf` cannot be created: `seed` fails, but the release file is there,
   * so every later boot is skipped, changes nothing, and nothing that is missing is ever installed.
   */
  method HalfSeeded(contents: Path -> Bytes, later: nat) returns (vfs: Vfs, ok: bool)
    ensures fresh(vfs) && vfs.lookupsWork && !ok
    ensures RELEASE in vfs.nodes && vfs.nodes[RELEASE] == File(contents(RELEASE)) && RESOLV !in vfs.nodes
    ensures !AllDone(Mounted(), vfs.nodes, contents)
  {
    MountedValid();
    vfs := new Vfs(Mounted(), true, OnlyResolvBroken);
    ResolvFirst(vfs, contents);
    ghost var steps := SeedSteps(contents);
    assert steps[RELEASE_STEP + 1].names == RESOLV && NeverMade(vfs, Mounted(), steps[RELEASE_STEP + 1]);
    var skipped, stopped;
    ghost var wrote;
    skipped, ok, stopped, wrote := Seed(vfs, contents);
    assert steps[RELEASE_STEP].names == RELEASE && Fulfilled(Mounted(), vfs.nodes, steps[RELEASE_STEP]);
    assert !Fulfilled(Mounted(), vfs.nodes, steps[RELEASE_STEP + 1]);
    ghost var half := vfs.nodes;
    for i := 0 to later
      invariant ValidTree(vfs.nodes) && vfs.nodes == half
    {
      var again, fine, at, all := Seed(vfs, contents);
    }
  }
}
