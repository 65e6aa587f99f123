/** First-boot provisioning: directories made where missing, files written once. */
module Provision {
  type Bytes = seq<bv8>

  datatype VfsError = NotFound | NotSupported | InvalidArgument | IoError | AlreadyExists

  datatype Result<T> = Ok(value: T) | Err(error: VfsError)

  datatype Node = Dir | File(bytes: Bytes)

  // A node by the names that lead to it from the root.
  type Path = seq<string>
  type Tree = map<Path, Node>

  // ─── paths ─────────────────────────────────────────────────────────────────

  /** Length of the segment before the first slash. */
  function SegmentLen(s: string): (n: nat)
    ensures n <= |s| && (forall i :: 0 <= i < n ==> s[i] != '/') && (n < |s| ==> s[n] == '/')
  {
    if s == "" || s[0] == '/' then 0 else 1 + SegmentLen(s[1..])
  }

  /** `path.split('/')` without the empty parts. */
  function Parts(s: string): Path
    decreases |s|
  {
    if s == "" then []
    else
      var n := SegmentLen(s);
      (if n == 0 then [] else [s[..n]]) + if n == |s| then [] else Parts(s[n + 1..])
  }

  function Named(name: string): Path {
    if name == "" then [] else [name]
  }

  lemma {:induction false} SegmentIs(s: string, n: nat)
    requires n <= |s| && (forall i :: 0 <= i < n ==> s[i] != '/') && (n < |s| ==> s[n] == '/')
    ensures SegmentLen(s) == n
  {
  }

  lemma SplitAt(s: string, name: string, n: nat)
    requires n <= |s|
    ensures var t := s + "/" + name;
            t[..n] == s[..n] && t[n + 1..] == if n == |s| then name else s[n + 1..] + "/" + name
  {
  }

  lemma Regroup(x: Path, y: Path, z: Path)
    ensures x + y + z == x + (y + z)
  {
  }

  lemma {:induction false} PartsFirst(s: string, n: nat)
    requires n == SegmentLen(s) < |s|
    ensures Parts(s) == Named(s[..n]) + Parts(s[n + 1..])
  {
  }

  lemma {:induction false} PartsOne(s: string)
    requires forall i :: 0 <= i < |s| ==> s[i] != '/'
    ensures Parts(s) == Named(s)
  {
    SegmentIs(s, |s|);
    assert s[..|s|] == s;
  }

  /** Splitting at the last slash splits the parts before the last name. */
  lemma {:induction false} PartsSplit(s: string, name: string)
    requires forall i :: 0 <= i < |name| ==> name[i] != '/'
    ensures Parts(s + "/" + name) == Parts(s) + Named(name)
    decreases |s|
  {
    var t, n := s + "/" + name, SegmentLen(s);
    SegmentIs(t, n);
    SplitAt(s, name, n);
    PartsFirst(t, n);
    if n == |s| {
      PartsOne(name);
      PartsOne(s);
      assert s[..n] == s;
    } else {
      PartsFirst(s, n);
      PartsSplit(s[n + 1..], name);
      Regroup(Named(s[..n]), Parts(s[n + 1..]), Named(name));
    }
  }

  // ─── trees ─────────────────────────────────────────────────────────────────

  /** Every node but the root sits in a directory. */
  ghost predicate ValidTree(t: Tree) {
    && ([] in t ==> t[[]] == Dir)
    && forall p {:trigger InDir(t, p)} :: p in t && p != [] ==> InDir(t, p)
  }

  ghost predicate InDir(t: Tree, p: Path)
    requires p != []
  {
    Parent(p) in t && t[Parent(p)] == Dir
  }

  function Parent(p: Path): Path
    requires p != []
  {
    p[..|p| - 1]
  }

  /** Nothing that was there has gone, changed kind or changed contents. */
  ghost predicate Preserved(was: Tree, now: Tree) {
    forall p :: p in was ==> p in now && now[p] == was[p]
  }

  /** The tree with a directory at each of the first `k` prefixes of `parts` that has no node yet. */
  ghost function WithDirs(t: Tree, parts: Path, k: nat): Tree
    requires k <= |parts|
    decreases k
  {
    if k == 0 then t
    else
      var before := WithDirs(t, parts, k - 1);
      if parts[..k] in before then before else before[parts[..k] := Dir]
  }

  /** Exactly the missing prefixes are new, as directories; everything else is as it was. */
  lemma {:induction false} WithDirsExactly(t: Tree, parts: Path, k: nat, p: Path)
    requires k <= |parts|
    ensures p in WithDirs(t, parts, k) <==> p in t || exists i :: 0 < i <= k && p == parts[..i]
    ensures p in t ==> p in WithDirs(t, parts, k) && WithDirs(t, parts, k)[p] == t[p]
    ensures p in WithDirs(t, parts, k) && p !in t ==> WithDirs(t, parts, k)[p] == Dir
    decreases k
  {
    if k > 0 {
      WithDirsExactly(t, parts, k - 1, p);
      WithDirsExactly(t, parts, k - 1, parts[..k]);
    }
  }

  lemma {:induction false} WithDirsPreserves(t: Tree, parts: Path, k: nat)
    requires k <= |parts|
    ensures Preserved(t, WithDirs(t, parts, k))
  {
    forall p | p in t ensures p in WithDirs(t, parts, k) && WithDirs(t, parts, k)[p] == t[p] {
      WithDirsExactly(t, parts, k, p);
    }
  }

  /** In a valid tree the missing prefixes of a path are its longest ones. */
  lemma {:induction false} MissingSuffix(t: Tree, parts: Path, i: nat, j: nat)
    requires ValidTree(t) && i <= j <= |parts| && parts[..j] in t
    ensures parts[..i] in t
    decreases j - i
  {
    if i < j {
      assert InDir(t, parts[..j]) && Parent(parts[..j]) == parts[..j - 1];
      MissingSuffix(t, parts, i, j - 1);
    }
  }

  /** Once the directories are there, making them again changes nothing. */
  lemma {:induction false} WithDirsAgain(t: Tree, parts: Path, k: nat)
    requires k <= |parts| && forall i :: 0 < i <= k ==> parts[..i] in t
    ensures WithDirs(t, parts, k) == t
    decreases k
  {
    if k > 0 { WithDirsAgain(t, parts, k - 1); }
  }

  /** Whatever a second call for the same path does, succeeding or not, the tree of the first stays. */
  lemma {:induction false} MakeAgain(t: Tree, parts: Path, k: nat)
    requires k <= |parts|
    ensures WithDirs(WithDirs(t, parts, |parts|), parts, k) == WithDirs(t, parts, |parts|)
  {
    var made := WithDirs(t, parts, |parts|);
    forall i | 0 < i <= k ensures parts[..i] in made {
      WithDirsExactly(t, parts, |parts|, parts[..i]);
    }
    WithDirsAgain(made, parts, k);
  }

  lemma ValidWith(t: Tree, p: Path, n: Node)
    requires ValidTree(t) && p != [] && p !in t && Parent(p) in t && t[Parent(p)] == Dir
    ensures ValidTree(t[p := n])
  {
    var t' := t[p := n];
    forall q | q in t' && q != [] ensures InDir(t', q) {
      if q != p { assert InDir(t, q); }
    }
  }

  lemma ValidRewritten(t: Tree, p: Path, bytes: Bytes)
    requires ValidTree(t) && p in t && t[p].File?
    ensures ValidTree(t[p := File(bytes)])
  {
    forall q | q in t && q != [] ensures InDir(t[p := File(bytes)], q) {
      assert InDir(t, q);
    }
  }

  /** Whatever is new lies on `path`, and is a directory unless it is `path` itself; nothing that was there changed. */
  ghost predicate Grows(was: Tree, now: Tree, path: Path) {
    Preserved(was, now) && forall p :: p in now && p !in was ==> p <= path && (p != path ==> now[p] == Dir)
  }

  lemma {:induction false} WithDirsGrows(t: Tree, parts: Path, k: nat, path: Path)
    requires k <= |parts| && parts <= path
    ensures Grows(t, WithDirs(t, parts, k), path)
  {
    var now := WithDirs(t, parts, k);
    WithDirsPreserves(t, parts, k);
    forall p | p in now && p !in t ensures p <= path && now[p] == Dir {
      WithDirsExactly(t, parts, k, p);
    }
  }

  // ─── the file system below ─────────────────────────────────────────────────

  // What the backend makes of creating and writing a node: it works, it may fail at any time, or the
  // node cannot be created at all.
  datatype Health = Sound | Fickle | Broken

  // Lookups may fail at any time too, unless `lookupsWork`; errors are whatever the backend likes.
  class Vfs {
    var nodes: Tree
    const lookupsWork: bool
    const health: Path -> Health

    constructor (t: Tree, lookupsWork: bool, health: Path -> Health)
      ensures nodes == t && this.lookupsWork == lookupsWork && this.health == health
    {
      nodes := t;
      this.lookupsWork, this.health := lookupsWork, health;
    }

    /** `VfsNode::lookup`: not found is only said of a name that is not there. */
    method Lookup(dir: Path, name: string) returns (r: Result<Node>)
      ensures r.Ok? ==> dir + [name] in nodes && r.value == nodes[dir + [name]]
      ensures r == Err(NotFound) ==> dir + [name] !in nodes
      ensures lookupsWork && dir + [name] in nodes ==> r.Ok?
      ensures lookupsWork && dir + [name] !in nodes ==> r == Err(NotFound)
    {
      var failed: bool := *;
      if failed && !lookupsWork { return Err(IoError); }
      if dir + [name] !in nodes { return Err(NotFound); }
      return Ok(nodes[dir + [name]]);
    }

    /** `lookup_path`: absolute paths only. */
    method LookupPath(path: string) returns (r: Result<Path>)
      ensures r.Ok? ==> path != "" && path[0] == '/' && r.value == Parts(path) && r.value in nodes
      ensures lookupsWork && path != "" && path[0] == '/' && Parts(path) in nodes ==> r.Ok?
    {
      if path == "" || path[0] != '/' { return Err(InvalidArgument); }
      var failed: bool := *;
      if failed && !lookupsWork { return Err(IoError); }
      if Parts(path) !in nodes { return Err(NotFound); }
      return Ok(Parts(path));
    }

    /** `create_dir` and `create_file`: never over an existing name, never without a name. */
    method Create(dir: Path, name: string, node: Node) returns (r: Result<Path>)
      requires ValidTree(nodes) && dir in nodes && nodes[dir] == Dir
      modifies this
      ensures ValidTree(nodes)
      ensures r.Ok? ==>
        name != "" && r.value == dir + [name] && r.value !in old(nodes) && nodes == old(nodes)[r.value := node]
      ensures r.Err? ==> nodes == old(nodes)
      ensures health(dir + [name]) == Broken ==> r.Err?
      ensures name != "" && dir + [name] !in old(nodes) && health(dir + [name]) == Sound ==> r.Ok?
    {
      if name == "" { return Err(InvalidArgument); }
      var p := dir + [name];
      if p in nodes { return Err(AlreadyExists); }
      var refused: bool := *;
      if health(p) == Broken || (refused && health(p) == Fickle) { return Err(NotSupported); }
      assert Parent(p) == dir;
      ValidWith(nodes, p, node);
      nodes := nodes[p := node];
      return Ok(p);
    }

    /** `write` at offset 0 of a new file: a failure may leave any part of it. */
    method WriteNew(p: Path, data: Bytes) returns (r: Result<nat>, ghost wrote: Bytes)
      requires ValidTree(nodes) && p in nodes && nodes[p].File?
      modifies this
      ensures ValidTree(nodes) && nodes == old(nodes)[p := File(wrote)]
      ensures r.Ok? && r.value == |data| ==> wrote == data
      ensures health(p) == Sound ==> r == Ok(|data|)
    {
      var n: int := *;
      if n < 0 || n > |data| || health(p) == Sound { n := |data|; }
      ValidRewritten(nodes, p, data[..n]);
      nodes := nodes[p := File(data[..n])];
      wrote := data[..n];
      var failed: bool := *;
      if failed && health(p) != Sound { r := Err(IoError); } else { r := Ok(n); }
    }
  }

  // ─── ensure_dir and write_once ─────────────────────────────────────────────

  /** The first `k` names of the path can all be created. */
  ghost predicate AllSound(health: Path -> Health, parts: Path, k: nat)
    requires k <= |parts|
  {
    forall i {:trigger SoundAt(health, parts, i)} :: 0 < i <= k ==> SoundAt(health, parts, i)
  }

  ghost predicate SoundAt(health: Path -> Health, parts: Path, i: nat)
    requires i <= |parts|
  {
    health(parts[..i]) == Sound
  }

  /** Nothing stands in the way of making the directories of `parts`. */
  ghost predicate Walkable(vfs: Vfs, t: Tree, parts: Path) {
    && vfs.lookupsWork && [] in t && AllSound(vfs.health, parts, |parts|) && NoFileOn(t, parts, |parts|)
    && forall i :: 0 <= i < |parts| ==> parts[i] != ""
  }

  /**
   * `ensure_dir`: on success the tree gains exactly the missing directories of the path; on failure a
   * leading part of them. Nothing that was there changes.
   */
  method EnsureDir(vfs: Vfs, path: string) returns (r: Result<Path>, ghost made: nat)
    requires ValidTree(vfs.nodes)
    modifies vfs
    ensures ValidTree(vfs.nodes) && Preserved(old(vfs.nodes), vfs.nodes)
    ensures made <= |Parts(path)| && vfs.nodes == WithDirs(old(vfs.nodes), Parts(path), made)
    ensures r.Ok? ==>
      made == |Parts(path)| && r.value == Parts(path) && r.value in vfs.nodes && vfs.nodes[r.value] == Dir
    ensures r.Ok? ==> NoFileOn(old(vfs.nodes), Parts(path), |Parts(path)|)
    ensures Walkable(vfs, old(vfs.nodes), Parts(path)) ==> r.Ok?
  {
    made := 0;
    var root := vfs.LookupPath("/");
    RootParts();
    WithDirsPreserves(vfs.nodes, Parts(path), 0);
    if root.Err? { return Err(root.error), 0; }
    r, made := Walk(vfs, Parts(path));
  }

  lemma RootParts()
    ensures Parts("/") == []
  {
  }

  /** No prefix of the path, up to `k` names, is a file. */
  ghost predicate NoFileOn(t: Tree, parts: Path, k: nat)
    requires k <= |parts|
  {
    forall i :: 0 < i <= k ==> !FileAt(t, parts, i)
  }

  ghost predicate FileAt(t: Tree, parts: Path, i: nat)
    requires i <= |parts|
  {
    parts[..i] in t && t[parts[..i]] != Dir
  }

  /** One name further along the path. */
  lemma NextPrefix(t: Tree, parts: Path, i: nat)
    requires i < |parts|
    ensures parts[..i + 1] == parts[..i] + [parts[i]]
    ensures var before, p := WithDirs(t, parts, i), parts[..i + 1];
            && (p in before <==> p in t) && (p in t ==> before[p] == t[p])
            && WithDirs(t, parts, i + 1) == (if p in t then before else before[p := Dir])
  {
    WithDirsExactly(t, parts, i, parts[..i + 1]);
  }

  /** The walk from the root, one part at a time. */
  method Walk(vfs: Vfs, parts: Path) returns (r: Result<Path>, ghost made: nat)
    requires ValidTree(vfs.nodes) && [] in vfs.nodes
    modifies vfs
    ensures ValidTree(vfs.nodes) && Preserved(old(vfs.nodes), vfs.nodes)
    ensures made <= |parts| && vfs.nodes == WithDirs(old(vfs.nodes), parts, made)
    ensures r.Ok? ==> made == |parts| && r.value == parts && parts in vfs.nodes && vfs.nodes[parts] == Dir
    ensures r.Ok? ==> NoFileOn(old(vfs.nodes), parts, |parts|)
    ensures Walkable(vfs, old(vfs.nodes), parts) ==> r.Ok?
  {
    ghost var was := vfs.nodes;
    var node: Path := [];
    for i := 0 to |parts|
      invariant ValidTree(vfs.nodes) && node == parts[..i] && node in vfs.nodes && vfs.nodes[node] == Dir
      invariant vfs.nodes == WithDirs(was, parts, i)
      invariant NoFileOn(was, parts, i)
    {
      NextPrefix(was, parts, i);
      var child := Descend(vfs, node, parts[i]);
      if child.Err? {
        WithDirsPreserves(was, parts, i);
        Refused(vfs, was, parts, i);
        return Err(child.error), i;
      }
      node := child.value;
    }
    assert parts[..|parts|] == parts;
    WithDirsPreserves(was, parts, |parts|);
    return Ok(node), |parts|;
  }

  /** Only a path with something in its way is refused. */
  lemma Refused(vfs: Vfs, t: Tree, parts: Path, i: nat)
    requires i < |parts| && parts[..i + 1] == parts[..i] + [parts[i]]
    requires vfs.lookupsWork && parts[i] != "" && vfs.health(parts[..i + 1]) == Sound ==> FileAt(t, parts, i + 1)
    ensures !Walkable(vfs, t, parts)
  {
    assert SoundAt(vfs.health, parts, i + 1) ==> !vfs.lookupsWork || parts[i] == "" || FileAt(t, parts, i + 1);
  }

  /** One part of the walk: into the child directory, made if there is no node of that name. */
  method Descend(vfs: Vfs, node: Path, part: string) returns (r: Result<Path>)
    requires ValidTree(vfs.nodes) && node in vfs.nodes && vfs.nodes[node] == Dir
    modifies vfs
    ensures ValidTree(vfs.nodes)
    ensures r.Ok? ==> r.value == node + [part] && r.value in vfs.nodes && vfs.nodes[r.value] == Dir
    ensures r.Ok? ==>
      vfs.nodes == if node + [part] in old(vfs.nodes) then old(vfs.nodes) else old(vfs.nodes)[node + [part] := Dir]
    ensures r.Err? ==> vfs.nodes == old(vfs.nodes)
    ensures vfs.lookupsWork && part != "" && vfs.health(node + [part]) == Sound ==>
      r.Ok? || (node + [part] in old(vfs.nodes) && old(vfs.nodes)[node + [part]] != Dir)
  {
    var child := vfs.Lookup(node, part);
    match child
    case Ok(n) =>
      if n != Dir { return Err(InvalidArgument); }
      return Ok(node + [part]);
    case Err(error) =>
      if error != NotFound { return Err(error); }
      r := vfs.Create(node, part, Dir);
  }

  /** `rfind('/')`. */
  method LastSlash(path: string) returns (r: int)
    ensures r == -1 || (0 <= r < |path| && path[r] == '/')
    ensures forall i :: r < i < |path| ==> path[i] != '/'
    ensures r == -1 ==> '/' !in path
  {
    r := |path| - 1;
    while r >= 0 && path[r] != '/'
      invariant -1 <= r < |path| && forall i :: r < i < |path| ==> path[i] != '/'
    {
      r := r - 1;
    }
  }

  /** Nothing stands in the way of the new file at `parts`. */
  ghost predicate Writable(vfs: Vfs, t: Tree, parts: Path) {
    parts != [] && Walkable(vfs, t, Parent(parts)) && vfs.health(parts) == Sound && parts[|parts| - 1] != ""
  }

  /** A directory part and a file name. */
  predicate EndsInName(path: string) {
    '/' in path && path[|path| - 1] != '/'
  }

  /**
   * `write_once`: whatever happens, nothing that was there changes, and a path that has a node is left
   * alone; success on a new path leaves the missing directories and the file with exactly the data.
   */
  method WriteOnce(vfs: Vfs, path: string, data: Bytes) returns (r: Result<()>, ghost wrote: bool)
    requires ValidTree(vfs.nodes)
    modifies vfs
    ensures ValidTree(vfs.nodes) && Grows(old(vfs.nodes), vfs.nodes, Parts(path))
    ensures Parts(path) in old(vfs.nodes) ==> vfs.nodes == old(vfs.nodes)
    ensures Parts(path) in old(vfs.nodes) && vfs.lookupsWork && path != "" && path[0] == '/' ==> r.Ok?
    ensures r.Ok? ==> Parts(path) in vfs.nodes && (Parts(path) !in old(vfs.nodes) ==> wrote)
    ensures EndsInName(path) && Parts(path) in vfs.nodes && Parts(path) !in old(vfs.nodes) ==>
      (wrote <==> vfs.nodes[Parts(path)] == File(data))
    ensures wrote ==>
      && Parts(path) != [] && Parts(path) !in old(vfs.nodes)
      && vfs.nodes == WithDirs(old(vfs.nodes), Parent(Parts(path)), |Parts(path)| - 1)[Parts(path) := File(data)]
    ensures Parts(path) !in old(vfs.nodes) && EndsInName(path) ==>
      && (vfs.health(Parts(path)) == Broken ==> r.Err? && Parts(path) !in vfs.nodes)
      && (Writable(vfs, old(vfs.nodes), Parts(path)) ==> r.Ok?)
  {
    wrote := false;
    var found := vfs.LookupPath(path);
    if found.Ok? { r := Ok(()); return; }
    var split := LastSlash(path);
    if split < 0 { r := Err(InvalidArgument); return; }
    var parent := if split == 0 then "/" else path[..split];
    var name := path[split + 1..];
    PathSplits(path, split, parent, name);
    r, wrote := WriteAt(vfs, path, parent, name, data);
  }

  /** The directories of the path, then the file. */
  method WriteAt(vfs: Vfs, ghost path: string, parent: string, name: string, data: Bytes)
    returns (r: Result<()>, ghost wrote: bool)
    requires ValidTree(vfs.nodes) && Parts(path) == Parts(parent) + Named(name)
    modifies vfs
    ensures ValidTree(vfs.nodes) && Grows(old(vfs.nodes), vfs.nodes, Parts(path))
    ensures Parts(path) in old(vfs.nodes) ==> vfs.nodes == old(vfs.nodes) && r.Err?
    ensures r.Ok? ==> wrote
    ensures !wrote && name != "" && Parts(path) in vfs.nodes && Parts(path) !in old(vfs.nodes) ==>
      vfs.nodes[Parts(path)] != File(data)
    ensures wrote ==>
      && Parts(path) != [] && Parts(path) !in old(vfs.nodes)
      && vfs.nodes == WithDirs(old(vfs.nodes), Parent(Parts(path)), |Parts(path)| - 1)[Parts(path) := File(data)]
    ensures Parts(path) !in old(vfs.nodes) && name != "" ==>
      && (vfs.health(Parts(path)) == Broken ==> r.Err? && Parts(path) !in vfs.nodes)
      && (Writable(vfs, old(vfs.nodes), Parts(path)) ==> r.Ok?)
  {
    ghost var was := vfs.nodes;
    wrote := false;
    var dir, made := EnsureDir(vfs, parent);
    ghost var mid := vfs.nodes;
    DirsMade(was, Parts(parent), name, Parts(path), made);
    if name != "" { FileIn(was, Parts(parent), name, Parts(path)); }
    if dir.Err? { r := Err(dir.error); return; }
    r, wrote := InstallNew(vfs, dir.value, name, data);
    GrowsThen(was, mid, vfs.nodes, Parts(path));
  }

  /** What the directories are to the file. */
  lemma {:induction false} DirsMade(was: Tree, dir: Path, name: string, full: Path, made: nat)
    requires ValidTree(was) && full == dir + Named(name) && made <= |dir|
    ensures Grows(was, WithDirs(was, dir, made), full)
    ensures full in was ==> WithDirs(was, dir, made) == was
    ensures name != "" && full !in was ==> full !in WithDirs(was, dir, made)
  {
    WithDirsGrows(was, dir, made, full);
    WithDirsExactly(was, dir, made, full);
    if full in was {
      AllThere(was, dir, full);
      WithDirsAgain(was, dir, made);
    }
  }

  lemma {:induction false} FileIn(was: Tree, dir: Path, name: string, full: Path)
    requires full == dir + Named(name) && name != ""
    ensures full != [] && Parent(full) == dir && dir + [name] == full
    ensures WithDirs(was, dir, |dir|) == WithDirs(was, Parent(full), |full| - 1)
  {
    assert Parent(full) == dir && |full| - 1 == |dir|;
  }

  lemma GrowsThen(was: Tree, mid: Tree, now: Tree, path: Path)
    requires Grows(was, mid, path) && Preserved(mid, now) && forall p :: p in now && p !in mid ==> p == path
    ensures Grows(was, now, path)
  {
  }

  /** The new file in its directory; `wrote` if all of the data got there, whatever is returned. */
  method InstallNew(vfs: Vfs, dir: Path, name: string, data: Bytes) returns (r: Result<()>, ghost wrote: bool)
    requires ValidTree(vfs.nodes) && dir in vfs.nodes && vfs.nodes[dir] == Dir
    modifies vfs
    ensures ValidTree(vfs.nodes) && Preserved(old(vfs.nodes), vfs.nodes)
    ensures forall p :: p in vfs.nodes && p !in old(vfs.nodes) ==> p == dir + Named(name)
    ensures dir + Named(name) in old(vfs.nodes) ==> vfs.nodes == old(vfs.nodes)
    ensures r.Ok? ==> wrote
    ensures wrote ==>
      name != "" && dir + [name] !in old(vfs.nodes) && vfs.nodes == old(vfs.nodes)[dir + [name] := File(data)]
    ensures !wrote && dir + [name] in vfs.nodes && dir + [name] !in old(vfs.nodes) ==>
      vfs.nodes[dir + [name]] != File(data)
    ensures vfs.health(dir + [name]) == Broken ==> r.Err? && vfs.nodes == old(vfs.nodes)
    ensures name != "" && dir + [name] !in old(vfs.nodes) && vfs.health(dir + [name]) == Sound ==> r.Ok?
  {
    wrote := false;
    var file := vfs.Create(dir, name, File([]));
    if file.Err? { r := Err(file.error); return; }
    var n, part := vfs.WriteNew(file.value, data);
    wrote := part == data;
    if n.Err? { r := Err(n.error); return; }
    if n.value != |data| { r := Err(IoError); return; }
    r := Ok(());
  }

  lemma {:induction false} PathSplits(path: string, split: nat, parent: string, name: string)
    requires split < |path| && path[split] == '/' && forall i :: split < i < |path| ==> path[i] != '/'
    requires parent == (if split == 0 then "/" else path[..split]) && name == path[split + 1..]
    ensures Parts(path) == Parts(parent) + Named(name)
  {
    assert path == path[..split] + "/" + name;
    PartsSplit(path[..split], name);
    if split == 0 {
      assert path[..split] == "";
      PartsSplit("", "");
      assert "" + "/" + "" == "/";
    }
  }

  /** A path with a node has all its directories. */
  lemma AllThere(t: Tree, dir: Path, full: Path)
    requires ValidTree(t) && full in t && dir <= full
    ensures forall i :: 0 < i <= |dir| ==> dir[..i] in t
  {
    forall i | 0 < i <= |dir| ensures dir[..i] in t {
      assert dir[..i] == full[..i] && full[..|full|] == full;
      MissingSuffix(t, full, i, |full|);
    }
  }
}
