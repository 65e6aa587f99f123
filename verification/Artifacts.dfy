/** The end-to-end harness's undo log over files, with a kill after any number of file operations. */
module Artifacts {
  type Bytes = seq<bv8>

  // A file of the tree, or the copy of it in the backup directory.
  datatype Path = Tree(name: string) | Saved(name: string)

  // The manifest: missing, cut short by a kill (it does not parse), or the names it lists.
  datatype Manifest = Missing | Cut | Listing(names: seq<string>)

  /** The manifest lists `e`, and its saved copy holds `o`. */
  ghost predicate Undoable(files: map<Path, Bytes>, manifest: Manifest, e: string, o: Bytes) {
    manifest.Listing? && e in manifest.names && Saved(e) in files && files[Saved(e)] == o
  }

  ghost predicate Holds(files: map<Path, Bytes>, p: Path, o: Bytes) {
    p in files && files[p] == o
  }

  /**
   * The original bytes `o` of `e` are in place or can be put back, and no listed copy would put
   * anything else there.
   */
  ghost predicate Safe(files: map<Path, Bytes>, manifest: Manifest, e: string, o: Bytes) {
    && (Holds(files, Tree(e), o) || Undoable(files, manifest, e, o))
    && (manifest.Listing? && e in manifest.names && Saved(e) in files ==> files[Saved(e)] == o)
  }

  /** Both images agree on `p`. */
  ghost predicate Same(files: map<Path, Bytes>, files': map<Path, Bytes>, p: Path) {
    (p in files' <==> p in files) && (p in files ==> files'[p] == files[p])
  }

  /** What copying the saved files in `names` back leaves at `p`. */
  ghost predicate PutBackAt(files: map<Path, Bytes>, files': map<Path, Bytes>, names: seq<string>, p: Path) {
    if p.Tree? && p.name in names && Saved(p.name) in files then Holds(files', p, files[Saved(p.name)])
    else Same(files, files', p)
  }

  /** The saved files in `names` are back in the tree and no backup is left. */
  ghost predicate Restored(files: map<Path, Bytes>, files': map<Path, Bytes>, manifest: Manifest, names: seq<string>) {
    && manifest == Missing && (forall n :: Saved(n) !in files')
    && forall n :: PutBackAt(files, files', names, Tree(n))
  }

  /** Every file of `paths` has its copy, and the backup directory holds nothing else. */
  ghost predicate SavedAll(files: map<Path, Bytes>, paths: seq<string>, saved: seq<string>) {
    && (forall n :: n in saved <==> n in paths && Tree(n) in files)
    && (forall n :: Saved(n) in files <==> n in saved)
    && forall n :: n in saved ==> files[Saved(n)] == files[Tree(n)]
  }

  // The file system as one process uses it: after `fuse` more operations the process is killed, and
  // nothing it does changes anything any more.
  class Store {
    var files: map<Path, Bytes>
    var manifest: Manifest
    var fuse: nat

    constructor (image: map<Path, Bytes>, list: Manifest)
      ensures files == image && manifest == list && fuse == 0
    {
      files, manifest, fuse := image, list, 0;
    }

    method Tick() returns (alive: bool)
      modifies `fuse
      ensures alive == (old(fuse) > 0) && fuse == if alive then old(fuse) - 1 else 0
    {
      alive := fuse > 0;
      if alive { fuse := fuse - 1; }
    }

    /** Copy over a file: a kill on the way leaves any contents. */
    method Overwrite(p: Path, bytes: Bytes)
      modifies `files, `fuse
      ensures files - {p} == old(files) - {p}
      ensures fuse > 0 ==> old(fuse) > 0 && files == old(files)[p := bytes]
      ensures old(fuse) == 0 ==> files == old(files)
    {
      var alive := Tick();
      if alive {
        var partial: Bytes := *;
        files := files[p := partial];
        alive := Tick();
        if alive { files := files[p := bytes]; }
      }
    }

    /** `write_text` of the manifest. */
    method WriteManifest(names: seq<string>)
      modifies `manifest, `fuse
      ensures manifest in {old(manifest), Cut, Listing(names)}
      ensures fuse > 0 ==> old(fuse) > 0 && manifest == Listing(names)
      ensures old(fuse) == 0 ==> manifest == old(manifest)
    {
      var alive := Tick();
      if alive {
        manifest := Cut;
        alive := Tick();
        if alive { manifest := Listing(names); }
      }
    }

    /** `rmtree` of the backup directory, in whatever order it visits the entries. */
    method RemoveBackups()
      modifies this
      ensures manifest in {old(manifest), Missing}
      ensures files.Keys <= old(files).Keys && forall p :: p in files ==> files[p] == old(files)[p]
      ensures forall n :: Same(old(files), files, Tree(n))
      ensures fuse > 0 ==> old(fuse) > 0 && manifest == Missing && forall p :: p in files ==> p.Tree?
    {
      var todo := set p | p in files && p.Saved?;
      while fuse > 0 && (todo != {} || manifest != Missing)
        invariant manifest in {old(manifest), Missing}
        invariant fuse > 0 ==> old(fuse) > 0
        invariant files.Keys <= old(files).Keys && forall p :: p in files ==> files[p] == old(files)[p]
        invariant forall p :: p in old(files) && p.Tree? ==> p in files
        invariant (forall p :: p in files && p.Saved? ==> p in todo) && forall p :: p in todo ==> p.Saved?
        decreases fuse
      {
        var manifestNext: bool := *;
        var alive := Tick();
        if manifest != Missing && (manifestNext || todo == {}) {
          manifest := Missing;
        } else if todo != {} {
          var p :| p in todo;
          files, todo := files - {p}, todo - {p};
        }
      }
    }

    /** Whatever the build or the staging writes to one file, any number of times. */
    method Meddle(name: string)
      modifies `files, `fuse
      ensures files - {Tree(name)} == old(files) - {Tree(name)}
      ensures fuse > 0 ==> old(fuse) > 0
    {
      var more: bool := *;
      while more && fuse > 0
        invariant files - {Tree(name)} == old(files) - {Tree(name)}
        invariant fuse > 0 ==> old(fuse) > 0
        decreases fuse
      {
        var gone: bool, bytes: Bytes := *, *;
        var alive := Tick();
        files := if gone then files - {Tree(name)} else files[Tree(name) := bytes];
        more := *;
      }
    }
  }

  lemma KeptOutside(files: map<Path, Bytes>, files': map<Path, Bytes>, p: Path, q: Path)
    requires files' - {p} == files - {p} && q != p
    ensures Same(files, files', q)
  {
    assert q in files <==> q in files - {p};
    assert q in files' <==> q in files' - {p};
    if q in files { assert (files - {p})[q] == files[q] && (files' - {p})[q] == files'[q]; }
  }

  /** One more saved file copied back. */
  lemma PutBackMore(files: map<Path, Bytes>, mid: map<Path, Bytes>, files': map<Path, Bytes>, names: seq<string>,
                    n: string)
    requires forall p :: PutBackAt(files, mid, names, p)
    requires files' == if Saved(n) in mid then mid[Tree(n) := mid[Saved(n)]] else mid
    ensures forall p :: PutBackAt(files, files', names + [n], p)
  {
    assert PutBackAt(files, mid, names, Saved(n));
    forall p ensures PutBackAt(files, files', names + [n], p) {
      assert PutBackAt(files, mid, names, p);
    }
  }

  /** The backup directory removed behind the copies. */
  lemma OnlyTree(files: map<Path, Bytes>, mid: map<Path, Bytes>, files': map<Path, Bytes>, names: seq<string>)
    requires forall p :: PutBackAt(files, mid, names, p)
    requires forall n :: Same(mid, files', Tree(n))
    requires forall p :: p in files' ==> p.Tree?
    ensures Restored(files, files', Missing, names)
  {
    forall n ensures PutBackAt(files, files', names, Tree(n)) {
      assert PutBackAt(files, mid, names, Tree(n)) && Same(mid, files', Tree(n));
    }
  }

  /** One more path of the tree saved, if it exists. */
  lemma SavedMore(files: map<Path, Bytes>, files': map<Path, Bytes>, paths: seq<string>, saved: seq<string>, n: string)
    requires SavedAll(files, paths, saved)
    requires files' == if Tree(n) in files then files[Saved(n) := files[Tree(n)]] else files
    ensures SavedAll(files', paths + [n], if Tree(n) in files then saved + [n] else saved)
    ensures forall m :: Same(files, files', Tree(m))
  {
  }

  class Artifacts {
    const store: Store
    var saved: seq<string>
    var active: bool

    constructor (s: Store)
      ensures store == s && saved == [] && !active
    {
      store, saved, active := s, [], false;
    }

    /** Copy the saved files in `names` back over the originals. */
    method PutBack(names: seq<string>, ghost e: string, ghost o: Bytes)
      requires Safe(store.files, store.manifest, e, o)
      requires store.fuse > 0 ==> store.manifest == Listing(names)
      modifies store`files, store`fuse
      ensures Safe(store.files, store.manifest, e, o)
      ensures store.fuse > 0 ==> old(store.fuse) > 0 && Holds(store.files, Tree(e), o)
      ensures store.fuse > 0 ==> forall p :: PutBackAt(old(store.files), store.files, names, p)
    {
      for i := 0 to |names|
        invariant Safe(store.files, store.manifest, e, o) && store.manifest == old(store.manifest)
        invariant store.fuse > 0 ==> forall p :: PutBackAt(old(store.files), store.files, names[..i], p)
        invariant store.fuse > 0 ==> old(store.fuse) > 0
        invariant store.fuse > 0 && e in names[..i] ==> Holds(store.files, Tree(e), o)
      {
        ghost var before := store.files;
        if Saved(names[i]) in store.files {
          store.Overwrite(Tree(names[i]), store.files[Saved(names[i])]);
          KeptOutside(before, store.files, Tree(names[i]), Saved(e));
          if names[i] != e { KeptOutside(before, store.files, Tree(names[i]), Tree(e)); }
        }
        assert names[..i + 1] == names[..i] + [names[i]];
        if store.fuse > 0 { PutBackMore(old(store.files), before, store.files, names[..i], names[i]); }
      }
      assert names[..|names|] == names;
    }

    /** Restore a backup that a killed run left behind. */
    method HealStale(ghost e: string, ghost o: Bytes)
      requires Safe(store.files, store.manifest, e, o)
      modifies store
      ensures Safe(store.files, store.manifest, e, o)
      ensures store.fuse > 0 ==> old(store.fuse) > 0 && Holds(store.files, Tree(e), o) && !store.manifest.Listing?
      ensures store.fuse > 0 && old(store.manifest).Listing? ==>
        Restored(old(store.files), store.files, store.manifest, old(store.manifest).names)
      ensures !old(store.manifest).Listing? ==> store.files == old(store.files) && store.manifest == old(store.manifest)
    {
      if store.manifest.Listing? {
        ghost var names := store.manifest.names;
        PutBack(store.manifest.names, e, o);
        ghost var mid := store.files;
        if store.fuse > 0 { store.RemoveBackups(); }
        if store.fuse > 0 { OnlyTree(old(store.files), mid, store.files, names); }
      }
    }

    /** Save what the run is about to overwrite; the manifest comes last. */
    method Backup(paths: seq<string>, ghost e: string, ghost o: Bytes)
      requires Safe(store.files, store.manifest, e, o) && saved == []
      requires store.fuse > 0 ==> Holds(store.files, Tree(e), o)
      modifies this, store
      ensures Safe(store.files, store.manifest, e, o)
      ensures store.fuse > 0 ==> old(store.fuse) > 0 && active && store.manifest == Listing(saved)
      ensures store.fuse > 0 && e in paths ==> Undoable(store.files, store.manifest, e, o)
      ensures store.fuse > 0 ==> SavedAll(store.files, paths, saved)
      ensures forall n :: Same(old(store.files), store.files, Tree(n))
    {
      if store.fuse > 0 { store.RemoveBackups(); }
      for i := 0 to |paths|
        invariant Safe(store.files, store.manifest, e, o)
        invariant store.fuse > 0 ==> old(store.fuse) > 0 && store.manifest == Missing && Holds(store.files, Tree(e), o)
        invariant store.fuse > 0 && Saved(e) in store.files ==> store.files[Saved(e)] == o
        invariant store.fuse > 0 ==> SavedAll(store.files, paths[..i], saved)
        invariant forall n :: Same(old(store.files), store.files, Tree(n))
      {
        ghost var before := store.files;
        if Tree(paths[i]) in store.files {
          store.Overwrite(Saved(paths[i]), store.files[Tree(paths[i])]);
          KeptOutside(before, store.files, Saved(paths[i]), Tree(e));
          if paths[i] != e { KeptOutside(before, store.files, Saved(paths[i]), Saved(e)); }
          forall n ensures Same(before, store.files, Tree(n)) {
            KeptOutside(before, store.files, Saved(paths[i]), Tree(n));
          }
          ghost var was := saved;
          saved := saved + [paths[i]];
          if store.fuse > 0 { SavedMore(before, store.files, paths[..i], was, paths[i]); }
        }
        assert paths[..i + 1] == paths[..i] + [paths[i]];
      }
      assert paths[..|paths|] == paths;
      store.WriteManifest(saved);
      active := true;
    }

    method Restore(ghost e: string, ghost o: Bytes)
      requires Safe(store.files, store.manifest, e, o)
      requires active && store.fuse > 0 ==> store.manifest == Listing(saved)
      modifies this, store
      ensures Safe(store.files, store.manifest, e, o)
      ensures old(active) && store.fuse > 0 ==> Holds(store.files, Tree(e), o)
      ensures old(active) && store.fuse > 0 ==>
        Restored(old(store.files), store.files, store.manifest, saved) && saved == old(saved) && !active
      ensures !old(active) ==>
        store.files == old(store.files) && store.manifest == old(store.manifest) && store.fuse == old(store.fuse)
    {
      if active {
        PutBack(saved, e, o);
        ghost var mid := store.files;
        if store.fuse > 0 { store.RemoveBackups(); }
        if store.fuse > 0 { OnlyTree(old(store.files), mid, store.files, saved); }
        active := false;
      }
    }
  }

  // One run of the harness: where it stages, what it links, whether it keeps its artifacts, and
  // after how many file operations it is killed.
  datatype Plan = Plan(stage: string, target: string, keep: bool, fuse: nat)

  /** Heal, build, back up, stage, clean up; any step may fail and go straight to the clean-up. */
  method Harness(store: Store, plan: Plan, ghost e: string, ghost o: Bytes)
    requires Safe(store.files, store.manifest, e, o) && plan.target != e
    modifies store
    ensures Safe(store.files, store.manifest, e, o)
  {
    store.fuse := plan.fuse;
    var artifacts := new Artifacts(store);
    var failed: bool := *;
    artifacts.HealStale(e, o);
    if !failed {
      failed := *;
      ghost var before := store.files;
      store.Meddle(plan.target);
      KeptOutside(before, store.files, Tree(plan.target), Tree(e));
      KeptOutside(before, store.files, Tree(plan.target), Saved(e));
    }
    if !failed {
      artifacts.Backup([plan.stage, plan.target], e, o);
      Staged(store, plan.stage, e, o);
    }
    if !plan.keep { artifacts.Restore(e, o); }
  }

  /** Staging overwrites the one file it stages, which the backup lists. */
  method Staged(store: Store, stage: string, ghost e: string, ghost o: Bytes)
    requires Safe(store.files, store.manifest, e, o)
    requires store.fuse > 0 && stage == e ==> Undoable(store.files, store.manifest, e, o)
    modifies store`files, store`fuse
    ensures Safe(store.files, store.manifest, e, o) && (store.fuse > 0 ==> old(store.fuse) > 0)
  {
    if store.fuse > 0 {
      ghost var before := store.files;
      store.Meddle(stage);
      KeptOutside(before, store.files, Tree(stage), Saved(e));
      if stage != e { KeptOutside(before, store.files, Tree(stage), Tree(e)); }
    }
  }

  /**
   * Any number of serial runs, each killed after any number of file operations, with any staging
   * directories: the next `heal_stale` that completes leaves `e` with its original bytes.
   */
  method SerialRuns(store: Store, plans: seq<Plan>, fuse: nat, ghost e: string, ghost o: Bytes)
    requires Holds(store.files, Tree(e), o) && store.manifest == Missing
    requires forall i :: 0 <= i < |plans| ==> plans[i].target != e
    modifies store
    ensures store.fuse > 0 ==> Holds(store.files, Tree(e), o)
    ensures Safe(store.files, store.manifest, e, o)
  {
    for i := 0 to |plans|
      invariant Safe(store.files, store.manifest, e, o)
    {
      Harness(store, plans[i], e, o);
    }
    store.fuse := fuse;
    var artifacts := new Artifacts(store);
    artifacts.HealStale(e, o);
  }
}
