/** Where the promise of `format` stops: a ring that an earlier journal has used. */
module Limits {
  import opened Disks
  import opened Ring
  import opened Journal
  import opened Recovery
  import opened TornRing
  import opened CutRing
  import opened Commits
  import opened Atomicity
  import opened Histories

  /** Recovery of this disk rewrites no block and acknowledges no record. */
  ghost predicate ReplaysNothing(a: Area, d: Disk)
    requires Fits(a, d) && d[a.fsBlocks].Super?
  {
    var r := ScanOf(a, d);
    r.ok && r.puts == [] && r.replayed == 0
  }

  /** Whatever the disk held, recovery right after `format` replays nothing. */
  lemma {:induction false} FormatReplaysNothing(a: Area, d: Disk)
    requires Fits(a, d)
    ensures var d' := Apply(d, FormatPuts(a));
            Fits(a, d') && d'[a.fsBlocks].Super? && RecoversTo(a, d', FsOf(a, d)) && ReplaysNothing(a, d')
  {
    var ring, d' := RingOf(a, d)[0 := Raw(Pad([]))], Apply(d, FormatPuts(a));
    FormatDisk(a, d);
    DeadSettles(a.crc, ring, FsOf(a, d), 0, 1);
    Recovers(a, d', SuperPut(a, START).block, ring, FsOf(a, d), FsOf(a, d));
    DeadScan(a.crc, ring, a.fsBlocks, 0, 1);
  }

  // ─── a ring under commits, whatever it holds ───────────────────────────────

  /** What is numbered `s` or later on `ring` stood there on `was` already. */
  ghost predicate Inherited(was: Disk, ring: Disk, s: nat) {
    && |was| == |ring|
    && forall q :: 0 <= q < |ring| && ring[q].Desc? && ring[q].seqNo >= s ==> ring[q] == was[q]
  }

  /** The disk as the last write left it: current superblock, live records leading to the head, leftovers from `was`. */
  ghost predicate Grown(a: Area, was: Disk, view: Disk, p: Pointers, ring: Disk, fs: Disk) {
    && p.head < a.logBlocks && p.tail < a.logBlocks && Holds(a, view, SuperPut(a, p).block, ring, fs)
    && Leads(ring, p.tail, Used(a, p), p.head, p.nextSeq) && Inherited(was, ring, p.nextSeq)
  }

  lemma FormatGrown(a: Area, d: Disk)
    requires Fits(a, d)
    ensures var ring := RingOf(a, d)[0 := Raw(Pad([]))];
            Grown(a, RingOf(a, d), View(Formatted(a, d).dev), START, ring, FsOf(a, d))
  {
    FormatDisk(a, d);
  }

  lemma {:induction false} ReclaimGrown(a: Area, was: Disk, dev: Dev, p: Pointers, ring: Disk, fs: Disk, count: nat)
    requires Grown(a, was, View(dev), p, ring, fs)
    ensures Grown(a, was, View(Exec(dev, ReclaimOps(a, p, count))), Reclaimed(a, p, count), ring, fs)
  {
    if NeedsReclaim(a, p, count) {
      var sup := SuperPut(a, p.(tail := p.head));
      ExecTwo(dev, Write(sup), Flush);
      ApplyConcat(dev.stable, dev.cache, [sup]);
      ApplyOne(View(dev), sup);
      UnderSuper(a, View(dev), sup.block);
    }
  }

  lemma InheritedStamp(crc: Checksum, was: Disk, ring: Disk, at: nat, s: nat, txn: Txn)
    requires Inherited(was, ring, s) && at < |ring| && |txn| + 2 <= |ring| && Plain(txn)
    ensures Inherited(was, Stamp(ring, at, Record(crc, txn, s)), s + 1)
  {
    var ring' := Stamp(ring, at, Record(crc, txn, s));
    forall q | 0 <= q < |ring| && ring'[q].Desc? && ring'[q].seqNo >= s + 1 ensures ring'[q] == was[q] {
      if Dist(at, q, |ring|) < |txn| + 2 { StampedKinds(crc, txn, s, Dist(at, q, |ring|)); }
    }
  }

  /** Everything a commit writes after its reclaim, on the disk as a reader sees it. */
  lemma {:induction false} RecordView(a: Area, dev: Dev, p: Pointers, txn: Txn)
    requires 0 < a.logBlocks
    ensures View(Exec(dev, RecordOps(a, p, txn)))
         == Apply(Apply(Apply(View(dev), RecordPuts(a, p.head, p.nextSeq, txn)), txn),
                  [SuperPut(a, Advanced(a, p, |txn|))])
  {
    var rec := RecordPuts(a, p.head, p.nextSeq, txn);
    RecordOpsShape(a, p, txn);
    LogProgramEnd(dev, rec, txn, SuperPut(a, Advanced(a, p, |txn|)));
    ApplyConcat(dev.stable, dev.cache, rec);
  }

  lemma {:induction false} RecordGrown(a: Area, was: Disk, dev: Dev, p: Pointers, ring: Disk, fs: Disk, txn: Txn)
    requires Grown(a, was, View(dev), p, ring, fs) && Loggable(txn, a.logBlocks, a.fsBlocks)
    requires !NeedsReclaim(a, p, |txn|)
    ensures Grown(a, was, View(Exec(dev, RecordOps(a, p, txn))), Advanced(a, p, |txn|),
                  Stamp(ring, p.head, Record(a.crc, txn, p.nextSeq)), Apply(fs, txn))
  {
    var ring', p' := Stamp(ring, p.head, Record(a.crc, txn, p.nextSeq)), Advanced(a, p, |txn|);
    var d1 := Apply(View(dev), RecordPuts(a, p.head, p.nextSeq, txn));
    RecordView(a, dev, p, txn);
    LogPutsRing(a, View(dev), p.head, Record(a.crc, txn, p.nextSeq));
    StampWritten(a, ring, p, txn);
    CheckpointedDisk(a, d1, p, fs, txn);
    ApplyOne(Apply(d1, txn), SuperPut(a, p'));
    UnderSuper(a, Apply(d1, txn), SuperPut(a, p').block);
    AdvancedLeads(a, ring', p, txn);
    InheritedStamp(a.crc, was, ring, p.head, p.nextSeq, txn);
  }

  lemma CommitGrown(a: Area, was: Disk, sys: Sys, ring: Disk, fs: Disk, txn: Txn)
    requires Grown(a, was, View(sys.dev), sys.p, ring, fs) && Plain(txn)
    ensures var sys' := CommitOne(a, sys, txn);
            Grown(a, was, View(sys'.dev), sys'.p, RingAfter(a, ring, sys.p, txn), Committed(a, fs, txn))
  {
    if txn != [] && !TooBig(a, txn) {
      var reclaim, p := ReclaimOps(a, sys.p, |txn|), Reclaimed(a, sys.p, |txn|);
      ReclaimGrown(a, was, sys.dev, sys.p, ring, fs, |txn|);
      if CommitStatus(a, txn) == Done {
        DoneLoggable(a, txn);
        ExecConcat(sys.dev, reclaim, RecordOps(a, p, txn));
        RecordGrown(a, was, Exec(sys.dev, reclaim), p, ring, fs, txn);
      }
    }
  }

  lemma {:induction false} CommitsGrown(a: Area, was: Disk, sys: Sys, ring: Disk, fs: Disk, txns: seq<Txn>)
    requires Grown(a, was, View(sys.dev), sys.p, ring, fs) && forall i :: 0 <= i < |txns| ==> Plain(txns[i])
    ensures var sys' := CommitAll(a, sys, txns);
            && sys'.p == PointersAfterAll(a, sys.p, txns)
            && Grown(a, was, View(sys'.dev), sys'.p, RingAfterAll(a, ring, sys.p, txns), FsAfter(a, fs, txns))
    decreases |txns|
  {
    if txns != [] {
      CommitGrown(a, was, sys, ring, fs, txns[0]);
      CommitsGrown(a, was, CommitOne(a, sys, txns[0]), RingAfter(a, ring, sys.p, txns[0]),
                   Committed(a, fs, txns[0]), txns[1..]);
    }
  }

  // ─── the promise, and when it holds ────────────────────────────────────────

  /**
   * Stepping on over old records from behind the newest one, the scan meets a complete record that
   * happens to carry the next number.
   */
  ghost predicate Leftover(a: Area, ring: Disk, p: Pointers)
    requires p.head < |ring| == a.logBlocks && p.tail < a.logBlocks
  {
    var c := Skip(ring, p.head, p.nextSeq, |ring| - Used(a, p));
    c.budget > 0 && c.pos < |ring| && LiveAt(a.crc, ring, c.pos, p.nextSeq)
  }

  lemma {:induction false} OnwardScan(a: Area, ring: Disk, p: Pointers, c: Cursor)
    requires p.head < |ring| == a.logBlocks && p.tail < a.logBlocks
    requires Leads(ring, p.tail, Used(a, p), p.head, p.nextSeq)
    requires c == Skip(ring, p.head, p.nextSeq, |ring| - Used(a, p))
    ensures c.pos < |ring|
    ensures Scan(a.crc, ring, a.fsBlocks, p.tail, p.nextSeq)
         == Replay(a.crc, ring, a.fsBlocks, c.pos, p.nextSeq, c.budget)
  {
    PathSkip(ring, p.tail, Used(a, p), p.head, p.nextSeq, |ring|, |ring| - Used(a, p));
  }

  lemma {:induction false} ReplaysIff(crc: Checksum, ring: Disk, fs: nat, pos: nat, e: nat, budget: nat)
    requires pos < |ring|
    ensures var r := Replay(crc, ring, fs, pos, e, budget);
            (r.ok && r.puts == [] && r.replayed == 0) <==> !(budget > 0 && LiveAt(crc, ring, pos, e))
  {
    if budget == 0 || !LiveAt(crc, ring, pos, e) { ReplayDead(crc, ring, fs, pos, e, budget); }
  }

  lemma GrownIff(a: Area, was: Disk, view: Disk, p: Pointers, ring: Disk, fs: Disk)
    requires Grown(a, was, view, p, ring, fs)
    ensures Fits(a, view) && view[a.fsBlocks].Super? && (ReplaysNothing(a, view) <==> !Leftover(a, ring, p))
  {
    var c := Skip(ring, p.head, p.nextSeq, |ring| - Used(a, p));
    OnwardScan(a, ring, p, c);
    ReplaysIff(a.crc, ring, a.fsBlocks, c.pos, p.nextSeq, c.budget);
  }

  /**
   * `format` clears one slot of the ring and promises that no scan reaches the rest. Over any disk and
   * after any commits, with no power cut at all, the next recovery replays nothing if and only if no
   * complete old record with the next number lies where the scan goes on behind the new ones; and the
   * descriptor of such a record is one that the ring held before the format.
   */
  lemma ReformatIff(a: Area, d: Disk, txns: seq<Txn>)
    requires Fits(a, d) && forall i :: 0 <= i < |txns| ==> Plain(txns[i])
    ensures var view := View(CommitAll(a, Formatted(a, d), txns).dev);
            var p := PointersAfterAll(a, START, txns);
            var ring := RingAfterAll(a, RingOf(a, d)[0 := Raw(Pad([]))], START, txns);
            && Fits(a, view) && FsOf(a, view) == FsAfter(a, FsOf(a, d), txns) && view[a.fsBlocks].Super?
            && |ring| == a.logBlocks && p.head < a.logBlocks && p.tail < a.logBlocks
            && (ReplaysNothing(a, view) <==> !Leftover(a, ring, p)) && Inherited(RingOf(a, d), ring, p.nextSeq)
  {
    var first, sys := RingOf(a, d)[0 := Raw(Pad([]))], Formatted(a, d);
    FormatGrown(a, d);
    CommitsGrown(a, RingOf(a, d), sys, first, FsOf(a, d), txns);
    GrownIff(a, RingOf(a, d), View(CommitAll(a, sys, txns).dev), PointersAfterAll(a, START, txns),
             RingAfterAll(a, first, START, txns), FsAfter(a, FsOf(a, d), txns));
  }

  // ─── where it fails ────────────────────────────────────────────────────────

  ghost predicate Adjacent(a: Area, t1: Txn, t2: Txn) {
    && Logs(a, t1) && Plain(t1) && Logs(a, t2) && Plain(t2)
    && |t1| + |t2| + 4 <= a.logBlocks
  }

  /** The disk after format and commits that returned. */
  function UsedDisk(a: Area, d: Disk, txns: seq<Txn>): Disk
    requires 0 < a.logBlocks
  {
    View(CommitAll(a, Formatted(a, d), txns).dev)
  }

  /** A second record behind a first one, and nothing numbered beyond it. */
  lemma SecondRecord(crc: Checksum, ring: Disk, t1: Txn, t2: Txn)
    requires Unwritten(ring) && |t1| + |t2| + 4 <= |ring| && Plain(t1) && Plain(t2)
    ensures var ring' := Stamp(Stamp(ring, 0, Record(crc, t1, 1)), |t1| + 2, Record(crc, t2, 2));
            RecordIn(crc, ring', |t1| + 2, 2, t2) && Tidy(ring', 2, |t1| + 2)
  {
    var ring1, rec2 := Stamp(ring, 0, Record(crc, t1, 1)), Record(crc, t2, 2);
    UnwrittenTidy(crc, ring);
    BelowStamped(crc, ring, 0, 1, t1);
    StampPartly(ring1, |t1| + 2, rec2);
    TidyPartly(crc, ring1, Stamp(ring1, |t1| + 2, rec2), 2, |t1| + 2, t2);
    StampRecordIn(crc, ring1, |t1| + 2, 2, t2);
  }

  /** Two records that tile the ring. */
  lemma {:induction false} FullPath(a: Area, ring: Disk, t1: Txn, t2: Txn)
    requires |ring| == a.logBlocks == |t1| + |t2| + 4 && Adjacent(a, t1, t2)
    ensures Path(Stamp(Stamp(ring, 0, Record(a.crc, t1, 1)), |t1| + 2, Record(a.crc, t2, 2)), 0, |ring|, 3)
  {
    var p1, ring1 := Pointers(|t1| + 2, 0, 2), Stamp(ring, 0, Record(a.crc, t1, 1));
    DoneLoggable(a, t1);
    DoneLoggable(a, t2);
    StampWritten(a, ring, START, t1);
    AdvancedLeads(a, ring1, START, t1);
    assert Advanced(a, START, |t1|) == p1;
    StampWritten(a, ring1, p1, t2);
    WholePath(a, Stamp(ring1, |t1| + 2, Record(a.crc, t2, 2)), p1, t2, |ring|, 3);
  }

  lemma {:induction false} WholePath(a: Area, ring: Disk, p: Pointers, txn: Txn, len: nat, s: nat)
    requires Written(a, ring, p, txn) && len == Used(a, p) + |txn| + 2 && s == p.nextSeq + 1
    ensures Path(ring, p.tail, len, s)
  {
    AdvancedPath(a, ring, p, txn);
  }

  /**
   * Two commits that fill the ring exactly: head and tail meet, the live records take every slot, and yet
   * the free-space test sees an empty ring, so that the next commit starts over them without a reclaim.
   */
  lemma {:induction false} FullLooksEmpty(a: Area, d: Disk, t1: Txn, t2: Txn, count: nat)
    requires Blank(a, d) && Adjacent(a, t1, t2) && |t1| + |t2| + 4 == a.logBlocks && count + 2 <= a.logBlocks
    ensures var sys := CommitAll(a, Formatted(a, d), [t1, t2]);
            && sys.p == Pointers(0, 0, 3) && Used(a, sys.p) == 0 && !NeedsReclaim(a, sys.p, count)
            && Fits(a, View(sys.dev)) && Path(RingOf(a, View(sys.dev)), 0, a.logBlocks, 3)
  {
    var ring0 := RingOf(a, d)[0 := Raw(Pad([]))];
    FormatGrown(a, d);
    CommitsGrown(a, RingOf(a, d), Formatted(a, d), ring0, FsOf(a, d), [t1, t2]);
    TwoRings(a, ring0, t1, t2);
    FullPath(a, ring0, t1, t2);
  }

  /** Two commits side by side on a blank disk. */
  lemma TwoCommitsRing(a: Area, d: Disk, t1: Txn, t2: Txn)
    requires Blank(a, d) && Adjacent(a, t1, t2)
    ensures var d' := UsedDisk(a, d, [t1, t2]);
            Fits(a, d') && RecordIn(a.crc, RingOf(a, d'), |t1| + 2, 2, t2) && Tidy(RingOf(a, d'), 2, |t1| + 2)
  {
    var ring0 := RingOf(a, d)[0 := Raw(Pad([]))];
    FormatGrown(a, d);
    CommitsGrown(a, RingOf(a, d), Formatted(a, d), ring0, FsOf(a, d), [t1, t2]);
    TwoRings(a, ring0, t1, t2);
    SecondRecord(a.crc, ring0, t1, t2);
  }

  lemma {:induction false} TwoRings(a: Area, ring: Disk, t1: Txn, t2: Txn)
    requires |ring| == a.logBlocks && Adjacent(a, t1, t2)
    ensures RingAfterAll(a, ring, START, [t1, t2])
         == Stamp(Stamp(ring, 0, Record(a.crc, t1, 1)), |t1| + 2, Record(a.crc, t2, 2))
    ensures PointersAfterAll(a, START, [t1, t2]) == Pointers(Slot(|t1| + |t2| + 4, a.logBlocks), 0, 3)
  {
    var p1, ring1 := Pointers(|t1| + 2, 0, 2), Stamp(ring, 0, Record(a.crc, t1, 1));
    assert CommitPointers(a, START, t1) == p1 && RingAfter(a, ring, START, t1) == ring1;
    assert [t1, t2][1..] == [t2];
    LastRing(a, ring1, p1, t2);
    assert p1.head + |t2| + 2 == |t1| + |t2| + 4;
  }

  lemma {:induction false} LastRing(a: Area, ring: Disk, p: Pointers, txn: Txn)
    requires p.head < |ring| == a.logBlocks && p.tail < a.logBlocks && Logs(a, txn)
    requires !NeedsReclaim(a, p, |txn|)
    ensures RingAfterAll(a, ring, p, [txn]) == Stamp(ring, p.head, Record(a.crc, txn, p.nextSeq))
    ensures PointersAfterAll(a, p, [txn]) == Advanced(a, p, |txn|)
  {
    assert [txn][1..] == [];
  }

  /**
   * Format, commit `t1`, commit `t2`, format again, commit `t3` as long as `t1`: the next recovery
   * writes the old `t2` into the new filesystem.
   */
  lemma ReformatResurrects(a: Area, d: Disk, t1: Txn, t2: Txn, t3: Txn)
    requires Blank(a, d) && Adjacent(a, t1, t2) && |t3| == |t1| && CommitStatus(a, t3) == Done && Plain(t3)
    ensures var d' := UsedDisk(a, UsedDisk(a, d, [t1, t2]), [t3]);
            && Fits(a, d') && d'[a.fsBlocks].Super?
            && ScanOf(a, d').puts == t2 && ScanOf(a, d').replayed == 1 && ScanOf(a, d').ok
  {
    var d1 := UsedDisk(a, d, [t1, t2]);
    TwoCommitsRing(a, d, t1, t2);
    var ring := RingOf(a, d1)[0 := Raw(Pad([]))];
    DoneLoggable(a, t2);
    DoneLoggable(a, t3);
    FormatGrown(a, d1);
    CommitsGrown(a, RingOf(a, d1), Formatted(a, d1), ring, FsOf(a, d1), [t3]);
    LastRing(a, ring, START, t3);
    KeptBehind(a.crc, RingOf(a, d1), t2, |t3| + 2, Raw(Pad([])));
    Resurrected(a, ring, FsOf(a, d1), t2, t3);
  }

  /** What happens to the first slot leaves a record further on alone. */
  lemma KeptBehind(crc: Checksum, ring: Disk, t2: Txn, at: nat, b: Block)
    requires RecordIn(crc, ring, at, 2, t2) && 0 < at && at + |t2| + 2 <= |ring| && Tidy(ring, 2, at) && !b.Desc?
    ensures RecordIn(crc, ring[0 := b], at, 2, t2) && Tidy(ring[0 := b], 2, at)
  {
    forall i | 0 <= i < |t2| + 2 ensures At(ring[0 := b], at + i) == Record(crc, t2, 2)[i] {
      RecordAt(crc, ring, at, 2, t2, i);
    }
  }

  lemma {:induction false} Resurrected(a: Area, ring: Disk, fs: Disk, t2: Txn, t3: Txn)
    requires |ring| == a.logBlocks && Loggable(t2, |ring|, |fs|) && Loggable(t3, |ring|, |fs|)
    requires |t2| + |t3| + 4 <= |ring| && RecordIn(a.crc, ring, |t3| + 2, 2, t2) && Tidy(ring, 2, |t3| + 2)
    ensures var first := Stamp(ring, 0, Record(a.crc, t3, 1));
            && Scan(a.crc, first, |fs|, 0, 2) == Scanned(t2, 1, Slot(|t3| + |t2| + 4, |ring|), true)
            && Settles(a.crc, first, fs, 0, 2, Apply(fs, t2))
  {
    var first, k := Stamp(ring, 0, Record(a.crc, t3, 1)), |t3| + 2;
    StampApart(a.crc, ring, t2, t3);
    StampTidy(a.crc, ring, t3, k);
    assert Dist(0, 0, |ring|) == 0;
    assert Hop(first, 0, 2) == k;
    assert Path(first, k, 0, 2);
    TidyNext(a.crc, first, 2, k);
    assert k + |t2| + 2 == |t3| + |t2| + 4;
    ScanWhole(a.crc, first, |fs|, 0, k, k, 2, t2, Slot(|t3| + |t2| + 4, |ring|));
  }

  lemma StampTidy(crc: Checksum, ring: Disk, t3: Txn, head: nat)
    requires |t3| + 2 <= |ring| && Plain(t3) && Tidy(ring, 2, head)
    ensures Tidy(Stamp(ring, 0, Record(crc, t3, 1)), 2, head)
  {
    var first := Stamp(ring, 0, Record(crc, t3, 1));
    forall q | 0 <= q < |ring| && first[q].Desc? && first[q].seqNo >= 2 ensures q == head && first[q].seqNo == 2 {
      if Dist(0, q, |ring|) < |t3| + 2 { StampedKinds(crc, t3, 1, Dist(0, q, |ring|)); }
    }
  }

  /** The first record of the new journal ends where the old second one starts. */
  lemma StampApart(crc: Checksum, ring: Disk, t2: Txn, t3: Txn)
    requires |t2| + |t3| + 4 <= |ring| && RecordIn(crc, ring, |t3| + 2, 2, t2)
    ensures RecordIn(crc, Stamp(ring, 0, Record(crc, t3, 1)), |t3| + 2, 2, t2)
  {
    var first := Stamp(ring, 0, Record(crc, t3, 1));
    forall i | 0 <= i < |t2| + 2 ensures At(first, |t3| + 2 + i) == Record(crc, t2, 2)[i] {
      assert Dist(0, Slot(|t3| + 2 + i, |ring|), |ring|) >= |t3| + 2;
      RecordAt(crc, ring, |t3| + 2, 2, t2, i);
    }
  }
}
