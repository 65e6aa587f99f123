/** A second power cut on a reordering cache: runs from a blank disk that end in neither state. */
module SecondCut {
  import opened Disks
  import opened Ring
  import opened Journal
  import opened Recovery
  import opened TornRing
  import opened BehindRing
  import opened CutRing
  import opened Crash
  import opened Commits
  import opened Atomicity
  import opened Histories
  import opened Events
  import opened TornRuns

  // ─── cuts right before the record's barrier ────────────────────────────────

  /** Power fails inside the commit of `txn` after `n` operations and leaves `image`. */
  ghost predicate CutsTo(a: Area, sys: Sys, txn: Txn, n: nat, image: Disk) {
    && sys.p.tail < a.logBlocks && n <= |CommitOps(a, sys.p, txn)|
    && Torn(Exec(sys.dev, CommitOps(a, sys.p, txn)[..n]), image)
  }

  /** A transaction that commits without a reclaim. */
  ghost predicate Fitting(a: Area, p: Pointers, txn: Txn) {
    && p.head < a.logBlocks && p.tail < a.logBlocks && !NeedsReclaim(a, p, |txn|)
    && Logs(a, txn) && Plain(txn)
  }

  /** Any part of the record, with either superblock, is what such a cut can leave. */
  lemma PartCut(a: Area, sys: Sys, fs: Disk, txn: Txn, sb: Block, ring': Disk) returns (d: Disk)
    requires Rests(a, sys.dev, sys.p, fs) && Fitting(a, sys.p, txn)
    requires (sb == sys.dev.stable[a.fsBlocks] || sb == SuperPut(a, sys.p).block) && Sane(a, sb)
    requires Partly(RingOf(a, sys.dev.stable), ring', sys.p.head, Record(a.crc, txn, sys.p.nextSeq))
    ensures CutsTo(a, sys, txn, |txn| + 2, d) && Holds(a, d, sb, ring', fs)
  {
    var rec, p := RecordPuts(a, sys.p.head, sys.p.nextSeq, txn), sys.p;
    d := Graft(a, sys.dev.stable, sb, ring');
    GraftTorn(a, sys.dev, p, fs, txn, sb, ring');
    GraftHolds(a, sys.dev.stable, sb, ring');
    assert CommitOps(a, p, txn) == RecordOps(a, p, txn);
    RecordOpsShape(a, p, txn);
    LogPhases(sys.dev, rec, txn, Write(SuperPut(a, Advanced(a, p, |txn|))), |txn| + 2);
    assert rec[..|txn| + 2] == rec;
  }

  /** What slips in at the head is what recovery writes. */
  lemma SlipCut(a: Area, sys: Sys, fs: Disk, txn: Txn, targets: seq<nat>, data: seq<Block>) returns (d: Disk)
    requires Ready(a, sys.dev, sys.p, fs) && Fitting(a, sys.p, txn) && |targets| == |data|
    requires InBounds(targets, a.fsBlocks) == |targets|
    requires Slips(a.crc, RingOf(a, sys.dev.stable), sys.p.head, sys.p.nextSeq, Record(a.crc, txn, sys.p.nextSeq),
                   targets, data)
    ensures CutsTo(a, sys, txn, |txn| + 2, d) && RecoversTo(a, d, Apply(fs, Puts(targets, data)))
  {
    var ring, p, sb := RingOf(a, sys.dev.stable), sys.p, SuperPut(a, sys.p).block;
    var ring' := Slipped(a.crc, ring, p.head, p.nextSeq, targets, data);
    SlippedPartly(a.crc, ring, p.head, p.nextSeq, Record(a.crc, txn, p.nextSeq), targets, data);
    SlipAdopted(a.crc, ring, fs, p.tail, Used(a, p), p.head, p.nextSeq, txn, targets, data);
    d := PartCut(a, sys, fs, txn, sb, ring');
    Recovers(a, d, sb, ring', fs, Apply(fs, Puts(targets, data)));
  }

  /** What a cut can leave of a commit on a durable format, it can leave before the format is durable. */
  lemma CutsUnsettled(a: Area, blank: Disk, txn: Txn, image: Disk)
    requires Fits(a, blank) && Logs(a, txn)
    requires CutsTo(a, Durable(a, blank), txn, |txn| + 2, image)
    ensures CutsTo(a, Formatted(a, blank), txn, |txn| + 2, image)
  {
    var rec, sup := RecordPuts(a, 0, 1, txn), SuperPut(a, Advanced(a, START, |txn|));
    FirstOps(a, txn);
    RecordOpsShape(a, START, txn);
    LogPhases(Formatted(a, blank).dev, rec, txn, Write(sup), |txn| + 2);
    LogPhases(Durable(a, blank).dev, rec, txn, Write(sup), |txn| + 2);
    assert rec[..|txn| + 2] == rec && [] + rec == rec;
    TornMore(blank, FormatPuts(a), rec, image);
  }

  /** Two transactions of equal length on a blank disk. */
  ghost predicate Pair(a: Area, blank: Disk, t1: Txn, t2: Txn) {
    && Blank(a, blank) && |t1| == |t2| > 0
    && CommitStatus(a, t1) == Done && Plain(t1) && CommitStatus(a, t2) == Done && Plain(t2)
  }

  /** A first cut after which nothing is alive: the journal starts over where it was, with the leftovers `ring`. */
  lemma FirstBoot(a: Area, blank: Disk, t1: Txn, ring: Disk) returns (d1: Disk)
    requires Blank(a, blank) && Fitting(a, START, t1)
    requires Partly(RingOf(a, blank)[0 := Raw(Pad([]))], ring, 0, Record(a.crc, t1, 1))
    requires !LiveAt(a.crc, ring, 0, 1) && Hop(ring, 0, 1) == 0
    ensures CutsTo(a, Formatted(a, blank), t1, |t1| + 2, d1) && RecoversTo(a, d1, FsOf(a, blank))
    ensures RingOf(a, d1) == ring && Ready(a, Booted(a, d1).dev, START, FsOf(a, blank)) && Booted(a, d1).p == START
    ensures RingOf(a, Booted(a, d1).dev.stable) == ring
  {
    var ring0, fs := RingOf(a, blank)[0 := Raw(Pad([]))], FsOf(a, blank);
    FormatDisk(a, blank);
    DurableReady(a, blank);
    DoneLoggable(a, t1);
    d1 := PartCut(a, Durable(a, blank), fs, t1, SuperPut(a, START).block, ring);
    CutsUnsettled(a, blank, t1, d1);
    QuietBoot(a, ring0, START, fs, t1, d1);
    BootedDev(a, d1, fs);
  }

  // ─── a leftover descriptor ─────────────────────────────────────────────────

  /** Only the descriptor of `t1` made it. */
  ghost function HeadOnly(crc: Checksum, ring: Disk, t1: Txn): Disk
    requires 0 < |ring|
  {
    ring[0 := Desc(1, Targets(t1))]
  }

  lemma HeadOnlyDead(crc: Checksum, ring: Disk, t1: Txn)
    requires Unwritten(ring) && |t1| + 2 <= |ring|
    ensures var ring' := HeadOnly(crc, ring, t1);
            Partly(ring, ring', 0, Record(crc, t1, 1)) && !LiveAt(crc, ring', 0, 1) && Hop(ring', 0, 1) == 0
  {
    OnePartly(ring, 0, Record(crc, t1, 1), 0);
    var ring' := HeadOnly(crc, ring, t1);
    assert At(ring', 1 + |t1|) == ring[1 + |t1|];
  }

  lemma HeadOnlySlips(crc: Checksum, ring: Disk, t1: Txn, t2: Txn)
    requires 0 < |t1| == |t2| <= MAX_TARGETS && |t2| + 2 <= |ring|
    ensures Slips(crc, HeadOnly(crc, ring, t1), 0, 1, Record(crc, t2, 1), Targets(t1), Images(t2))
  {
    var ring', rec := HeadOnly(crc, ring, t1), Record(crc, t2, 1);
    forall i | 0 <= i < |t2| ensures MixedAt(ring', 0, rec, 0, Images(t2), i) {
      assert Slot(0 + 1 + i, |ring'|) == i + 1 && rec[i + 1] == t2[i].block;
    }
    assert Slot(0 + 1 + |t1|, |ring'|) == |t2| + 1;
  }

  /**
   * Only the descriptor of `t1` survives the first cut, everything but the descriptor of `t2` the
   * second: recovery writes the images of `t2` to the blocks of `t1`.
   */
  lemma ImagesToOldTargets(a: Area, blank: Disk, t1: Txn, t2: Txn) returns (d1: Disk, d2: Disk)
    requires Pair(a, blank, t1, t2)
    ensures CutsTo(a, Formatted(a, blank), t1, |t1| + 2, d1) && RecoversTo(a, d1, FsOf(a, blank))
    ensures !Below(RingOf(a, d1), Booted(a, d1).p.nextSeq)
    ensures CutsTo(a, Booted(a, d1), t2, |t2| + 2, d2)
    ensures RecoversTo(a, d2, Apply(FsOf(a, blank), Puts(Targets(t1), Images(t2))))
  {
    var ring0 := RingOf(a, blank)[0 := Raw(Pad([]))];
    DoneLoggable(a, t1);
    HeadOnlyDead(a.crc, ring0, t1);
    d1 := FirstBoot(a, blank, t1, HeadOnly(a.crc, ring0, t1));
    HeadOnlySlips(a.crc, ring0, t1, t2);
    AllInBounds(Targets(t1), a.fsBlocks);
    d2 := SlipCut(a, Booted(a, d1), FsOf(a, blank), t2, Targets(t1), Images(t2));
    assert RingOf(a, d1)[0].seqNo == 1;
  }

  // ─── an orphaned commit block ──────────────────────────────────────────────

  /** Everything but the descriptor of `t1` made it. */
  ghost function Headless(crc: Checksum, ring: Disk, t1: Txn): Disk
    requires 0 < |ring|
  {
    Stamp(ring, 0, Record(crc, t1, 1))[0 := ring[0]]
  }

  lemma HeadlessDead(crc: Checksum, ring: Disk, t1: Txn)
    requires Unwritten(ring) && |t1| + 2 <= |ring|
    ensures var ring' := Headless(crc, ring, t1);
            Partly(ring, ring', 0, Record(crc, t1, 1)) && !LiveAt(crc, ring', 0, 1) && Hop(ring', 0, 1) == 0
  {
    var ring', rec := Headless(crc, ring, t1), Record(crc, t1, 1);
    forall q | 0 <= q < |ring| ensures May(ring, 0, rec, q, ring'[q]) {
    }
  }

  lemma HeadlessAt(crc: Checksum, ring: Disk, t1: Txn, i: nat)
    requires |t1| + 2 <= |ring| && 0 < i < |t1| + 2
    ensures Headless(crc, ring, t1)[i] == Record(crc, t1, 1)[i]
  {
    assert Dist(0, i, |ring|) == i;
  }

  lemma HeadlessSlips(crc: Checksum, ring: Disk, t1: Txn, t2: Txn)
    requires 0 < |t1| == |t2| <= MAX_TARGETS && |t2| + 2 <= |ring|
    ensures Slips(crc, Headless(crc, ring, t1), 0, 1, Record(crc, t2, 1), Targets(t2), Images(t1))
  {
    var ring', rec := Headless(crc, ring, t1), Record(crc, t2, 1);
    forall i | 0 <= i < |t1| ensures MixedAt(ring', 0, rec, 0, Images(t1), i) {
      HeadlessAt(crc, ring, t1, i + 1);
      assert Slot(0 + 1 + i, |ring'|) == i + 1 && Record(crc, t1, 1)[i + 1] == t1[i].block;
    }
    HeadlessAt(crc, ring, t1, |t1| + 1);
    assert Slot(0 + 1 + |t2|, |ring'|) == |t1| + 1 && Dist(0, 0, |ring'|) == 0;
  }

  /**
   * Everything but the descriptor of `t1` survives the first cut, only the descriptor of `t2` the
   * second: recovery writes the images of `t1` to the blocks of `t2`.
   */
  lemma OldImagesAdopted(a: Area, blank: Disk, t1: Txn, t2: Txn) returns (d1: Disk, d2: Disk)
    requires Pair(a, blank, t1, t2)
    ensures CutsTo(a, Formatted(a, blank), t1, |t1| + 2, d1) && RecoversTo(a, d1, FsOf(a, blank))
    ensures !Below(RingOf(a, d1), Booted(a, d1).p.nextSeq)
    ensures CutsTo(a, Booted(a, d1), t2, |t2| + 2, d2)
    ensures RecoversTo(a, d2, Apply(FsOf(a, blank), Puts(Targets(t2), Images(t1))))
  {
    var ring0 := RingOf(a, blank)[0 := Raw(Pad([]))];
    DoneLoggable(a, t1);
    DoneLoggable(a, t2);
    HeadlessDead(a.crc, ring0, t1);
    d1 := FirstBoot(a, blank, t1, Headless(a.crc, ring0, t1));
    HeadlessSlips(a.crc, ring0, t1, t2);
    AllInBounds(Targets(t2), a.fsBlocks);
    d2 := SlipCut(a, Booted(a, d1), FsOf(a, blank), t2, Targets(t2), Images(t1));
    HeadlessAt(a.crc, ring0, t1, |t1| + 1);
    assert RingOf(a, d1)[|t1| + 1].seqNo == 1;
  }

  /** Atomicity fails for one-block transactions on a two-block filesystem. */
  lemma SecondCutCounterexample(a: Area, blank: Disk, z: Block, x: Block, y: Block) returns (d1: Disk, d2: Disk)
    requires a.fsBlocks == 2 && a.logBlocks == 4 && blank == seq(7, i => z)
    requires z == Raw(Pad([])) && x == Raw(Pad([1])) && y == Raw(Pad([2]))
    ensures CutsTo(a, Formatted(a, blank), [Put(0, x)], 3, d1) && RecoversTo(a, d1, [z, z])
    ensures CutsTo(a, Booted(a, d1), [Put(1, y)], 3, d2) && RecoversTo(a, d2, [y, z])
    ensures [y, z] != [z, z] && [y, z] != Apply([z, z], [Put(1, y)])
  {
    SmallPair(a, blank, z, x, y);
    Crossed(z, x, y);
    d1, d2 := ImagesToOldTargets(a, blank, [Put(0, x)], [Put(1, y)]);
  }

  lemma SmallPair(a: Area, blank: Disk, z: Block, x: Block, y: Block)
    requires a.fsBlocks == 2 && a.logBlocks == 4 && blank == seq(7, i => z)
    requires z.Raw? && x.Raw? && |x.bytes| == BS && y.Raw? && |y.bytes| == BS
    ensures Pair(a, blank, [Put(0, x)], [Put(1, y)]) && FsOf(a, blank) == [z, z]
  {
  }

  lemma Crossed(z: Block, x: Block, y: Block)
    requires z == Raw(Pad([])) && y == Raw(Pad([2]))
    ensures Apply([z, z], Puts(Targets([Put(0, x)]), Images([Put(1, y)]))) == [y, z]
    ensures [y, z] != [z, z] && [y, z] != Apply([z, z], [Put(1, y)])
  {
    assert Puts(Targets([Put(0, x)]), Images([Put(1, y)])) == [Put(0, y)];
    ApplyOne([z, z], Put(0, y));
    ApplyOne([z, z], Put(1, y));
    assert y.bytes[0] == 2 && z.bytes[0] == 0;
    assert [y, z][0] == y;
  }
}
