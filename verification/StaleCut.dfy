/** A recovery that goes back to an old superblock: the run in which a returned commit is overwritten. */
module StaleCut {
  import opened Disks
  import opened Ring
  import opened Journal
  import opened Recovery
  import opened TornRing
  import opened BehindRing
  import opened CutRing
  import opened Crash
  import opened Commits
  import opened Atomicity
  import opened Histories
  import opened Events
  import opened Limits
  import opened SecondCut
  import opened ChainCut

  /** Two records side by side, a third one that wraps around, and a fourth one as long as the first. */
  ghost predicate Wraps(a: Area, blank: Disk, t1: Txn, t2: Txn, t3: Txn, t4: Txn) {
    && Couple(a, blank, t1, t2) && a.logBlocks < |t1| + |t2| + |t3| + 6 && Logs(a, t3) && Plain(t3)
    && |t4| == |t1| && Logs(a, t4) && Plain(t4)
  }

  // ─── the second cut ────────────────────────────────────────────────────────

  /** One block of `t3` over the descriptor of `t1`: from the first superblock there is nothing to replay. */
  lemma BackToStart(a: Area, ring: Disk, fs: Disk, t3: Txn, head: nat, i: nat) returns (b: Block)
    requires head < |ring| == a.logBlocks && head + i == |ring| && 0 < i < |t3| + 2 <= |ring| && Plain(t3)
    ensures !b.Desc? && Partly(ring, ring[0 := b], head, Record(a.crc, t3, 3))
    ensures Settles(a.crc, ring[0 := b], fs, 0, 1, fs)
    ensures Scan(a.crc, ring[0 := b], |fs|, 0, 1) == Scanned([], 0, 0, true)
  {
    var ring';
    b, ring' := OverBlock(a.crc, ring, head, i, 0, t3);
    HaltsDead(a.crc, ring', 0, 1);
    DeadSettles(a.crc, ring', fs, 0, 1);
    SkipNone(ring', 0, 1, |ring|);
    DeadReplay(a.crc, ring', |fs|, 0, 1, |ring|);
  }

  /** The second cut: of the record of `t3` only the block over the descriptor of `t1` survives. */
  lemma SecondStaleCut(a: Area, sys: Sys, fs: Disk, t3: Txn) returns (b: Block, d2: Disk)
    requires Rests(a, sys.dev, sys.p, fs) && sys.p.nextSeq == 3 && Fitting(a, sys.p, t3)
    requires a.logBlocks < sys.p.head + |t3| + 2
    requires Sane(a, sys.dev.stable[a.fsBlocks]) && sys.dev.stable[a.fsBlocks].tail == 0
    requires sys.dev.stable[a.fsBlocks].nextSeq == 1
    ensures CutsTo(a, sys, t3, |t3| + 2, d2) && RecoversTo(a, d2, fs) && PointersAfter(a, d2) == START
    ensures !b.Desc? && RingOf(a, d2) == RingOf(a, sys.dev.stable)[0 := b]
  {
    var ring, sb := RingOf(a, sys.dev.stable), sys.dev.stable[a.fsBlocks];
    b := BackToStart(a, ring, fs, t3, sys.p.head, |ring| - sys.p.head);
    d2 := PartCut(a, sys, fs, t3, sb, ring[0 := b]);
    Recovers(a, d2, sb, ring[0 := b], fs, fs);
  }

  // ─── which is atomic ───────────────────────────────────────────────────────

  lemma ThirdApart(ring: Disk, t1: Txn, t2: Txn, t3: Txn, head: nat, i: nat)
    requires head == |t1| + |t2| + 4 < |ring| && |t2| + |t3| + 4 <= |ring| && i < |t3| + 2
    requires ring[0].Desc? && SpanLen(ring, 0) == |t1| + 2 && SpanLen(ring, |t1| + 2) == |t2| + 2
    ensures !FallsOn(ring, 0, 1, head, i)
  {
    assert Along(ring, 0, 1) == |t1| + 2;
  }

  lemma ThirdSafe(a: Area, ring: Disk, fs: Disk, t1: Txn, t2: Txn, t3: Txn, head: nat, s: nat)
    requires RecordIn(a.crc, ring, 0, 1, t1) && RecordIn(a.crc, ring, |t1| + 2, 2, t2)
    requires Loggable(t1, |ring|, a.fsBlocks) && Loggable(t2, |ring|, a.fsBlocks)
    requires head == |t1| + |t2| + 4 < |ring| && |t2| + |t3| + 4 <= |ring|
    requires s == 3
    ensures !Regresses(a.crc, ring, 0, 1, head, s, fs, t3)
  {
    RecordSpan(a.crc, ring, a.fsBlocks, 0, 1, t1);
    RecordSpan(a.crc, ring, a.fsBlocks, |t1| + 2, 2, t2);
    SkipNone(ring, 0, 1, |ring|);
    forall j: nat, i: nat | 0 < j < Sub(s, 1) && i < |t3| + 2 ensures !FallsOn(ring, Start(ring, 0, 1), j, head, i) {
      ThirdApart(ring, t1, t2, t3, head, i);
    }
    ApartSafe(a.crc, ring, 0, 1, head, s, fs, t3);
  }

  lemma SafeBy(a: Area, dev: Dev, p: Pointers, fs: Disk, txn: Txn, ring: Disk, tail: nat, e: nat, head: nat, s: nat)
    requires Fits(a, dev.stable) && dev.stable[a.fsBlocks].Super? && p.tail < a.logBlocks
    requires ring == RingOf(a, dev.stable) && tail == dev.stable[a.fsBlocks].tail && e == dev.stable[a.fsBlocks].nextSeq
    requires head == p.head && s == p.nextSeq && !Misdirects(a.crc, ring, head, s, fs, txn)
    requires !Regresses(a.crc, ring, tail, e, head, s, fs, txn)
    ensures SafeAt(a, dev, p, fs, txn)
  {
  }

  /** Every cut in the commit of `txn` is atomic, by the condition of `CommitAtomicIff`. */
  ghost predicate Blameless(a: Area, sys: Sys, fs: Disk, txn: Txn) {
    && Fits(a, sys.dev.stable) && sys.dev.stable[a.fsBlocks].Super? && sys.p.tail < a.logBlocks
    && SafeAt(a, sys.dev, sys.p, fs, txn)
  }

  /**
   * The second cut meets the condition of `CommitAtomicIff` whenever the third record stays clear of the
   * second one and the checksum tells its images apart.
   */
  lemma StaleCutSafe(a: Area, blank: Disk, t1: Txn, t2: Txn, t3: Txn, d1: Disk, p: Pointers, fs: Disk)
    requires Couple(a, blank, t1, t2) && Logs(a, t3) && Plain(t3) && |t2| + |t3| + 4 <= a.logBlocks
    requires RecoversTo(a, d1, fs) && RingOf(a, d1) == Ring2(a, blank, t1, t2)
    requires d1[a.fsBlocks].tail == 0 && d1[a.fsBlocks].nextSeq == 1
    requires p == PointersAfter(a, d1) == Pointers(|t1| + |t2| + 4, |t1| + |t2| + 4, 3)
    requires Discerns(a, RingOf(a, d1), p, t3)
    ensures Blameless(a, Booted(a, d1), fs, t3)
  {
    var ring := RingOf(a, d1);
    BootedDev(a, d1, fs);
    ChainRecords(a, blank, t1, t2);
    DoneLoggable(a, t1);
    DoneLoggable(a, t2);
    DoneLoggable(a, t3);
    DiscernsSafe(a, ring, p, fs, t3);
    ThirdSafe(a, ring, fs, t1, t2, t3, p.head, p.nextSeq);
    SafeBy(a, Booted(a, d1).dev, p, fs, t3, ring, 0, 1, p.head, p.nextSeq);
  }

  // ─── the commit that is lost ───────────────────────────────────────────────

  /** What a reader sees after a commit that returned. */
  lemma {:induction false} ReturnedHolds(a: Area, sys: Sys, fs: Disk, txn: Txn, ring: Disk, p: Pointers)
    requires Held(a, sys.dev, sys.p, fs) && Plain(txn) && Logs(a, txn) && p == CommitPointers(a, sys.p, txn)
    requires ring == Stamp(RingOf(a, sys.dev.stable), sys.p.head, Record(a.crc, txn, sys.p.nextSeq))
    ensures Holds(a, View(CommitOne(a, sys, txn).dev), SuperPut(a, p).block, ring, Apply(fs, txn))
  {
    CommitHeld(a, sys.dev, sys.p, fs, txn);
    CachedDisk(a, CommitOne(a, sys, txn).dev, p, Apply(fs, txn));
  }

  lemma FirstPointers(a: Area, txn: Txn)
    requires 0 < a.logBlocks && Logs(a, txn)
    ensures CommitPointers(a, START, txn) == Pointers(|txn| + 2, 0, 2)
  {
  }

  /** ... on a journal that starts over. */
  lemma {:induction false} StartedOver(a: Area, d: Disk, fs: Disk, ring: Disk, txn: Txn)
    requires RecoversTo(a, d, fs) && PointersAfter(a, d) == START && RingOf(a, d) == ring && Plain(txn) && Logs(a, txn)
    ensures Holds(a, View(CommitOne(a, Booted(a, d), txn).dev), SuperPut(a, Pointers(|txn| + 2, 0, 2)).block,
                  Stamp(ring, 0, Record(a.crc, txn, 1)), Apply(fs, txn))
  {
    BootedRests(a, d, fs);
    BootedDev(a, d, fs);
    FirstPointers(a, txn);
    ReturnedHolds(a, Booted(a, d), fs, txn, Stamp(ring, 0, Record(a.crc, txn, 1)), Pointers(|txn| + 2, 0, 2));
  }

  /** With the old record 2 right behind it, the next recovery takes that one for its successor. */
  lemma {:induction false} StaleScan(a: Area, view: Disk, ring: Disk, fs: Disk, t2: Txn, t4: Txn)
    requires 0 < |ring| == a.logBlocks
    requires Holds(a, view, SuperPut(a, Pointers(|t4| + 2, 0, 2)).block, Stamp(ring, 0, Record(a.crc, t4, 1)), fs)
    requires Loggable(t2, a.logBlocks, a.fsBlocks) && Loggable(t4, a.logBlocks, a.fsBlocks)
    requires |t2| + |t4| + 4 <= |ring| && RecordIn(a.crc, ring, |t4| + 2, 2, t2) && Tidy(ring, 2, |t4| + 2)
    ensures ScanOf(a, view).puts == t2 && RecoversTo(a, view, Apply(fs, t2))
  {
    var ring' := Stamp(ring, 0, Record(a.crc, t4, 1));
    assert |fs| == a.fsBlocks;
    Resurrected(a, ring, fs, t2, t4);
    Recovers(a, view, SuperPut(a, Pointers(|t4| + 2, 0, 2)).block, ring', fs, Apply(fs, t2));
  }

  lemma {:induction false} StaleReplayed(a: Area, d2: Disk, fs: Disk, ring: Disk, b: Block, t2: Txn, t4: Txn)
    requires RecoversTo(a, d2, fs) && PointersAfter(a, d2) == START && Plain(t4) && Logs(a, t4)
    requires |ring| == a.logBlocks && !b.Desc? && RingOf(a, d2) == ring[0 := b] && |t2| + |t4| + 4 <= a.logBlocks
    requires Loggable(t2, a.logBlocks, a.fsBlocks) && RecordIn(a.crc, ring, |t4| + 2, 2, t2) && Tidy(ring, 2, |t4| + 2)
    ensures var view := View(CommitOne(a, Booted(a, d2), t4).dev);
            && Fits(a, view) && FsOf(a, view) == Apply(fs, t4) && view[a.fsBlocks].Super?
            && ScanOf(a, view).puts == t2 && RecoversTo(a, view, Apply(Apply(fs, t4), t2))
  {
    DoneLoggable(a, t4);
    KeptBehind(a.crc, ring, t2, |t4| + 2, b);
    StartedOver(a, d2, fs, ring[0 := b], t4);
    StaleScan(a, View(CommitOne(a, Booted(a, d2), t4).dev), ring[0 := b], Apply(fs, t4), t2, t4);
  }

  /**
   * `t1` returns, its head advance still in the cache. A cut in the commit of `t2` keeps the whole record
   * and loses the advance; recovery replays both records, and its superblock stays in the cache. A cut in
   * the commit of `t3` keeps nothing but the block that falls on the descriptor of `t1`: recovery starts
   * from the first superblock, finds nothing to replay and goes back to number 1, the filesystem intact.
   * `t4` returns as number 1. The next recovery, with everything durable and no cut in between, steps over
   * it, takes the old record of `t2` for its successor and writes `t2` over `t4`. The second cut need not
   * violate the condition under which cuts are atomic.
   */
  lemma StaleReturns(a: Area, blank: Disk, t1: Txn, t2: Txn, t3: Txn, t4: Txn) returns (d1: Disk, d2: Disk)
    requires Wraps(a, blank, t1, t2, t3, t4)
    ensures CutsTo(a, CommitOne(a, Formatted(a, blank), t1), t2, |t2| + 2, d1)
    ensures RecoversTo(a, d1, Apply(Apply(FsOf(a, blank), t1), t2))
    ensures CutsTo(a, Booted(a, d1), t3, |t3| + 2, d2)
    ensures RecoversTo(a, d2, Apply(Apply(FsOf(a, blank), t1), t2)) && Booted(a, d2).p == START
    ensures |t2| + |t3| + 4 <= a.logBlocks && Discerns(a, RingOf(a, d1), Booted(a, d1).p, t3) ==>
      Blameless(a, Booted(a, d1), Apply(Apply(FsOf(a, blank), t1), t2), t3)
    ensures var view := View(CommitOne(a, Booted(a, d2), t4).dev);
            var fs := Apply(Apply(Apply(FsOf(a, blank), t1), t2), t4);
            && Fits(a, view) && FsOf(a, view) == fs && view[a.fsBlocks].Super?
            && ScanOf(a, view).puts == t2 && RecoversTo(a, view, Apply(fs, t2))
  {
    d1 := FirstChainCut(a, blank, t1, t2);
    if |t2| + |t3| + 4 <= a.logBlocks && Discerns(a, RingOf(a, d1), PointersAfter(a, d1), t3) {
      StaleCutSafe(a, blank, t1, t2, t3, d1, PointersAfter(a, d1), Apply(Apply(FsOf(a, blank), t1), t2));
    }
    DoneLoggable(a, t2);
    StaleRing(a, blank, t1, t2, |t4|);
    d2 := StaleRest(a, d1, Apply(Apply(FsOf(a, blank), t1), t2), t2, t3, t4);
  }

  lemma StaleRest(a: Area, d1: Disk, fs: Disk, t2: Txn, t3: Txn, t4: Txn) returns (d2: Disk)
    requires RecoversTo(a, d1, fs) && d1[a.fsBlocks].tail == 0 && d1[a.fsBlocks].nextSeq == 1
    requires PointersAfter(a, d1).nextSeq == 3 && a.logBlocks < PointersAfter(a, d1).head + |t3| + 2
    requires Logs(a, t3) && Plain(t3) && Logs(a, t4) && Plain(t4) && |t2| + |t4| + 4 <= a.logBlocks
    requires Loggable(t2, a.logBlocks, a.fsBlocks)
    requires RecordIn(a.crc, RingOf(a, d1), |t4| + 2, 2, t2) && Tidy(RingOf(a, d1), 2, |t4| + 2)
    ensures CutsTo(a, Booted(a, d1), t3, |t3| + 2, d2) && RecoversTo(a, d2, fs) && Booted(a, d2).p == START
    ensures var view := View(CommitOne(a, Booted(a, d2), t4).dev);
            && Fits(a, view) && FsOf(a, view) == Apply(fs, t4) && view[a.fsBlocks].Super?
            && ScanOf(a, view).puts == t2 && RecoversTo(a, view, Apply(Apply(fs, t4), t2))
  {
    var b;
    b, d2 := AfterFirst(a, d1, fs, t3);
    StaleReplayed(a, d2, fs, RingOf(a, d1), b, t2, t4);
  }

  lemma StaleRing(a: Area, blank: Disk, t1: Txn, t2: Txn, n: nat)
    requires Couple(a, blank, t1, t2) && n == |t1|
    ensures var ring := Ring2(a, blank, t1, t2); RecordIn(a.crc, ring, n + 2, 2, t2) && Tidy(ring, 2, n + 2)
  {
    SecondRecord(a.crc, RingOf(a, blank)[0 := Raw(Pad([]))], t1, t2);
  }

  lemma AfterFirst(a: Area, d1: Disk, fs: Disk, t3: Txn) returns (b: Block, d2: Disk)
    requires RecoversTo(a, d1, fs) && d1[a.fsBlocks].tail == 0 && d1[a.fsBlocks].nextSeq == 1
    requires PointersAfter(a, d1).nextSeq == 3 && a.logBlocks < PointersAfter(a, d1).head + |t3| + 2
    requires Logs(a, t3) && Plain(t3)
    ensures CutsTo(a, Booted(a, d1), t3, |t3| + 2, d2) && RecoversTo(a, d2, fs) && PointersAfter(a, d2) == START
    ensures !b.Desc? && RingOf(a, d2) == RingOf(a, d1)[0 := b]
  {
    BootedRests(a, d1, fs);
    BootedDev(a, d1, fs);
    DoneLoggable(a, t3);
    b, d2 := SecondStaleCut(a, Booted(a, d1), fs, t3);
  }

  // ─── a concrete disk ───────────────────────────────────────────────────────

  /** On a five-block filesystem: the block that the last commit wrote goes back to what it was before. */
  lemma StaleCounterexample(a: Area, blank: Disk, z: Block, x: Block, y: Block, w: Block, v: Block)
    returns (d1: Disk, d2: Disk)
    requires a.fsBlocks == 5 && a.logBlocks == 8 && blank == seq(14, i => z)
    requires z == Raw(Pad([])) && x == Raw(Pad([1])) && y == Raw(Pad([2])) && w == Raw(Pad([3])) && v == Raw(Pad([4]))
    ensures var t1, t2, t3, t4 := [Put(0, x)], [Put(0, y), Put(1, y)], [Put(2, w)], [Put(0, v)];
            && CutsTo(a, CommitOne(a, Formatted(a, blank), t1), t2, 4, d1) && RecoversTo(a, d1, [y, y, z, z, z])
            && CutsTo(a, Booted(a, d1), t3, 3, d2) && RecoversTo(a, d2, [y, y, z, z, z])
            && var view := View(CommitOne(a, Booted(a, d2), t4).dev);
               && Fits(a, view) && FsOf(a, view) == [v, y, z, z, z] && RecoversTo(a, view, [y, y, z, z, z])
               && [v, y, z, z, z] != [y, y, z, z, z]
  {
    var t1, t2, t3, t4 := [Put(0, x)], [Put(0, y), Put(1, y)], [Put(2, w)], [Put(0, v)];
    SmallWraps(a, blank, z, x, y, w, v);
    SmallOverwritten(z, x, y, v);
    d1, d2 := StaleReturns(a, blank, t1, t2, t3, t4);
  }

  lemma SmallWraps(a: Area, blank: Disk, z: Block, x: Block, y: Block, w: Block, v: Block)
    requires a.fsBlocks == 5 && a.logBlocks == 8 && blank == seq(14, i => z) && z.Raw?
    requires x.Raw? && |x.bytes| == BS && y.Raw? && |y.bytes| == BS && w.Raw? && |w.bytes| == BS
    requires v.Raw? && |v.bytes| == BS
    ensures Wraps(a, blank, [Put(0, x)], [Put(0, y), Put(1, y)], [Put(2, w)], [Put(0, v)])
    ensures FsOf(a, blank) == [z, z, z, z, z]
  {
  }

  lemma SmallOverwritten(z: Block, x: Block, y: Block, v: Block)
    requires z == Raw(Pad([])) && y == Raw(Pad([2])) && v == Raw(Pad([4]))
    ensures var fs := Apply(Apply([z, z, z, z, z], [Put(0, x)]), [Put(0, y), Put(1, y)]);
            && fs == [y, y, z, z, z] && Apply(fs, [Put(0, v)]) == [v, y, z, z, z]
            && Apply([v, y, z, z, z], [Put(0, y), Put(1, y)]) == fs && fs != [v, y, z, z, z]
  {
    TwoWrites([x, z, z, z, z], y);
    TwoWrites([v, y, z, z, z], y);
    ApplyOne([z, z, z, z, z], Put(0, x));
    ApplyOne([y, y, z, z, z], Put(0, v));
    assert [z, z, z, z, z][0 := x] == [x, z, z, z, z] && [y, y, z, z, z][0 := v] == [v, y, z, z, z];
    assert y.bytes[0] == 2 && v.bytes[0] == 4;
    assert [v, y, z, z, z][0] == v && [y, y, z, z, z][0] == y;
  }

  lemma {:induction false} TwoWrites(fs: Disk, y: Block)
    requires |fs| == 5
    ensures Apply(fs, [Put(0, y), Put(1, y)]) == [y, y, fs[2], fs[3], fs[4]]
  {
    assert [Put(0, y), Put(1, y)] == [Put(0, y)] + [Put(1, y)];
    ApplyConcat(fs, [Put(0, y)], [Put(1, y)]);
    ApplyOne(fs, Put(0, y));
    ApplyOne(fs[0 := y], Put(1, y));
  }
}
