/** A second cut after a recovery that replayed two records: the run that undoes half of the second. */
module ChainCut {
  import opened Disks
  import opened Ring
  import opened Journal
  import opened Recovery
  import opened TornRing
  import opened BehindRing
  import opened CutRing
  import opened Crash
  import opened Commits
  import opened Atomicity
  import opened Histories
  import opened Events
  import opened SecondCut

  // ─── replaying a known run of records ──────────────────────────────────────

  /** A scan that starts on `k` live records and finds nothing behind them. */
  lemma {:induction false} RunSettles(crc: Checksum, ring: Disk, fs: Disk, tail: nat, e: nat, k: nat, s: nat)
    requires tail < |ring| && e + k == s && Hop(ring, tail, e) == 0 && LiveRun(crc, ring, |fs|, tail, e, |ring|, k)
    requires Dead(crc, ring, Along(ring, tail, k), s)
    ensures Scan(crc, ring, |fs|, tail, e) == Scanned(FirstPuts(ring, tail, k), k, Along(ring, tail, k), true)
    ensures Settles(crc, ring, fs, tail, e, Apply(fs, FirstPuts(ring, tail, k)))
  {
    SkipNone(ring, tail, e, |ring|);
    RunReplayed(crc, ring, |fs|, tail, e, |ring|, k, s);
    DeadReplay(crc, ring, |fs|, Along(ring, tail, k), s, Spare(ring, tail, |ring|, k));
    EndsAfter(crc, ring, fs, e, k, s, FirstPuts(ring, tail, k), Along(ring, tail, k), Scan(crc, ring, |fs|, tail, e));
  }

  lemma {:induction false} EndsAfter(crc: Checksum, ring: Disk, fs: Disk, e: nat, k: nat, s: nat, puts: seq<Put>,
                                     pos: nat, r: Scanned)
    requires e + k == s && Dead(crc, ring, pos, s) && Prepends(r, puts, k, Scanned([], 0, pos, true))
    ensures r == Scanned(puts, k, pos, true) && SettlesBy(crc, ring, fs, e, Apply(fs, puts), r)
  {
    assert puts + [] == puts;
  }

  /** What a record on the ring is to a scan. */
  lemma RecordSpan(crc: Checksum, ring: Disk, fs: nat, at: nat, s: nat, txn: Txn)
    requires RecordIn(crc, ring, at, s, txn) && Loggable(txn, |ring|, fs)
    ensures LiveAt(crc, ring, at, s) && InBounds(ring[at].targets, fs) == |ring[at].targets|
    ensures SpanLen(ring, at) == |txn| + 2 && Next(ring, at) == Slot(at + |txn| + 2, |ring|) && PutsAt(ring, at) == txn
  {
    RecordLive(crc, ring, at, s, txn);
    AllInBounds(Targets(txn), fs);
    assert at + SpanLen(ring, at) == at + |txn| + 2;
  }

  /** One record at the tail. */
  lemma {:induction false} OneRun(crc: Checksum, ring: Disk, fs: nat, t1: Txn)
    requires RecordIn(crc, ring, 0, 1, t1) && Loggable(t1, |ring|, fs)
    ensures LiveRun(crc, ring, fs, 0, 1, |ring|, 1) && Along(ring, 0, 1) == |t1| + 2 && FirstPuts(ring, 0, 1) == t1
    ensures Hop(ring, 0, 1) == 0
  {
    RecordSpan(crc, ring, fs, 0, 1, t1);
    assert t1 + [] == t1;
  }

  /** Two in a row. */
  lemma {:induction false} TwoRun(crc: Checksum, ring: Disk, fs: nat, t1: Txn, t2: Txn)
    requires RecordIn(crc, ring, 0, 1, t1) && RecordIn(crc, ring, |t1| + 2, 2, t2)
    requires Loggable(t1, |ring|, fs) && Loggable(t2, |ring|, fs) && |t1| + |t2| + 4 < |ring|
    ensures LiveRun(crc, ring, fs, 0, 1, |ring|, 2) && Along(ring, 0, 2) == |t1| + |t2| + 4
    ensures FirstPuts(ring, 0, 2) == t1 + t2 && Hop(ring, 0, 1) == 0
  {
    var next, left := |t1| + 2, |ring| - (|t1| + 2);
    RecordSpan(crc, ring, fs, 0, 1, t1);
    RecordSpan(crc, ring, fs, next, 2, t2);
    assert next + |t2| + 2 == |t1| + |t2| + 4;
    assert LiveRun(crc, ring, fs, next, 2, left, 1);
    assert Along(ring, next, 1) == |t1| + |t2| + 4;
    assert FirstPuts(ring, next, 1) == t2 + [];
    assert t2 + [] == t2;
  }

  // ─── the run ───────────────────────────────────────────────────────────────

  /** Two records side by side, ... */
  ghost predicate Couple(a: Area, blank: Disk, t1: Txn, t2: Txn) {
    && Blank(a, blank) && |t1| + |t2| + 4 < a.logBlocks
    && Logs(a, t1) && Plain(t1) && Logs(a, t2) && Plain(t2)
  }

  /** ... and a third one long enough to reach the second one's descriptor. */
  ghost predicate Chain(a: Area, blank: Disk, t1: Txn, t2: Txn, t3: Txn) {
    Couple(a, blank, t1, t2) && a.logBlocks < |t2| + |t3| + 4 && Logs(a, t3) && Plain(t3)
  }

  ghost function Ring1(a: Area, blank: Disk, t1: Txn): Disk
    requires Fits(a, blank)
  {
    Stamp(RingOf(a, blank)[0 := Raw(Pad([]))], 0, Record(a.crc, t1, 1))
  }

  ghost function Ring2(a: Area, blank: Disk, t1: Txn, t2: Txn): Disk
    requires Fits(a, blank) && |t1| + 2 < a.logBlocks
  {
    Stamp(Ring1(a, blank, t1), |t1| + 2, Record(a.crc, t2, 2))
  }

  /** `t1` committed and returned, its head advance still in the cache. */
  lemma {:induction false} FirstReturned(a: Area, blank: Disk, t1: Txn)
    requires Blank(a, blank) && Logs(a, t1) && Plain(t1)
    ensures var sys := CommitOne(a, Formatted(a, blank), t1);
            && Ready(a, sys.dev, sys.p, Apply(FsOf(a, blank), t1)) && sys.p == Pointers(|t1| + 2, 0, 2)
            && RingOf(a, sys.dev.stable) == Ring1(a, blank, t1) && Below(Ring1(a, blank, t1), 2)
            && Current(a, sys.dev.stable[a.fsBlocks], START)
  {
    var dev := Durable(a, blank).dev;
    FormatDisk(a, blank);
    DurableReady(a, blank);
    DoneLoggable(a, t1);
    FirstOps(a, t1);
    FirstCommit(a, blank, t1);
    RecordOpsReady(a, dev, START, FsOf(a, blank), t1);
    BelowStamped(a.crc, RingOf(a, dev.stable), 0, 1, t1);
    assert Advanced(a, START, |t1|) == Pointers(|t1| + 2, 0, 2);
    assert CommitOne(a, Formatted(a, blank), t1) == Sys(Exec(dev, RecordOps(a, START, t1)), Pointers(|t1| + 2, 0, 2));
  }

  lemma ChainRecords(a: Area, blank: Disk, t1: Txn, t2: Txn)
    requires Couple(a, blank, t1, t2)
    ensures var ring := Ring2(a, blank, t1, t2);
            && RecordIn(a.crc, ring, 0, 1, t1) && RecordIn(a.crc, ring, |t1| + 2, 2, t2) && Below(ring, 3)
            && Partly(Ring1(a, blank, t1), ring, |t1| + 2, Record(a.crc, t2, 2))
  {
    var ring0, ring1 := RingOf(a, blank)[0 := Raw(Pad([]))], Ring1(a, blank, t1);
    FirstReturned(a, blank, t1);
    StampRecordIn(a.crc, ring0, 0, 1, t1);
    StampRecordIn(a.crc, ring1, |t1| + 2, 2, t2);
    StampPartly(ring1, |t1| + 2, Record(a.crc, t2, 2));
    BelowStamped(a.crc, ring1, |t1| + 2, 2, t2);
    StampedBefore(a.crc, ring1, t1, t2);
  }

  lemma StampedBefore(crc: Checksum, ring: Disk, t1: Txn, t2: Txn)
    requires RecordIn(crc, ring, 0, 1, t1) && |t1| + |t2| + 4 < |ring|
    ensures RecordIn(crc, Stamp(ring, |t1| + 2, Record(crc, t2, 2)), 0, 1, t1)
  {
    var ring' := Stamp(ring, |t1| + 2, Record(crc, t2, 2));
    forall i | 0 <= i < |t1| + 2 ensures At(ring', 0 + i) == Record(crc, t1, 1)[i] {
      RecordAt(crc, ring, 0, 1, t1, i);
      assert Dist(|t1| + 2, i, |ring|) == i + |ring| - (|t1| + 2);
    }
  }

  /** The first cut: the record of `t2` survives whole, the head advance of `t1` does not. Both are replayed. */
  lemma FirstChainCut(a: Area, blank: Disk, t1: Txn, t2: Txn) returns (d1: Disk)
    requires Couple(a, blank, t1, t2)
    ensures CutsTo(a, CommitOne(a, Formatted(a, blank), t1), t2, |t2| + 2, d1)
    ensures RecoversTo(a, d1, Apply(Apply(FsOf(a, blank), t1), t2))
    ensures RingOf(a, d1) == Ring2(a, blank, t1, t2) && d1[a.fsBlocks].tail == 0 && d1[a.fsBlocks].nextSeq == 1
    ensures PointersAfter(a, d1) == Pointers(|t1| + |t2| + 4, |t1| + |t2| + 4, 3)
  {
    var sys, fs1, ring := CommitOne(a, Formatted(a, blank), t1), Apply(FsOf(a, blank), t1), Ring2(a, blank, t1, t2);
    FirstReturned(a, blank, t1);
    ChainRecords(a, blank, t1, t2);
    var sb := sys.dev.stable[a.fsBlocks];
    d1 := PartCut(a, sys, fs1, t2, sb, ring);
    ChainScan(a, ring, fs1, t1, t2);
    ApplyTwice(FsOf(a, blank), t1);
    ApplyConcat(fs1, t1, t2);
    Recovers(a, d1, sb, ring, fs1, Apply(fs1, t2));
  }

  lemma {:induction false} ChainScan(a: Area, ring: Disk, fs: Disk, t1: Txn, t2: Txn)
    requires RecordIn(a.crc, ring, 0, 1, t1) && RecordIn(a.crc, ring, |t1| + 2, 2, t2) && Below(ring, 3)
    requires Logs(a, t1) && Plain(t1) && Logs(a, t2)
    requires Plain(t2)
    requires |fs| == a.fsBlocks && |t1| + |t2| + 4 < |ring| == a.logBlocks
    ensures Scan(a.crc, ring, |fs|, 0, 1) == Scanned(t1 + t2, 2, |t1| + |t2| + 4, true)
    ensures Settles(a.crc, ring, fs, 0, 1, Apply(fs, t1 + t2))
  {
    DoneLoggable(a, t1);
    DoneLoggable(a, t2);
    TwoRun(a.crc, ring, a.fsBlocks, t1, t2);
    assert NoneNumbered(a.crc, ring, 3);
    RunSettles(a.crc, ring, fs, 0, 1, 2, 3);
  }

  /** The ring with one block of `t3` over the descriptor of `t2`. */
  lemma {:induction false} BrokenScan(a: Area, ring: Disk, ring': Disk, fs: Disk, t1: Txn, b: Block)
    requires RecordIn(a.crc, ring, 0, 1, t1) && Logs(a, t1) && Plain(t1)
    requires |fs| == a.fsBlocks && |t1| + 3 < |ring| == a.logBlocks && !b.Desc? && ring' == ring[|t1| + 2 := b]
    ensures Settles(a.crc, ring', fs, 0, 1, Apply(fs, t1))
  {
    forall i | 0 <= i < |t1| + 2 ensures At(ring', 0 + i) == Record(a.crc, t1, 1)[i] {
      RecordAt(a.crc, ring, 0, 1, t1, i);
    }
    DoneLoggable(a, t1);
    OneRun(a.crc, ring', a.fsBlocks, t1);
    RunSettles(a.crc, ring', fs, 0, 1, 1, 2);
  }

  /** The second cut: of the record of `t3` only the block over the descriptor of `t2` survives. */
  lemma SecondChainCut(a: Area, sys: Sys, fs: Disk, t1: Txn, t2: Txn, t3: Txn) returns (d2: Disk)
    requires Rests(a, sys.dev, sys.p, fs) && sys.p == Pointers(|t1| + |t2| + 4, |t1| + |t2| + 4, 3)
    requires |t1| + |t2| + 4 < a.logBlocks < |t2| + |t3| + 4 && Fitting(a, sys.p, t3)
    requires Logs(a, t1) && Plain(t1)
    requires RecordIn(a.crc, RingOf(a, sys.dev.stable), 0, 1, t1)
    requires Sane(a, sys.dev.stable[a.fsBlocks]) && sys.dev.stable[a.fsBlocks].tail == 0
    requires sys.dev.stable[a.fsBlocks].nextSeq == 1
    ensures CutsTo(a, sys, t3, |t3| + 2, d2) && RecoversTo(a, d2, Apply(fs, t1))
  {
    var sb := sys.dev.stable[a.fsBlocks];
    var ring' := OverDescriptor(a, RingOf(a, sys.dev.stable), fs, t1, t2, t3, sys.p.head);
    d2 := PartCut(a, sys, fs, t3, sb, ring');
    Recovers(a, d2, sb, ring', fs, Apply(fs, t1));
  }

  lemma OverDescriptor(a: Area, ring: Disk, fs: Disk, t1: Txn, t2: Txn, t3: Txn, head: nat) returns (ring': Disk)
    requires head == |t1| + |t2| + 4 < |ring| == a.logBlocks < |t2| + |t3| + 4 && |t3| + 2 <= |ring|
    requires |fs| == a.fsBlocks
    requires Logs(a, t1) && Plain(t1) && Plain(t3) && RecordIn(a.crc, ring, 0, 1, t1)
    ensures Partly(ring, ring', head, Record(a.crc, t3, 3)) && Settles(a.crc, ring', fs, 0, 1, Apply(fs, t1))
  {
    var b;
    b, ring' := OverBlock(a.crc, ring, head, |ring| - (|t2| + 2), |t1| + 2, t3);
    BrokenScan(a, ring, ring', fs, t1, b);
  }

  lemma OverBlock(crc: Checksum, ring: Disk, head: nat, i: nat, x: nat, t3: Txn) returns (b: Block, ring': Disk)
    requires head < |ring| && 0 < i < |t3| + 2 <= |ring| && head + i == |ring| + x && x < |ring| && Plain(t3)
    ensures ring' == ring[x := b] && Partly(ring, ring', head, Record(crc, t3, 3)) && !b.Desc?
  {
    b := Record(crc, t3, 3)[i];
    ring' := ring[x := b];
    OnePartly(ring, head, Record(crc, t3, 3), i);
    StampedKinds(crc, t3, 3, i);
  }

  /**
   * `t1` returns, its head advance still in the cache. A cut in the commit of `t2` keeps the whole record
   * and loses the advance, so recovery replays both records; its superblock stays in the cache. A cut in
   * the commit of `t3` then keeps nothing but the one block that falls on the descriptor of `t2`:
   * recovery starts from the old superblock, replays `t1` alone and puts its blocks back over `t2`.
   */
  lemma ChainCutShort(a: Area, blank: Disk, t1: Txn, t2: Txn, t3: Txn) returns (d1: Disk, d2: Disk)
    requires Chain(a, blank, t1, t2, t3)
    ensures CutsTo(a, CommitOne(a, Formatted(a, blank), t1), t2, |t2| + 2, d1)
    ensures RecoversTo(a, d1, Apply(Apply(FsOf(a, blank), t1), t2))
    ensures CutsTo(a, Booted(a, d1), t3, |t3| + 2, d2)
    ensures RecoversTo(a, d2, Apply(Apply(Apply(FsOf(a, blank), t1), t2), t1))
  {
    var fs2 := Apply(Apply(FsOf(a, blank), t1), t2);
    d1 := FirstChainCut(a, blank, t1, t2);
    ChainRecords(a, blank, t1, t2);
    BootedRests(a, d1, fs2);
    BootedDev(a, d1, fs2);
    DoneLoggable(a, t3);
    d2 := SecondChainCut(a, Booted(a, d1), fs2, t1, t2, t3);
  }

  /** On a five-block filesystem: the block both wrote goes back, the other one does not. */
  lemma ChainCutCounterexample(a: Area, blank: Disk, z: Block, x: Block, y: Block, w: Block)
    returns (d1: Disk, d2: Disk)
    requires a.fsBlocks == 5 && a.logBlocks == 8 && blank == seq(14, i => z)
    requires z == Raw(Pad([])) && x == Raw(Pad([1])) && y == Raw(Pad([2])) && w == Raw(Pad([3]))
    ensures var t1, t2 := [Put(0, x)], [Put(0, y), Put(1, y)];
            var t3 := [Put(0, w), Put(1, w), Put(2, w), Put(3, w), Put(4, w)];
            && CutsTo(a, CommitOne(a, Formatted(a, blank), t1), t2, 4, d1) && RecoversTo(a, d1, [y, y, z, z, z])
            && CutsTo(a, Booted(a, d1), t3, 7, d2) && RecoversTo(a, d2, [x, y, z, z, z])
            && [x, y, z, z, z] != [y, y, z, z, z] && [x, y, z, z, z] != Apply([y, y, z, z, z], t3)
  {
    var t1, t2 := [Put(0, x)], [Put(0, y), Put(1, y)];
    var t3 := [Put(0, w), Put(1, w), Put(2, w), Put(3, w), Put(4, w)];
    SmallChain(a, blank, z, x, y, w);
    SmallStates(z, x, y, w);
    d1, d2 := ChainCutShort(a, blank, t1, t2, t3);
  }

  lemma SmallChain(a: Area, blank: Disk, z: Block, x: Block, y: Block, w: Block)
    requires a.fsBlocks == 5 && a.logBlocks == 8 && blank == seq(14, i => z) && z.Raw?
    requires x.Raw? && |x.bytes| == BS && y.Raw? && |y.bytes| == BS && w.Raw? && |w.bytes| == BS
    ensures Chain(a, blank, [Put(0, x)], [Put(0, y), Put(1, y)],
                  [Put(0, w), Put(1, w), Put(2, w), Put(3, w), Put(4, w)])
    ensures FsOf(a, blank) == [z, z, z, z, z]
  {
  }

  lemma SmallStates(z: Block, x: Block, y: Block, w: Block)
    requires z == Raw(Pad([])) && x == Raw(Pad([1])) && y == Raw(Pad([2])) && w == Raw(Pad([3]))
    ensures Apply(Apply([z, z, z, z, z], [Put(0, x)]), [Put(0, y), Put(1, y)]) == [y, y, z, z, z]
    ensures Apply([y, y, z, z, z], [Put(0, x)]) == [x, y, z, z, z]
    ensures [x, y, z, z, z] != [y, y, z, z, z]
    ensures [x, y, z, z, z] != Apply([y, y, z, z, z], [Put(0, w), Put(1, w), Put(2, w), Put(3, w), Put(4, w)])
  {
    var t3 := [Put(0, w), Put(1, w), Put(2, w), Put(3, w), Put(4, w)];
    ApplyOne([z, z, z, z, z], Put(0, x));
    assert [z, z, z, z, z][0 := x] == [x, z, z, z, z];
    assert [Put(0, y), Put(1, y)] == [Put(0, y)] + [Put(1, y)];
    ApplyConcat([x, z, z, z, z], [Put(0, y)], [Put(1, y)]);
    ApplyOne([x, z, z, z, z], Put(0, y));
    assert [x, z, z, z, z][0 := y] == [y, z, z, z, z];
    ApplyOne([y, z, z, z, z], Put(1, y));
    assert [y, z, z, z, z][1 := y] == [y, y, z, z, z];
    ApplyOne([y, y, z, z, z], Put(0, x));
    assert [y, y, z, z, z][0 := x] == [x, y, z, z, z];
    assert x.bytes[0] == 1 && y.bytes[0] == 2 && w.bytes[0] == 3;
    assert [x, y, z, z, z][0] == x && [y, y, z, z, z][0] == y;
    LastWrite(t3, w, y);
    ApplyAt([y, y, z, z, z], t3, 1);
    assert [x, y, z, z, z][1] == y;
  }

  lemma {:induction false} LastWrite(t3: Txn, w: Block, y: Block)
    requires |t3| > 1 && t3[1].addr == 1 && forall i :: 0 <= i < |t3| ==> t3[i].block == w
    ensures Final(t3, 1, y) == w
  {
    FinalTouched(t3, 1, y, w);
    FinalTouched(t3, 1, w, w);
    assert Touches(t3, 1);
  }
}
