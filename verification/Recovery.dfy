/** Recovery as a crash-restartable operation, whatever interrupts it. */
module Recovery {
  import opened Disks
  import opened Ring
  import opened Journal

  /** A superblock of this journal with in-range pointers. */
  ghost predicate Sane(a: Area, b: Block) {
    && b.Super? && b.logBlocks == a.logBlocks && b.fsBlocks == a.fsBlocks
    && b.head < a.logBlocks && b.tail < a.logBlocks
  }

  /**
   * Recovering the image `d` makes the filesystem `fs`, and leaves a log from which a further
   * recovery replays nothing.
   */
  ghost predicate RecoversTo(a: Area, d: Disk, fs: Disk) {
    && Fits(a, d) && Sane(a, d[a.fsBlocks])
    && SettlesBy(a.crc, RingOf(a, d), FsOf(a, d), d[a.fsBlocks].nextSeq, fs, ScanOf(a, d))
  }

  /** ... and the next record is numbered `s`. */
  ghost predicate RecoversAt(a: Area, d: Disk, fs: Disk, s: nat) {
    RecoversTo(a, d, fs) && d[a.fsBlocks].nextSeq + ScanOf(a, d).replayed == s
  }

  /** The disk `d` holds superblock `sb`, ring `ring` and filesystem `fs`. */
  ghost predicate Holds(a: Area, d: Disk, sb: Block, ring: Disk, fs: Disk) {
    Fits(a, d) && Sane(a, sb) && d[a.fsBlocks] == sb && RingOf(a, d) == ring && FsOf(a, d) == fs
  }

  lemma Recovers(a: Area, d: Disk, sb: Block, ring: Disk, fs: Disk, after: Disk)
    requires Holds(a, d, sb, ring, fs)
    ensures RecoversTo(a, d, after) <==> Settles(a.crc, ring, fs, sb.tail, sb.nextSeq, after)
  {
    assert |fs| == a.fsBlocks;
  }

  // ─── what every scan satisfies ─────────────────────────────────────────────

  lemma PutsShape(ring: Disk, fs: nat, pos: nat, k: nat)
    requires 0 < |ring| && At(ring, pos).Desc? && k == InBounds(At(ring, pos).targets, fs)
    ensures |PutsAt(ring, pos)| == |At(ring, pos).targets| && forall p :: p in PutsAt(ring, pos)[..k] ==> p.addr < fs
    ensures k == |At(ring, pos).targets| ==> PutsAt(ring, pos)[..k] == PutsAt(ring, pos)
  {
    InBoundsMeans(At(ring, pos).targets, fs, k);
  }

  lemma {:induction false} ReplayShape(crc: Checksum, ring: Disk, fs: nat, pos: nat, e: nat, budget: nat)
    requires 0 < |ring|
    ensures var r := Replay(crc, ring, fs, pos, e, budget);
            && (forall p :: p in r.puts ==> p.addr < fs)
            && (r.ok && r.replayed == 0 ==> r.puts == [])
    decreases budget
  {
    if budget > 0 && Complete(crc, ring, pos) && At(ring, pos).seqNo == e {
      PutsShape(ring, fs, pos, InBounds(At(ring, pos).targets, fs));
      ReplayShape(crc, ring, fs, Next(ring, pos), e + 1, Sub(budget, SpanLen(ring, pos)));
    }
  }

  /** Same superblock, same ring: same scan. */
  lemma SameScan(a: Area, d: Disk, d': Disk)
    requires Fits(a, d) && |d'| == |d| && d[a.fsBlocks].Super?
    requires d'[a.fsBlocks..] == d[a.fsBlocks..]
    ensures d'[a.fsBlocks] == d[a.fsBlocks] && RingOf(a, d') == RingOf(a, d)
  {
    assert d'[a.fsBlocks] == d'[a.fsBlocks..][0];
    forall q | 0 <= q < a.logBlocks ensures RingOf(a, d')[q] == RingOf(a, d)[q] {
      assert d'[a.fsBlocks + 1 + q] == d'[a.fsBlocks..][1 + q];
      assert d[a.fsBlocks + 1 + q] == d[a.fsBlocks..][1 + q];
    }
  }

  lemma {:induction false} MixtureForgets(d: Disk, e: Disk, puts: seq<Put>)
    requires |d| == |e|
    requires forall x :: 0 <= x < |d| ==> d[x] == e[x] || Put(x, d[x]) in puts
    ensures Apply(d, puts) == Apply(e, puts)
  {
    forall x | 0 <= x < |d| ensures d[x] == e[x] || Touches(puts, x) {
      if d[x] != e[x] {
        var i :| 0 <= i < |puts| && puts[i] == Put(x, d[x]);
        assert puts[i].addr == x;
      }
    }
    ApplyForgets(d, e, puts);
  }

  lemma MixtureSettles(crc: Checksum, ring: Disk, fs: Disk, other: Disk, tail: nat, e: nat, after: Disk)
    requires 0 < |ring| && Settles(crc, ring, fs, tail, e, after) && |other| == |fs|
    requires forall x :: 0 <= x < |fs| ==> other[x] == fs[x] || Put(x, other[x]) in Scan(crc, ring, |fs|, tail, e).puts
    ensures Settles(crc, ring, other, tail, e, after)
  {
    MixtureForgets(other, fs, Scan(crc, ring, |fs|, tail, e).puts);
  }

  /** While the replayed blocks are on their way, any mixture still recovers to the same filesystem. */
  lemma MixtureRecovers(a: Area, d: Disk, d': Disk, fs: Disk)
    requires RecoversTo(a, d, fs) && |d'| == |d|
    requires forall x :: 0 <= x < |d| ==> d'[x] == d[x] || Put(x, d'[x]) in ScanOf(a, d).puts
    ensures RecoversTo(a, d', fs)
  {
    var ring, sb := RingOf(a, d), d[a.fsBlocks];
    ScanShape(a, d);
    assert d'[a.fsBlocks..] == d[a.fsBlocks..];
    SameScan(a, d, d');
    Recovers(a, d, sb, ring, FsOf(a, d), fs);
    MixtureSettles(a.crc, ring, FsOf(a, d), FsOf(a, d'), sb.tail, sb.nextSeq, fs);
    Recovers(a, d', sb, ring, FsOf(a, d'), fs);
  }

  /** The image once the replayed blocks are all written. */
  lemma {:induction false} ReplayedRecovers(a: Area, d: Disk, fs: Disk)
    requires RecoversTo(a, d, fs)
    ensures var d' := Apply(d, ScanOf(a, d).puts);
            RecoversTo(a, d', fs) && Holds(a, d', d[a.fsBlocks], RingOf(a, d), fs)
  {
    var r := ScanOf(a, d);
    ScanShape(a, d);
    var d' := Apply(d, r.puts);
    forall x | 0 <= x < |d| ensures d'[x] == d[x] || Put(x, d'[x]) in r.puts {
      ApplyAt(d, r.puts, x);
      FinalTouched(r.puts, x, d[x], d[x]);
    }
    MixtureRecovers(a, d, d', fs);
    ApplyLow(d, r.puts, a.fsBlocks);
    SameScan(a, d, d');
  }

  lemma UnderSuper(a: Area, d: Disk, sb: Block)
    requires Fits(a, d) && Sane(a, sb)
    ensures Holds(a, d[a.fsBlocks := sb], sb, RingOf(a, d), FsOf(a, d))
  {
  }

  /** The emptied log may or may not have reached the medium. */
  lemma EmptiedRecovers(a: Area, d: Disk, ring: Disk, fs: Disk, p: Pointers)
    requires Fits(a, d) && RingOf(a, d) == ring && FsOf(a, d) == fs && p.head == p.tail
    requires Dead(a.crc, ring, p.tail, p.nextSeq)
    ensures var d' := d[a.fsBlocks := SuperPut(a, p).block];
            RecoversTo(a, d', fs) && Holds(a, d', SuperPut(a, p).block, ring, fs)
  {
    var sb := SuperPut(a, p).block;
    UnderSuper(a, d, sb);
    DeadSettles(a.crc, ring, fs, p.tail, p.nextSeq);
    Recovers(a, d[a.fsBlocks := sb], sb, ring, fs, fs);
  }

  lemma EmptiedScan(a: Area, d: Disk, ring: Disk, fs: Disk, p: Pointers)
    requires Holds(a, d, SuperPut(a, p).block, ring, fs) && Dead(a.crc, ring, p.tail, p.nextSeq)
    ensures ScanOf(a, d).replayed == 0
  {
    DeadScan(a.crc, ring, a.fsBlocks, p.tail, p.nextSeq);
  }

  /** What recovery leaves behind its scan. */
  lemma DeadAfter(a: Area, d: Disk, fs: Disk)
    requires RecoversTo(a, d, fs)
    ensures var p := PointersAfter(a, d); p.head == p.tail && Dead(a.crc, RingOf(a, d), p.tail, p.nextSeq)
  {
    DeadBy(a.crc, RingOf(a, d), FsOf(a, d), d[a.fsBlocks].nextSeq, fs, ScanOf(a, d));
  }

  lemma DeadBy(crc: Checksum, ring: Disk, fs: Disk, e: nat, after: Disk, r: Scanned)
    requires SettlesBy(crc, ring, fs, e, after, r)
    ensures Dead(crc, ring, RecoverPointers(r, e).tail, RecoverPointers(r, e).nextSeq)
  {
  }

  // ─── recovery runs ─────────────────────────────────────────────────────────

  function OpsOn(a: Area, d: Disk): seq<Op>
    requires Fits(a, d) && Sane(a, d[a.fsBlocks])
  {
    RecoverOps(a, ScanOf(a, d), d[a.fsBlocks].nextSeq)
  }

  function PointersAfter(a: Area, d: Disk): Pointers
    requires Fits(a, d) && Sane(a, d[a.fsBlocks])
  {
    RecoverPointers(ScanOf(a, d), d[a.fsBlocks].nextSeq)
  }

  lemma {:induction false} TailPhases(dev: Dev, flush: bool, sup: Put, m: nat)
    requires dev.cache != [] ==> flush
    requires 0 < m <= if flush then 2 else 1
    ensures var tail := (if flush then [Flush] else []) + [Write(sup)];
            Exec(dev, tail[..m]) == Dev(View(dev), if m == |tail| then [sup] else [])
  {
    if !flush {
      assert ([] + [Write(sup)])[..m] == [Write(sup)];
      ExecOne(dev, Write(sup));
      assert dev.cache + [sup] == [sup];
    } else if m == 1 {
      assert ([Flush] + [Write(sup)])[..m] == [Flush];
      ExecOne(dev, Flush);
    } else {
      assert ([Flush] + [Write(sup)])[..m] == [Flush, Write(sup)];
      ExecTwo(dev, Flush, Write(sup));
    }
  }

  /** The device after `n` operations of recovery, in three phases. */
  lemma {:induction false} RecoverPhases(a: Area, d: Disk, r: Scanned, e: nat, n: nat)
    requires r.ok && (r.replayed == 0 ==> r.puts == []) && n <= |RecoverOps(a, r, e)|
    ensures var ops := RecoverOps(a, r, e);
            var dev := Exec(Dev(d, []), ops[..n]);
            || (n <= |r.puts| && dev == Dev(d, r.puts[..n]))
            || (n < |ops| && dev == Dev(Apply(d, r.puts), []))
            || (n == |ops| && dev == Dev(Apply(d, r.puts), [SuperPut(a, RecoverPointers(r, e))]))
    ensures n == |RecoverOps(a, r, e)| ==>
      Exec(Dev(d, []), RecoverOps(a, r, e)) == Dev(Apply(d, r.puts), [SuperPut(a, RecoverPointers(r, e))])
  {
    assert n == |RecoverOps(a, r, e)| ==> RecoverOps(a, r, e)[..n] == RecoverOps(a, r, e);
    var sup := SuperPut(a, RecoverPointers(r, e));
    var tail := (if r.replayed > 0 then [Flush] else []) + [Write(sup)];
    ExecPrefix(Dev(d, []), Writes(r.puts), tail, n);
    if n <= |r.puts| {
      ExecWritesPrefix(Dev(d, []), r.puts, n);
      assert [] + r.puts[..n] == r.puts[..n];
    } else {
      ExecWrites(Dev(d, []), r.puts);
      assert [] + r.puts == r.puts;
      TailPhases(Dev(d, r.puts), r.replayed > 0, sup, n - |r.puts|);
    }
  }

  lemma ScanShape(a: Area, d: Disk)
    requires Fits(a, d) && d[a.fsBlocks].Super?
    ensures var r := ScanOf(a, d);
            (forall p :: p in r.puts ==> p.addr < a.fsBlocks) && (r.ok && r.replayed == 0 ==> r.puts == [])
  {
    var c := Skip(RingOf(a, d), d[a.fsBlocks].tail, d[a.fsBlocks].nextSeq, a.logBlocks);
    ReplayShape(a.crc, RingOf(a, d), a.fsBlocks, c.pos, d[a.fsBlocks].nextSeq, c.budget);
  }

  /** A power cut anywhere inside recovery, losing any part of the cache, changes nothing. */
  lemma RecoveryRestarts(a: Area, d: Disk, fs: Disk, n: nat, d': Disk)
    requires RecoversTo(a, d, fs) && n <= |OpsOn(a, d)|
    requires Torn(Exec(Dev(d, []), OpsOn(a, d)[..n]), d')
    ensures RecoversTo(a, d', fs)
  {
    var r := ScanOf(a, d);
    ScanShape(a, d);
    RecoverPhases(a, d, r, d[a.fsBlocks].nextSeq, n);
    var dev := Exec(Dev(d, []), OpsOn(a, d)[..n]);
    if n <= |r.puts| && dev == Dev(d, r.puts[..n]) {
      MixtureRecovers(a, d, d', fs);
    } else {
      SettledRecovers(a, d, fs, d', dev.cache);
    }
  }

  lemma {:induction false} SettledRecovers(a: Area, d: Disk, fs: Disk, d': Disk, cache: seq<Put>)
    requires RecoversTo(a, d, fs) && (cache == [] || cache == [SuperPut(a, PointersAfter(a, d))])
    requires Torn(Dev(Apply(d, ScanOf(a, d).puts), cache), d')
    ensures RecoversTo(a, d', fs)
  {
    var done := Apply(d, ScanOf(a, d).puts);
    ReplayedRecovers(a, d, fs);
    if cache == [] {
      TornNone(done, d');
    } else {
      DeadAfter(a, d, fs);
      EmptiedRecovers(a, done, RingOf(a, d), fs, PointersAfter(a, d));
      TornOne(done, cache[0], d');
    }
  }

  lemma {:induction false} RecoveryEnds(a: Area, d: Disk)
    requires Fits(a, d) && Sane(a, d[a.fsBlocks]) && ScanOf(a, d).ok
    ensures Exec(Dev(d, []), OpsOn(a, d)) == Dev(Apply(d, ScanOf(a, d).puts), [SuperPut(a, PointersAfter(a, d))])
  {
    ScanShape(a, d);
    RecoverPhases(a, d, ScanOf(a, d), d[a.fsBlocks].nextSeq, |OpsOn(a, d)|);
  }

  lemma {:induction false} CompletedView(a: Area, d: Disk, fs: Disk)
    requires RecoversTo(a, d, fs)
    ensures var done := Apply(d, ScanOf(a, d).puts);
            View(Exec(Dev(d, []), OpsOn(a, d))) == done[a.fsBlocks := SuperPut(a, PointersAfter(a, d)).block]
  {
    RecoveryEnds(a, d);
    ApplyOne(Apply(d, ScanOf(a, d).puts), SuperPut(a, PointersAfter(a, d)));
  }

  /** A completed recovery leaves exactly `fs`, and recovering once more replays nothing. */
  lemma RecoveryCompletes(a: Area, d: Disk, fs: Disk)
    requires RecoversTo(a, d, fs)
    ensures var view := View(Exec(Dev(d, []), OpsOn(a, d)));
            && Fits(a, view) && FsOf(a, view) == fs && RingOf(a, view) == RingOf(a, d)
            && RecoversTo(a, view, fs) && ScanOf(a, view).replayed == 0
  {
    var done, ring, p := Apply(d, ScanOf(a, d).puts), RingOf(a, d), PointersAfter(a, d);
    CompletedView(a, d, fs);
    ReplayedRecovers(a, d, fs);
    DeadAfter(a, d, fs);
    EmptiedRecovers(a, done, ring, fs, p);
    EmptiedScan(a, done[a.fsBlocks := SuperPut(a, p).block], ring, fs, p);
  }

  // A recovery attempt cut after `ops` operations, with `image` left on the medium.
  datatype Attempt = Attempt(ops: nat, image: Disk)

  /** Successive recovery attempts, each cut short, from `d` to `last`. */
  ghost predicate Attempts(a: Area, d: Disk, tries: seq<Attempt>, last: Disk)
    decreases |tries|
  {
    if tries == [] then d == last
    else
      && Fits(a, d) && Sane(a, d[a.fsBlocks]) && tries[0].ops <= |OpsOn(a, d)|
      && Torn(Exec(Dev(d, []), OpsOn(a, d)[..tries[0].ops]), tries[0].image)
      && Attempts(a, tries[0].image, tries[1..], last)
  }

  lemma {:induction false} AttemptsRestart(a: Area, d: Disk, fs: Disk, tries: seq<Attempt>, last: Disk)
    requires RecoversTo(a, d, fs) && Attempts(a, d, tries, last)
    ensures RecoversTo(a, last, fs)
    decreases |tries|
  {
    if tries != [] {
      RecoveryRestarts(a, d, fs, tries[0].ops, tries[0].image);
      AttemptsRestart(a, tries[0].image, fs, tries[1..], last);
    }
  }
}
