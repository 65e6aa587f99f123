/** A commit interrupted by a power cut that keeps any part of the write cache. */
module Crash {
  import opened Disks
  import opened Ring
  import opened Journal
  import opened Recovery
  import opened TornRing
  import opened CutRing

  /** The superblock on the medium is not the current one: it misses records, or has another tail. */
  ghost predicate Lags(a: Area, ring: Disk, fs: Disk, sb: Block, p: Pointers) {
    Sane(a, sb) && Behind(a.crc, ring, fs, sb.tail, sb.nextSeq, p.head, p.nextSeq)
  }

  /**
   * Between calls: the filesystem is `fs`, the live records lead from the tail to the head, and the
   * last superblock write may not be durable yet.
   */
  ghost predicate Kept(a: Area, dev: Dev, p: Pointers, fs: Disk) {
    && Fits(a, dev.stable) && FsOf(a, dev.stable) == fs && p.head < a.logBlocks && p.tail < a.logBlocks
    && (dev.cache == [] || dev.cache == [SuperPut(a, p)])
    && Leads(RingOf(a, dev.stable), p.tail, Used(a, p), p.head, p.nextSeq)
    && (dev.stable[a.fsBlocks] == SuperPut(a, p).block || (dev.cache != [] && Sane(a, dev.stable[a.fsBlocks])))
  }

  /** A recovery from the superblock on the medium comes out where the journal is. */
  ghost predicate Agrees(a: Area, dev: Dev, p: Pointers, fs: Disk)
    requires Kept(a, dev, p, fs)
  {
    || dev.stable[a.fsBlocks] == SuperPut(a, p).block
    || Lags(a, RingOf(a, dev.stable), fs, dev.stable[a.fsBlocks], p)
  }

  /** ... and nothing is to be replayed at the head. */
  ghost predicate Rests(a: Area, dev: Dev, p: Pointers, fs: Disk) {
    Kept(a, dev, p, fs) && Dead(a.crc, RingOf(a, dev.stable), p.head, p.nextSeq) && Agrees(a, dev, p, fs)
  }

  /**
   * What every commit that returns keeps, whatever an earlier recovery left on the ring: at rest unless
   * something is to be replayed.
   */
  ghost predicate Held(a: Area, dev: Dev, p: Pointers, fs: Disk) {
    && Kept(a, dev, p, fs)
    && (Dead(a.crc, RingOf(a, dev.stable), p.head, p.nextSeq) ==> Agrees(a, dev, p, fs))
  }

  /** A scan from a superblock that lags gets to the head before its lap of the ring is over. */
  ghost predicate Spacious(a: Area, ring: Disk, sb: Block, p: Pointers)
    requires 0 < |ring|
  {
    sb == SuperPut(a, p).block || (sb.Super? && Roomy(ring, sb.tail, sb.nextSeq, p.head, p.nextSeq))
  }

  /** At rest, with nothing on the ring that the next number could bring to life but at the head. */
  ghost predicate Ready(a: Area, dev: Dev, p: Pointers, fs: Disk) {
    && Rests(a, dev, p, fs) && Tidy(RingOf(a, dev.stable), p.nextSeq, p.head)
    && Spacious(a, RingOf(a, dev.stable), dev.stable[a.fsBlocks], p)
  }

  /** The ring and the superblock on the medium are such that no cut before the record's barrier can go wrong. */
  ghost predicate Safe(a: Area, ring: Disk, sb: Block, p: Pointers, fs: Disk, txn: Txn)
    requires 0 < |ring| && sb.Super?
  {
    && !Misdirects(a.crc, ring, p.head, p.nextSeq, fs, txn)
    && !Regresses(a.crc, ring, sb.tail, sb.nextSeq, p.head, p.nextSeq, fs, txn)
  }

  // ─── images ────────────────────────────────────────────────────────────────

  /** The ring slot of a block address behind the superblock. */
  function SlotOf(a: Area, x: nat): nat
    requires a.fsBlocks < x
  {
    x - a.fsBlocks - 1
  }

  lemma SlotOfIs(a: Area, q: nat)
    ensures SlotOf(a, a.fsBlocks + 1 + q) == q
  {
  }

  lemma RecordPutAddr(a: Area, at: nat, s: nat, txn: Txn, i: nat)
    requires at < a.logBlocks && |txn| + 2 <= a.logBlocks && i < |txn| + 2
    ensures var put := RecordPuts(a, at, s, txn)[i];
            && a.fsBlocks < put.addr < a.fsBlocks + 1 + a.logBlocks
            && Dist(at, SlotOf(a, put.addr), a.logBlocks) == i
            && put.block == Record(a.crc, txn, s)[i]
  {
  }

  /** Block `b` at address `x` is the block the record of `txn` has there. */
  ghost predicate OnRecord(a: Area, p: Pointers, txn: Txn, x: nat, b: Block)
    requires p.head < a.logBlocks
  {
    && a.fsBlocks < x < a.fsBlocks + 1 + a.logBlocks
    && var i := Dist(p.head, SlotOf(a, x), a.logBlocks);
       i < |txn| + 2 && b == Record(a.crc, txn, p.nextSeq)[i]
  }

  lemma CutBlock(a: Area, cache: seq<Put>, p: Pointers, txn: Txn, m: nat, x: nat, b: Block)
    requires cache == [] || cache == [SuperPut(a, p)]
    requires p.head < a.logBlocks && |txn| + 2 <= a.logBlocks && m <= |txn| + 2
    requires Put(x, b) in cache + RecordPuts(a, p.head, p.nextSeq, txn)[..m]
    ensures (x == a.fsBlocks && cache != [] && b == SuperPut(a, p).block) || OnRecord(a, p, txn, x, b)
  {
    if Put(x, b) !in cache {
      CutRecordBlock(a, p, txn, m, x, b);
    }
  }

  lemma CutRecordBlock(a: Area, p: Pointers, txn: Txn, m: nat, x: nat, b: Block)
    requires p.head < a.logBlocks && |txn| + 2 <= a.logBlocks && m <= |txn| + 2
    requires Put(x, b) in RecordPuts(a, p.head, p.nextSeq, txn)[..m]
    ensures OnRecord(a, p, txn, x, b)
  {
    var i := IndexIn(RecordPuts(a, p.head, p.nextSeq, txn), m, Put(x, b));
    RecordPutOn(a, p, txn, i);
  }

  lemma RecordPutOn(a: Area, p: Pointers, txn: Txn, i: nat)
    requires p.head < a.logBlocks && |txn| + 2 <= a.logBlocks && i < |txn| + 2
    ensures var put := RecordPuts(a, p.head, p.nextSeq, txn)[i]; OnRecord(a, p, txn, put.addr, put.block)
  {
    RecordPutAddr(a, p.head, p.nextSeq, txn, i);
  }

  lemma IndexIn(puts: seq<Put>, m: nat, put: Put) returns (i: nat)
    requires m <= |puts| && put in puts[..m]
    ensures i < m && puts[i] == put
  {
    i :| 0 <= i < m && puts[..m][i] == put;
  }

  /** What a cut in the middle of the record leaves: old filesystem, part of the record, some superblock. */
  lemma RecordImage(a: Area, stable: Disk, cache: seq<Put>, p: Pointers, txn: Txn, m: nat, d: Disk)
    requires Fits(a, stable) && (cache == [] || cache == [SuperPut(a, p)])
    requires p.head < a.logBlocks && |txn| + 2 <= a.logBlocks && m <= |txn| + 2
    requires Torn(Dev(stable, cache + RecordPuts(a, p.head, p.nextSeq, txn)[..m]), d)
    ensures Fits(a, d) && FsOf(a, d) == FsOf(a, stable)
    ensures Partly(RingOf(a, stable), RingOf(a, d), p.head, Record(a.crc, txn, p.nextSeq))
    ensures d[a.fsBlocks] == stable[a.fsBlocks] || (cache != [] && d[a.fsBlocks] == SuperPut(a, p).block)
  {
    forall x | 0 <= x < |d| ensures KeptOrCut(a, stable, cache, p, txn, d, x) {
      CutKeeps(a, stable, cache, p, txn, m, d, x);
    }
    CutLow(a, stable, cache, p, txn, d);
    CutSlots(a, stable, cache, p, txn, d);
  }

  /** A block of the image: as it was, the superblock in flight, or the record's own. */
  ghost predicate KeptOrCut(a: Area, stable: Disk, cache: seq<Put>, p: Pointers, txn: Txn, d: Disk, x: nat)
    requires p.head < a.logBlocks && x < |d| == |stable|
  {
    || d[x] == stable[x] || (x == a.fsBlocks && cache != [] && d[x] == SuperPut(a, p).block)
    || OnRecord(a, p, txn, x, d[x])
  }

  ghost predicate AllKeptOrCut(a: Area, stable: Disk, cache: seq<Put>, p: Pointers, txn: Txn, d: Disk)
    requires p.head < a.logBlocks && |d| == |stable|
  {
    forall x {:trigger KeptOrCut(a, stable, cache, p, txn, d, x)} :: 0 <= x < |d| ==>
      KeptOrCut(a, stable, cache, p, txn, d, x)
  }

  lemma CutKeeps(a: Area, stable: Disk, cache: seq<Put>, p: Pointers, txn: Txn, m: nat, d: Disk, x: nat)
    requires Fits(a, stable) && (cache == [] || cache == [SuperPut(a, p)])
    requires p.head < a.logBlocks && |txn| + 2 <= a.logBlocks && m <= |txn| + 2
    requires Torn(Dev(stable, cache + RecordPuts(a, p.head, p.nextSeq, txn)[..m]), d) && x < |d|
    ensures KeptOrCut(a, stable, cache, p, txn, d, x)
  {
    if d[x] != stable[x] { CutBlock(a, cache, p, txn, m, x, d[x]); }
  }

  lemma CutLow(a: Area, stable: Disk, cache: seq<Put>, p: Pointers, txn: Txn, d: Disk)
    requires Fits(a, stable) && p.head < a.logBlocks && |d| == |stable| && AllKeptOrCut(a, stable, cache, p, txn, d)
    ensures FsOf(a, d) == FsOf(a, stable)
    ensures d[a.fsBlocks] == stable[a.fsBlocks] || (cache != [] && d[a.fsBlocks] == SuperPut(a, p).block)
  {
    forall x | 0 <= x < a.fsBlocks ensures d[x] == stable[x] {
      assert KeptOrCut(a, stable, cache, p, txn, d, x);
    }
    assert KeptOrCut(a, stable, cache, p, txn, d, a.fsBlocks);
  }

  lemma CutSlots(a: Area, stable: Disk, cache: seq<Put>, p: Pointers, txn: Txn, d: Disk)
    requires Fits(a, stable) && p.head < a.logBlocks && |d| == |stable| && AllKeptOrCut(a, stable, cache, p, txn, d)
    ensures Partly(RingOf(a, stable), RingOf(a, d), p.head, Record(a.crc, txn, p.nextSeq))
  {
    var ring, ring', rec := RingOf(a, stable), RingOf(a, d), Record(a.crc, txn, p.nextSeq);
    forall q | 0 <= q < a.logBlocks ensures May(ring, p.head, rec, q, ring'[q]) {
      CutSlot(a, stable, cache, p, txn, d, q);
    }
  }

  lemma OnRecordMay(a: Area, p: Pointers, txn: Txn, ring: Disk, x: nat, q: nat, b: Block)
    requires p.head < a.logBlocks == |ring| && q < |ring| && x == a.fsBlocks + 1 + q && OnRecord(a, p, txn, x, b)
    ensures May(ring, p.head, Record(a.crc, txn, p.nextSeq), q, b)
  {
    SlotOfIs(a, q);
  }

  lemma CutSlot(a: Area, stable: Disk, cache: seq<Put>, p: Pointers, txn: Txn, d: Disk, q: nat)
    requires Fits(a, stable) && p.head < a.logBlocks && |d| == |stable| && AllKeptOrCut(a, stable, cache, p, txn, d)
    requires q < a.logBlocks
    ensures May(RingOf(a, stable), p.head, Record(a.crc, txn, p.nextSeq), q, RingOf(a, d)[q])
  {
    var x := a.fsBlocks + 1 + q;
    assert KeptOrCut(a, stable, cache, p, txn, d, x);
    SlotMay(a, p, txn, RingOf(a, stable), x, q, stable[x], d[x]);
  }

  lemma SlotMay(a: Area, p: Pointers, txn: Txn, ring: Disk, x: nat, q: nat, was: Block, b: Block)
    requires p.head < a.logBlocks == |ring| && q < |ring| && x == a.fsBlocks + 1 + q && ring[q] == was
    requires b == was || OnRecord(a, p, txn, x, b)
    ensures May(ring, p.head, Record(a.crc, txn, p.nextSeq), q, b)
  {
    if b != was { OnRecordMay(a, p, txn, ring, x, q, b); }
  }

  // ─── from rings to disks ───────────────────────────────────────────────────

  lemma RecoversAtomic(a: Area, d: Disk, sb: Block, ring: Disk, fs: Disk, txn: Txn) returns (applied: bool)
    requires Holds(a, d, sb, ring, fs) && AllOrNone(a.crc, ring, fs, sb.tail, sb.nextSeq, txn)
    ensures RecoversTo(a, d, Outcome(fs, txn, applied))
  {
    applied := !Settles(a.crc, ring, fs, sb.tail, sb.nextSeq, fs);
    Recovers(a, d, sb, ring, fs, Outcome(fs, txn, applied));
  }

  // ─── a cut before the record's barrier ─────────────────────────────────────

  /** With the current superblock, or the one on the medium. */
  lemma RingAtomic(a: Area, ring: Disk, ring': Disk, sb: Block, p: Pointers, fs: Disk, txn: Txn)
    requires Arrives(a.crc, ring, ring', p.head, p.nextSeq, fs, txn) && |ring| == a.logBlocks && |fs| == a.fsBlocks
    requires p.tail < a.logBlocks && Leads(ring, p.tail, Used(a, p), p.head, p.nextSeq) && !NeedsReclaim(a, p, |txn|)
    requires sb == SuperPut(a, p).block || Lags(a, ring, fs, sb, p)
    requires sb.Super? && Spacious(a, ring, sb, p) && Safe(a, ring, sb, p, fs, txn)
    requires Told(a.crc, ring, sb.tail, sb.nextSeq, p.head, p.nextSeq, txn)
    ensures AllOrNone(a.crc, ring', fs, sb.tail, sb.nextSeq, txn)
  {
    if sb == SuperPut(a, p).block {
      NowAtomic(a.crc, ring, ring', fs, p.tail, Used(a, p), p.head, p.nextSeq, txn);
    } else if sb.nextSeq == p.nextSeq {
      AsideAtomic(a.crc, ring, ring', fs, sb.tail, p.head, p.nextSeq, txn);
    } else {
      OldAtomic(a.crc, ring, ring', fs, sb.tail, sb.nextSeq, p.head, p.nextSeq, txn);
    }
  }

  /**
   * A cut before the record's barrier: all of the transaction or none of it, unless it can bring alive
   * something else at the head or cut a chain of unacknowledged records short.
   */
  lemma RecordCut(a: Area, dev: Dev, p: Pointers, fs: Disk, txn: Txn, m: nat, d: Disk) returns (applied: bool)
    requires Ready(a, dev, p, fs) && Loggable(txn, a.logBlocks, a.fsBlocks) && !NeedsReclaim(a, p, |txn|)
    requires m <= |txn| + 2
    requires var ring, sb := RingOf(a, dev.stable), dev.stable[a.fsBlocks];
             Safe(a, ring, sb, p, fs, txn) && Told(a.crc, ring, sb.tail, sb.nextSeq, p.head, p.nextSeq, txn)
    requires Torn(Dev(dev.stable, dev.cache + RecordPuts(a, p.head, p.nextSeq, txn)[..m]), d)
    ensures RecoversTo(a, d, Outcome(fs, txn, applied))
  {
    RecordImage(a, dev.stable, dev.cache, p, txn, m, d);
    var ring, ring', sb := RingOf(a, dev.stable), RingOf(a, d), d[a.fsBlocks];
    if sb == SuperPut(a, p).block {
      NowAtomic(a.crc, ring, ring', fs, p.tail, Used(a, p), p.head, p.nextSeq, txn);
    } else {
      RingAtomic(a, ring, ring', sb, p, fs, txn);
    }
    applied := RecoversAtomic(a, d, sb, ring', fs, txn);
  }

  // ─── cuts that leave the ring alone ────────────────────────────────────────

  /** A superblock that acknowledges everything, with the tail or the head as its tail. */
  lemma CurrentRecovers(a: Area, dev: Dev, p: Pointers, fs: Disk, tail: nat)
    requires Rests(a, dev, p, fs) && (tail == p.tail || tail == p.head)
    ensures RecoversAt(a, dev.stable[a.fsBlocks := SuperPut(a, p.(tail := tail)).block], fs, p.nextSeq)
  {
    var ring, sb := RingOf(a, dev.stable), SuperPut(a, p.(tail := tail)).block;
    UnderSuper(a, dev.stable, sb);
    if tail == p.head {
      DeadSettles(a.crc, ring, fs, p.head, p.nextSeq);
    } else {
      PathSettles(a.crc, ring, fs, p.tail, Used(a, p), p.head, p.nextSeq);
    }
    Recovers(a, dev.stable[a.fsBlocks := sb], sb, ring, fs, fs);
  }

  lemma StableRecovers(a: Area, dev: Dev, p: Pointers, fs: Disk)
    requires Rests(a, dev, p, fs)
    ensures RecoversAt(a, dev.stable, fs, p.nextSeq)
  {
    var ring, sb := RingOf(a, dev.stable), dev.stable[a.fsBlocks];
    if sb == SuperPut(a, p).block {
      PathSettles(a.crc, ring, fs, p.tail, Used(a, p), p.head, p.nextSeq);
    } else {
      BehindSettles(a.crc, ring, fs, sb.tail, sb.nextSeq, p.head, p.nextSeq);
    }
    Recovers(a, dev.stable, sb, ring, fs, fs);
  }

  lemma RestsCut(a: Area, dev: Dev, p: Pointers, fs: Disk, d: Disk)
    requires Rests(a, dev, p, fs) && Torn(dev, d)
    ensures RecoversAt(a, d, fs, p.nextSeq)
  {
    StableRecovers(a, dev, p, fs);
    if dev.cache == [] {
      TornNone(dev.stable, d);
    } else {
      CurrentRecovers(a, dev, p, fs, p.tail);
      assert p.(tail := p.tail) == p;
      TornOne(dev.stable, SuperPut(a, p), d);
    }
  }

  // ─── reclaim ───────────────────────────────────────────────────────────────

  lemma SuperWrites(d: Disk, puts: seq<Put>, x: nat, image: Disk)
    requires x < |d| && (forall put :: put in puts ==> put.addr == x) && Torn(Dev(d, puts), image)
    ensures image == d[x := image[x]] && (image[x] == d[x] || Put(x, image[x]) in puts)
  {
  }

  /** Both superblock writes may be in the cache: any of them, or neither, recovers to `fs`. */
  lemma ReclaimCut(a: Area, dev: Dev, p: Pointers, fs: Disk, d: Disk)
    requires Rests(a, dev, p, fs) && Torn(Dev(dev.stable, dev.cache + [SuperPut(a, p.(tail := p.head))]), d)
    ensures RecoversAt(a, d, fs, p.nextSeq)
  {
    var sup := SuperPut(a, p.(tail := p.head));
    SuperWrites(dev.stable, dev.cache + [sup], a.fsBlocks, d);
    if d[a.fsBlocks] == dev.stable[a.fsBlocks] {
      StableRecovers(a, dev, p, fs);
      assert d == dev.stable;
    } else if d[a.fsBlocks] == sup.block {
      CurrentRecovers(a, dev, p, fs, p.head);
    } else {
      CurrentRecovers(a, dev, p, fs, p.tail);
      assert p.(tail := p.tail) == p;
    }
  }

  lemma {:induction false} ReclaimedDisk(a: Area, dev: Dev, p: Pointers, fs: Disk)
    requires Kept(a, dev, p, fs)
    ensures var sup := SuperPut(a, p.(tail := p.head));
            Exec(dev, [Write(sup), Flush]) == Dev(dev.stable[a.fsBlocks := sup.block], [])
  {
    var sup := SuperPut(a, p.(tail := p.head));
    ExecTwo(dev, Write(sup), Flush);
    ApplyConcat(dev.stable, dev.cache, [sup]);
    ApplyOne(dev.stable, SuperPut(a, p));
    ApplyOne(Apply(dev.stable, dev.cache), sup);
  }

  lemma ReclaimKept(a: Area, dev: Dev, p: Pointers, fs: Disk)
    requires Kept(a, dev, p, fs)
    ensures var sup := SuperPut(a, p.(tail := p.head));
            var dev' := Dev(dev.stable[a.fsBlocks := sup.block], []);
            && Kept(a, dev', p.(tail := p.head), fs) && Agrees(a, dev', p.(tail := p.head), fs)
            && RingOf(a, dev'.stable) == RingOf(a, dev.stable)
  {
    UnderSuper(a, dev.stable, SuperPut(a, p.(tail := p.head)).block);
  }
}
