/** Crash atomicity of one commit, for a cache that may lose any part of its contents: the exact condition. */
module Atomicity {
  import opened Disks
  import opened Ring
  import opened Journal
  import opened Recovery
  import opened TornRing
  import opened BehindRing
  import opened CutRing
  import opened Crash
  import opened Commits

  /** What a commit that returned has done to the filesystem. */
  ghost function Committed(a: Area, fs: Disk, txn: Txn): Disk {
    if CommitStatus(a, txn) == Done then Apply(fs, txn) else fs
  }

  /** A commit that writes a record. */
  predicate Logs(a: Area, txn: Txn) {
    CommitStatus(a, txn) == Done && txn != []
  }

  lemma DoneLoggable(a: Area, txn: Txn)
    requires Logs(a, txn) && Plain(txn)
    ensures Loggable(txn, a.logBlocks, a.fsBlocks)
  {
    forall i | 0 <= i < |txn| ensures txn[i].addr < a.fsBlocks {
      assert !Misplaced(a, txn[i]);
    }
  }

  // ─── reclaim ───────────────────────────────────────────────────────────────

  /** A cut inside `ReclaimOps`. */
  lemma {:induction false} ReclaimOpsCut(a: Area, dev: Dev, p: Pointers, fs: Disk, count: nat, n: nat, d: Disk)
    requires Rests(a, dev, p, fs) && n <= |ReclaimOps(a, p, count)| && Torn(Exec(dev, ReclaimOps(a, p, count)[..n]), d)
    ensures RecoversAt(a, d, fs, p.nextSeq)
  {
    var ops := ReclaimOps(a, p, count);
    if n == 0 {
      assert ops[..n] == [];
      RestsCut(a, dev, p, fs, d);
    } else if n == 1 {
      assert ops[..n] == [ops[0]];
      ExecOne(dev, ops[0]);
      ReclaimCut(a, dev, p, fs, d);
    } else {
      assert ops[..n] == ops;
      ReclaimedDisk(a, dev, p, fs);
      ReclaimKept(a, dev, p, fs);
      RestsCut(a, Exec(dev, ops), p.(tail := p.head), fs, d);
    }
  }

  /** With room for the record: the pointers, and the superblock on the medium. */
  lemma {:induction false} ReclaimedReady(a: Area, dev: Dev, p: Pointers, fs: Disk, count: nat)
    requires Ready(a, dev, p, fs)
    ensures var dev' := Exec(dev, ReclaimOps(a, p, count));
            && Ready(a, dev', Reclaimed(a, p, count), fs) && RingOf(a, dev'.stable) == RingOf(a, dev.stable)
            && dev'.stable[a.fsBlocks]
               == (if NeedsReclaim(a, p, count) then SuperPut(a, Reclaimed(a, p, count)).block
                   else dev.stable[a.fsBlocks])
    ensures count + 2 <= a.logBlocks ==> !NeedsReclaim(a, Reclaimed(a, p, count), count)
  {
    if NeedsReclaim(a, p, count) {
      ReclaimedDisk(a, dev, p, fs);
      ReclaimKept(a, dev, p, fs);
      UnderSuper(a, dev.stable, SuperPut(a, p.(tail := p.head)).block);
    }
  }

  /** The same of what every returned commit keeps. */
  lemma {:induction false} ReclaimedHeld(a: Area, dev: Dev, p: Pointers, fs: Disk, count: nat)
    requires Held(a, dev, p, fs)
    ensures var dev' := Exec(dev, ReclaimOps(a, p, count));
            Held(a, dev', Reclaimed(a, p, count), fs) && RingOf(a, dev'.stable) == RingOf(a, dev.stable)
    ensures count + 2 <= a.logBlocks ==> !NeedsReclaim(a, Reclaimed(a, p, count), count)
  {
    if NeedsReclaim(a, p, count) {
      ReclaimedDisk(a, dev, p, fs);
      ReclaimKept(a, dev, p, fs);
    }
  }

  // ─── one commit ────────────────────────────────────────────────────────────

  /** The ring after a commit that returned. */
  ghost function RingAfter(a: Area, ring: Disk, p: Pointers, txn: Txn): (r: Disk)
    requires p.head < |ring|
    ensures |r| == |ring|
  {
    if Logs(a, txn) then Stamp(ring, p.head, Record(a.crc, txn, p.nextSeq)) else ring
  }

  lemma LoggedPointers(a: Area, p: Pointers, txn: Txn)
    requires p.tail < a.logBlocks && Logs(a, txn)
    ensures Reclaimed(a, p, |txn|).head == p.head && Reclaimed(a, p, |txn|).nextSeq == p.nextSeq
    ensures CommitPointers(a, p, txn).head == Slot(p.head + |txn| + 2, a.logBlocks)
    ensures CommitPointers(a, p, txn).nextSeq == p.nextSeq + 1
    ensures CommitOps(a, p, txn) == ReclaimOps(a, p, |txn|) + RecordOps(a, Reclaimed(a, p, |txn|), txn)
  {
  }

  /** Whatever is on the ring, a commit that returned has exactly its transaction applied. */
  lemma {:induction false} CommitHeld(a: Area, dev: Dev, p: Pointers, fs: Disk, txn: Txn)
    requires Held(a, dev, p, fs) && Plain(txn)
    ensures var dev' := Exec(dev, CommitOps(a, p, txn));
            && Held(a, dev', CommitPointers(a, p, txn), Committed(a, fs, txn))
            && RingOf(a, dev'.stable) == RingAfter(a, RingOf(a, dev.stable), p, txn)
  {
    if txn != [] && !TooBig(a, txn) {
      var reclaim, p' := ReclaimOps(a, p, |txn|), Reclaimed(a, p, |txn|);
      ReclaimedHeld(a, dev, p, fs, |txn|);
      if CommitStatus(a, txn) == Done {
        DoneLoggable(a, txn);
        ExecConcat(dev, reclaim, RecordOps(a, p', txn));
        RecordOpsHeld(a, Exec(dev, reclaim), p', fs, txn);
      }
    }
  }

  /**
   * What makes every cut in the commit of `txn` atomic: nothing but the transaction can come alive at
   * the head, and the record cuts no chain of unacknowledged records short. A reclaim, whose barrier
   * makes the superblock current, leaves no such chain.
   */
  ghost predicate SafeAt(a: Area, dev: Dev, p: Pointers, fs: Disk, txn: Txn)
    requires Fits(a, dev.stable) && dev.stable[a.fsBlocks].Super? && p.tail < a.logBlocks
  {
    var ring, sb := RingOf(a, dev.stable), dev.stable[a.fsBlocks];
    && !Misdirects(a.crc, ring, p.head, p.nextSeq, fs, txn)
    && (NeedsReclaim(a, p, |txn|) || !Regresses(a.crc, ring, sb.tail, sb.nextSeq, p.head, p.nextSeq, fs, txn))
  }

  /** The checksums of the records that the superblock misses tell their damage. */
  ghost predicate ToldAt(a: Area, dev: Dev, p: Pointers, txn: Txn)
    requires Fits(a, dev.stable) && dev.stable[a.fsBlocks].Super? && p.tail < a.logBlocks
  {
    var ring, sb := RingOf(a, dev.stable), dev.stable[a.fsBlocks];
    NeedsReclaim(a, p, |txn|) || Told(a.crc, ring, sb.tail, sb.nextSeq, p.head, p.nextSeq, txn)
  }

  lemma CurrentTold(crc: Checksum, ring: Disk, tail: nat, head: nat, s: nat, txn: Txn)
    requires tail < |ring| && head < |ring|
    ensures Told(crc, ring, tail, s, head, s, txn)
  {
    SkipLeft(ring, tail, s, |ring|);
  }

  lemma ReclaimedSafe(a: Area, dev: Dev, p: Pointers, fs: Disk, txn: Txn, sb: Block)
    requires Ready(a, dev, p, fs) && SafeAt(a, dev, p, fs, txn) && ToldAt(a, dev, p, txn)
    requires sb == (if NeedsReclaim(a, p, |txn|) then SuperPut(a, Reclaimed(a, p, |txn|)).block
                    else dev.stable[a.fsBlocks])
    ensures var ring, p' := RingOf(a, dev.stable), Reclaimed(a, p, |txn|);
            Safe(a, ring, sb, p', fs, txn) && Told(a.crc, ring, sb.tail, sb.nextSeq, p'.head, p'.nextSeq, txn)
  {
    CurrentTold(a.crc, RingOf(a, dev.stable), Reclaimed(a, p, |txn|).tail, p.head, p.nextSeq, txn);
  }

  /**
   * Power fails after any number of the operations of `commit`, and any part of the unflushed cache
   * survives: recovery finds all of the transaction or none of it. Once the record's barrier is past
   * it is all; a refused transaction is never applied.
   */
  lemma CommitAtomic(a: Area, dev: Dev, p: Pointers, fs: Disk, txn: Txn, n: nat, d: Disk) returns (applied: bool)
    requires Ready(a, dev, p, fs) && Plain(txn)
    requires Logs(a, txn) ==> SafeAt(a, dev, p, fs, txn) && ToldAt(a, dev, p, txn)
    requires n <= |CommitOps(a, p, txn)| && Torn(Exec(dev, CommitOps(a, p, txn)[..n]), d)
    ensures RecoversTo(a, d, Outcome(fs, txn, applied))
    ensures CommitStatus(a, txn) != Done ==> !applied
    ensures Logs(a, txn) && n > |ReclaimOps(a, p, |txn|)| + |txn| + 2 ==> applied
    ensures n == |CommitOps(a, p, txn)| ==> Outcome(fs, txn, applied) == Committed(a, fs, txn)
  {
    applied := false;
    if txn == [] || TooBig(a, txn) {
      RestsCut(a, dev, p, fs, d);
    } else if CommitStatus(a, txn) == Corrupt {
      ReclaimOpsCut(a, dev, p, fs, |txn|, n, d);
    } else {
      applied := ValidCommitCut(a, dev, p, fs, txn, n, d);
    }
  }

  lemma ValidCommitCut(a: Area, dev: Dev, p: Pointers, fs: Disk, txn: Txn, n: nat, d: Disk) returns (applied: bool)
    requires Ready(a, dev, p, fs) && Plain(txn) && Logs(a, txn)
    requires SafeAt(a, dev, p, fs, txn) && ToldAt(a, dev, p, txn)
    requires n <= |CommitOps(a, p, txn)| && Torn(Exec(dev, CommitOps(a, p, txn)[..n]), d)
    ensures RecoversTo(a, d, Outcome(fs, txn, applied))
    ensures n > |ReclaimOps(a, p, |txn|)| + |txn| + 2 ==> applied
    ensures |CommitOps(a, p, txn)| > |ReclaimOps(a, p, |txn|)| + |txn| + 2
  {
    var reclaim, p' := ReclaimOps(a, p, |txn|), Reclaimed(a, p, |txn|);
    DoneLoggable(a, txn);
    RecordOpsShape(a, p', txn);
    ExecPrefix(dev, reclaim, RecordOps(a, p', txn), n);
    if n <= |reclaim| {
      ReclaimOpsCut(a, dev, p, fs, |txn|, n, d);
      applied := false;
    } else {
      ReclaimedReady(a, dev, p, fs, |txn|);
      ReclaimedSafe(a, dev, p, fs, txn, Exec(dev, reclaim).stable[a.fsBlocks]);
      applied := RecordOpsCut(a, Exec(dev, reclaim), p', fs, txn, n - |reclaim|, d);
    }
  }

  /** A commit that returned is back at rest, with exactly its transaction applied, and ready for the next. */
  lemma {:induction false} CommitReady(a: Area, dev: Dev, p: Pointers, fs: Disk, txn: Txn)
    requires Ready(a, dev, p, fs) && Plain(txn)
    ensures Ready(a, Exec(dev, CommitOps(a, p, txn)), CommitPointers(a, p, txn), Committed(a, fs, txn))
  {
    if txn != [] && !TooBig(a, txn) {
      var reclaim, p' := ReclaimOps(a, p, |txn|), Reclaimed(a, p, |txn|);
      ReclaimedReady(a, dev, p, fs, |txn|);
      if CommitStatus(a, txn) == Done {
        DoneLoggable(a, txn);
        ExecConcat(dev, reclaim, RecordOps(a, p', txn));
        RecordOpsReady(a, Exec(dev, reclaim), p', fs, txn);
      }
    }
  }

  // ─── the condition is exact ────────────────────────────────────────────────

  /** A disk with another superblock and another ring. */
  ghost function Graft(a: Area, d: Disk, sb: Block, ring: Disk): Disk
    requires Fits(a, d)
  {
    d[..a.fsBlocks] + [sb] + ring + d[a.fsBlocks + 1 + a.logBlocks..]
  }

  lemma GraftHolds(a: Area, d: Disk, sb: Block, ring: Disk)
    requires Fits(a, d) && |ring| == a.logBlocks && Sane(a, sb)
    ensures Holds(a, Graft(a, d, sb, ring), sb, ring, FsOf(a, d)) && |Graft(a, d, sb, ring)| == |d|
    ensures forall x :: 0 <= x < |d| && x != a.fsBlocks && !(a.fsBlocks < x <= a.fsBlocks + a.logBlocks) ==>
      Graft(a, d, sb, ring)[x] == d[x]
  {
  }

  lemma RecordPutIn(a: Area, at: nat, s: nat, txn: Txn, q: nat)
    requires at < a.logBlocks && q < a.logBlocks && Dist(at, q, a.logBlocks) < |txn| + 2
    ensures Put(a.fsBlocks + 1 + q, Record(a.crc, txn, s)[Dist(at, q, a.logBlocks)]) in RecordPuts(a, at, s, txn)
  {
    var i := Dist(at, q, a.logBlocks);
    assert Slot(at + i, a.logBlocks) == q;
    assert RecordPuts(a, at, s, txn)[i] == Put(a.fsBlocks + 1 + q, Record(a.crc, txn, s)[i]);
  }

  lemma GraftSlot(a: Area, stable: Disk, p: Pointers, txn: Txn, ring': Disk, q: nat, x: nat)
    requires Fits(a, stable) && p.head < a.logBlocks && q < a.logBlocks && x == a.fsBlocks + 1 + q
    requires Partly(RingOf(a, stable), ring', p.head, Record(a.crc, txn, p.nextSeq))
    ensures ring'[q] == stable[x] || Put(x, ring'[q]) in RecordPuts(a, p.head, p.nextSeq, txn)
  {
    var ring := RingOf(a, stable);
    assert May(ring, p.head, Record(a.crc, txn, p.nextSeq), q, ring'[q]) && ring[q] == stable[x];
    if ring'[q] != ring[q] { RecordPutIn(a, p.head, p.nextSeq, txn, q); }
  }

  lemma GraftAt(a: Area, dev: Dev, p: Pointers, fs: Disk, txn: Txn, sb: Block, ring': Disk, x: nat, b: Block)
    requires Rests(a, dev, p, fs) && (sb == dev.stable[a.fsBlocks] || sb == SuperPut(a, p).block) && Sane(a, sb)
    requires Partly(RingOf(a, dev.stable), ring', p.head, Record(a.crc, txn, p.nextSeq))
    requires x < |dev.stable| && |ring'| == a.logBlocks
    requires b == if x == a.fsBlocks then sb
                  else if a.fsBlocks < x <= a.fsBlocks + a.logBlocks then ring'[SlotOf(a, x)] else dev.stable[x]
    ensures b == dev.stable[x] || Put(x, b) in dev.cache + RecordPuts(a, p.head, p.nextSeq, txn)
  {
    if a.fsBlocks < x <= a.fsBlocks + a.logBlocks {
      GraftSlot(a, dev.stable, p, txn, ring', SlotOf(a, x), x);
    } else if b != dev.stable[x] {
      assert dev.cache[0] == SuperPut(a, p);
    }
  }

  /** Any part of the record may be what a cut right before its barrier leaves. */
  lemma GraftTorn(a: Area, dev: Dev, p: Pointers, fs: Disk, txn: Txn, sb: Block, ring': Disk)
    requires Rests(a, dev, p, fs) && (sb == dev.stable[a.fsBlocks] || sb == SuperPut(a, p).block) && Sane(a, sb)
    requires Partly(RingOf(a, dev.stable), ring', p.head, Record(a.crc, txn, p.nextSeq))
    ensures Torn(Dev(dev.stable, dev.cache + RecordPuts(a, p.head, p.nextSeq, txn)), Graft(a, dev.stable, sb, ring'))
  {
    var puts, image := RecordPuts(a, p.head, p.nextSeq, txn), Graft(a, dev.stable, sb, ring');
    GraftHolds(a, dev.stable, sb, ring');
    forall x | 0 <= x < |image| ensures image[x] == dev.stable[x] || Put(x, image[x]) in dev.cache + puts {
      GraftAt(a, dev, p, fs, txn, sb, ring', x, image[x]);
    }
  }

  ghost predicate CutAt(a: Area, dev: Dev, p: Pointers, txn: Txn, n: nat, d: Disk)
    requires p.tail < a.logBlocks
  {
    n <= |CommitOps(a, p, txn)| && Torn(Exec(dev, CommitOps(a, p, txn)[..n]), d)
  }

  /** Every cut anywhere in the commit of `txn` leaves all of it or nothing. */
  ghost predicate Atomic(a: Area, dev: Dev, p: Pointers, fs: Disk, txn: Txn)
    requires p.tail < a.logBlocks
  {
    forall n: nat, d :: CutAt(a, dev, p, txn, n, d) ==> RecoversTo(a, d, fs) || RecoversTo(a, d, Apply(fs, txn))
  }

  /** A ring that recovery gets wrong, and that a cut can leave, disproves atomicity. */
  lemma {:induction false} WrongCut(a: Area, dev: Dev, p: Pointers, fs: Disk, txn: Txn, sb: Block, ring': Disk)
    requires Ready(a, dev, p, fs) && Logs(a, txn) && Plain(txn)
    requires var dev', p' := Exec(dev, ReclaimOps(a, p, |txn|)), Reclaimed(a, p, |txn|);
             && Rests(a, dev', p', fs) && Sane(a, sb) && (sb == dev'.stable[a.fsBlocks] || sb == SuperPut(a, p').block)
             && Partly(RingOf(a, dev'.stable), ring', p'.head, Record(a.crc, txn, p'.nextSeq))
             && !AllOrNone(a.crc, ring', fs, sb.tail, sb.nextSeq, txn)
    ensures !Atomic(a, dev, p, fs, txn)
  {
    var reclaim, p' := ReclaimOps(a, p, |txn|), Reclaimed(a, p, |txn|);
    var dev', rec := Exec(dev, reclaim), RecordPuts(a, p'.head, p'.nextSeq, txn);
    var d, n := Graft(a, dev'.stable, sb, ring'), |reclaim| + |rec|;
    DoneLoggable(a, txn);
    GraftTorn(a, dev', p', fs, txn, sb, ring');
    GraftHolds(a, dev'.stable, sb, ring');
    Recovers(a, d, sb, ring', fs, fs);
    Recovers(a, d, sb, ring', fs, Apply(fs, txn));
    RecordOpsShape(a, p', txn);
    ExecPrefix(dev, reclaim, RecordOps(a, p', txn), n);
    LogPhases(dev', rec, txn, Write(SuperPut(a, Advanced(a, p', |txn|))), |rec|);
    assert rec[..|rec|] == rec;
    assert CutAt(a, dev, p, txn, n, d);
  }

  lemma WrongNow(a: Area, dev: Dev, p: Pointers, fs: Disk, txn: Txn, sb: Block, ring': Disk)
    requires Ready(a, dev, p, fs) && Logs(a, txn) && Plain(txn)
    requires !NeedsReclaim(a, p, |txn|)
    requires sb == dev.stable[a.fsBlocks] && Partly(RingOf(a, dev.stable), ring', p.head, Record(a.crc, txn, p.nextSeq))
    requires sb.Super? && !AllOrNone(a.crc, ring', fs, sb.tail, sb.nextSeq, txn)
    ensures !Atomic(a, dev, p, fs, txn)
  {
    assert Exec(dev, ReclaimOps(a, p, |txn|)) == dev && Reclaimed(a, p, |txn|) == p;
    WrongCut(a, dev, p, fs, txn, sb, ring');
  }

  lemma MisdirectsIsWrong(a: Area, dev: Dev, p: Pointers, fs: Disk, txn: Txn)
    requires Ready(a, dev, p, fs) && Logs(a, txn) && Plain(txn)
    requires Misdirects(a.crc, RingOf(a, dev.stable), p.head, p.nextSeq, fs, txn)
    ensures !Atomic(a, dev, p, fs, txn)
  {
    var ring, p', s := RingOf(a, dev.stable), Reclaimed(a, p, |txn|), p.nextSeq;
    var targets, data :|
      Slips(a.crc, ring, p.head, s, Record(a.crc, txn, s), targets, data) && Misleads(fs, txn, targets, data);
    DoneLoggable(a, txn);
    ReclaimedReady(a, dev, p, fs, |txn|);
    SlipMisleads(a.crc, ring, fs, p'.tail, Used(a, p'), p'.head, s, txn, targets, data);
    WrongCut(a, dev, p, fs, txn, SuperPut(a, p').block, Slipped(a.crc, ring, p.head, s, targets, data));
  }

  lemma {:induction false} BreakIsWrong(a: Area, dev: Dev, p: Pointers, fs: Disk, txn: Txn, j: nat, i: nat)
    requires Ready(a, dev, p, fs) && Logs(a, txn) && Plain(txn)
    requires !NeedsReclaim(a, p, |txn|) && ToldAt(a, dev, p, txn)
    requires var ring, sb, s := RingOf(a, dev.stable), dev.stable[a.fsBlocks], p.nextSeq;
             && Breaks(ring, sb.tail, sb.nextSeq, Sub(s, sb.nextSeq), p.head, Record(a.crc, txn, s), j, i)
             && Neither(fs, txn, FirstPuts(ring, Start(ring, sb.tail, sb.nextSeq), j))
    ensures !Atomic(a, dev, p, fs, txn)
  {
    var ring, sb := RingOf(a, dev.stable), dev.stable[a.fsBlocks];
    DoneLoggable(a, txn);
    assert Lags(a, ring, fs, sb, p);
    var ring' := BreakMisleads(a.crc, ring, fs, sb.tail, sb.nextSeq, p.head, p.nextSeq, txn, j, i);
    WrongNow(a, dev, p, fs, txn, sb, ring');
  }

  lemma RegressesIsWrong(a: Area, dev: Dev, p: Pointers, fs: Disk, txn: Txn)
    requires Ready(a, dev, p, fs) && Logs(a, txn) && Plain(txn)
    requires !NeedsReclaim(a, p, |txn|) && ToldAt(a, dev, p, txn)
    requires var ring, sb := RingOf(a, dev.stable), dev.stable[a.fsBlocks];
             Regresses(a.crc, ring, sb.tail, sb.nextSeq, p.head, p.nextSeq, fs, txn)
    ensures !Atomic(a, dev, p, fs, txn)
  {
    var ring, sb, s := RingOf(a, dev.stable), dev.stable[a.fsBlocks], p.nextSeq;
    var j: nat, i: nat :|
      && Breaks(ring, sb.tail, sb.nextSeq, Sub(s, sb.nextSeq), p.head, Record(a.crc, txn, s), j, i)
      && Neither(fs, txn, FirstPuts(ring, Start(ring, sb.tail, sb.nextSeq), j));
    BreakIsWrong(a, dev, p, fs, txn, j, i);
  }

  /**
   * From any journal at rest on a tidy ring, with any superblock on the medium and any leftovers on the
   * ring: every cut in a commit is atomic if and only if nothing else can come alive at the head and,
   * unless the ring is reclaimed first, no chain of unacknowledged records is cut short.
   */
  lemma CommitAtomicIff(a: Area, dev: Dev, p: Pointers, fs: Disk, txn: Txn)
    requires Ready(a, dev, p, fs) && Plain(txn) && Logs(a, txn) && ToldAt(a, dev, p, txn)
    ensures Atomic(a, dev, p, fs, txn) <==> SafeAt(a, dev, p, fs, txn)
  {
    if SafeAt(a, dev, p, fs, txn) {
      forall n: nat, d | CutAt(a, dev, p, txn, n, d) ensures RecoversTo(a, d, fs) || RecoversTo(a, d, Apply(fs, txn)) {
        var applied := CommitAtomic(a, dev, p, fs, txn, n, d);
      }
    } else if Misdirects(a.crc, RingOf(a, dev.stable), p.head, p.nextSeq, fs, txn) {
      MisdirectsIsWrong(a, dev, p, fs, txn);
    } else {
      RegressesIsWrong(a, dev, p, fs, txn);
    }
  }
}
