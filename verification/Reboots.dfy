/** A journal between calls: what it takes that a power cut there changes nothing, whatever is on the ring. */
module Reboots {
  import opened Disks
  import opened Ring
  import opened Journal
  import opened Recovery
  import opened TornRing
  import opened CutRing
  import opened Crash
  import opened Commits
  import opened Atomicity
  import opened Histories
  import opened Events
  import opened Limits

  /** Whatever a cut now leaves, recovery finds `fs` and goes on with the same number. */
  ghost predicate Survives(a: Area, dev: Dev, p: Pointers, fs: Disk) {
    forall d :: Torn(dev, d) ==> RecoversAt(a, d, fs, p.nextSeq)
  }

  /** A scan over the live records that replays nothing says that nothing is to be replayed behind them. */
  lemma IdleScan(crc: Checksum, ring: Disk, fs: nat, tail: nat, len: nat, head: nat, s: nat)
    requires Leads(ring, tail, len, head, s)
    requires var r := Scan(crc, ring, fs, tail, s); r.ok && r.replayed == 0 && Dead(crc, ring, r.pos, s)
    ensures Dead(crc, ring, head, s)
  {
    PathSkip(ring, tail, len, head, s, |ring|, |ring| - len);
    DeadSkip(crc, ring, head, s, |ring| - len);
  }

  lemma CurrentIdle(a: Area, d: Disk, p: Pointers, ring: Disk, fs: Disk)
    requires p.head < a.logBlocks && p.tail < a.logBlocks && Holds(a, d, SuperPut(a, p).block, ring, fs)
    requires Leads(ring, p.tail, Used(a, p), p.head, p.nextSeq) && RecoversAt(a, d, fs, p.nextSeq)
    ensures Dead(a.crc, ring, p.head, p.nextSeq)
  {
    IdleScan(a.crc, ring, a.fsBlocks, p.tail, Used(a, p), p.head, p.nextSeq);
  }

  lemma SurvivesDead(a: Area, dev: Dev, p: Pointers, fs: Disk, ring: Disk, head: nat, s: nat)
    requires Kept(a, dev, p, fs) && Survives(a, dev, p, fs)
    requires ring == RingOf(a, dev.stable) && head == p.head && s == p.nextSeq
    ensures Dead(a.crc, ring, head, s)
  {
    TornAll(dev);
    CachedDisk(a, dev, p, fs);
    CurrentIdle(a, View(dev), p, ring, fs);
  }

  /**
   * The promise of `recover` that old images are never applied over newer data, for every journal that
   * commits and recoveries can leave: a cut between calls changes nothing if and only if stepping on
   * over old records from the head never meets a complete one with the next number.
   */
  lemma SurvivesIff(a: Area, dev: Dev, p: Pointers, fs: Disk)
    requires Held(a, dev, p, fs)
    ensures Survives(a, dev, p, fs) <==> Dead(a.crc, RingOf(a, dev.stable), p.head, p.nextSeq)
  {
    if Survives(a, dev, p, fs) {
      SurvivesDead(a, dev, p, fs, RingOf(a, dev.stable), p.head, p.nextSeq);
    } else if Rests(a, dev, p, fs) {
      forall d | Torn(dev, d) ensures RecoversAt(a, d, fs, p.nextSeq) {
        RestsCut(a, dev, p, fs, d);
      }
    }
  }

  // ─── right after a format ──────────────────────────────────────────────────

  /** Whatever a cut leaves of the two writes of `format`, if its superblock survives: the filesystem, and number 1. */
  ghost predicate FormatSurvives(a: Area, d: Disk)
    requires Fits(a, d)
  {
    forall image :: Torn(Formatted(a, d).dev, image) && image[a.fsBlocks] == SuperPut(a, START).block ==>
      RecoversAt(a, image, FsOf(a, d), 1)
  }

  /** `format` issues no barrier between its writes: exactly when the old ring does not start with an old record 1. */
  lemma FormatIff(a: Area, d: Disk)
    requires Fits(a, d)
    ensures FormatSurvives(a, d) <==> Dead(a.crc, RingOf(a, d), 0, 1)
  {
    if FormatSurvives(a, d) {
      FormatDead(a, d);
    } else if Dead(a.crc, RingOf(a, d), 0, 1) {
      forall image | Torn(Formatted(a, d).dev, image) && image[a.fsBlocks] == SuperPut(a, START).block
        ensures RecoversAt(a, image, FsOf(a, d), 1)
      {
        UnsettledIdle(a, d, image);
      }
    }
  }

  lemma FormatDead(a: Area, d: Disk)
    requires Fits(a, d) && FormatSurvives(a, d)
    ensures Dead(a.crc, RingOf(a, d), 0, 1)
  {
    var sb := SuperPut(a, START).block;
    var image := d[a.fsBlocks := sb];
    UnderSuper(a, d, sb);
    assert FormatPuts(a)[0] == Put(a.fsBlocks, sb);
    CurrentIdle(a, image, START, RingOf(a, d), FsOf(a, d));
  }

  /** Format, one commit, format again, cut between the two writes: the old record is replayed. */
  lemma FormatCutReplays(a: Area, blank: Disk, txn: Txn)
    requires Blank(a, blank) && Logs(a, txn) && Plain(txn)
    ensures var d := UsedDisk(a, blank, [txn]); Fits(a, d) && !FormatSurvives(a, d)
  {
    var ring, d := RingOf(a, blank)[0 := Raw(Pad([]))], UsedDisk(a, blank, [txn]);
    DoneLoggable(a, txn);
    FormatGrown(a, blank);
    CommitsGrown(a, RingOf(a, blank), Formatted(a, blank), ring, FsOf(a, blank), [txn]);
    LastRing(a, ring, START, txn);
    StampRecordIn(a.crc, ring, 0, 1, txn);
    RecordLive(a.crc, RingOf(a, d), 0, 1, txn);
    if FormatSurvives(a, d) {
      FormatDead(a, d);
      DeadHere(a.crc, RingOf(a, d), 0, 1);
    }
  }

  // ─── after the record's barrier ────────────────────────────────────────────

  /** Whatever a cut behind the record's barrier leaves, recovery finds exactly this transaction applied. */
  ghost predicate Finishes(a: Area, dev: Dev, p: Pointers, fs: Disk, txn: Txn)
    requires p.tail < a.logBlocks
  {
    forall n: nat, d :: CutAt(a, dev, p, txn, n, d) && n > |ReclaimOps(a, p, |txn|)| + |txn| + 2 ==>
      RecoversAt(a, d, Apply(fs, txn), p.nextSeq + 1)
  }

  lemma {:induction false} FinishedCut(a: Area, dev: Dev, p: Pointers, fs: Disk, txn: Txn, n: nat, d: Disk)
    requires Held(a, dev, p, fs) && Plain(txn) && Logs(a, txn)
    requires Ends(a, RingAfter(a, RingOf(a, dev.stable), p, txn), p.head, p.nextSeq, txn)
    requires CutAt(a, dev, p, txn, n, d) && n > |ReclaimOps(a, p, |txn|)| + |txn| + 2
    ensures RecoversAt(a, d, Apply(fs, txn), p.nextSeq + 1)
  {
    var reclaim, p' := ReclaimOps(a, p, |txn|), Reclaimed(a, p, |txn|);
    DoneLoggable(a, txn);
    LoggedPointers(a, p, txn);
    ReclaimedHeld(a, dev, p, fs, |txn|);
    ExecPrefix(dev, reclaim, RecordOps(a, p', txn), n);
    FinishedLog(a, Exec(dev, reclaim), p', fs, txn, n - |reclaim|, d, RingAfter(a, RingOf(a, dev.stable), p, txn),
                p.head, p.nextSeq);
  }

  lemma {:induction false} FinishedLog(a: Area, dev: Dev, p: Pointers, fs: Disk, txn: Txn, n: nat, d: Disk, ring': Disk,
                                       at: nat, s: nat)
    requires Kept(a, dev, p, fs) && Loggable(txn, a.logBlocks, a.fsBlocks) && !NeedsReclaim(a, p, |txn|)
    requires at == p.head && s == p.nextSeq && ring' == Stamp(RingOf(a, dev.stable), at, Record(a.crc, txn, s))
    requires Ends(a, ring', at, s, txn)
    requires |txn| + 2 < n <= |RecordOps(a, p, txn)| && Torn(Exec(dev, RecordOps(a, p, txn)[..n]), d)
    ensures RecoversAt(a, d, Apply(fs, txn), s + 1)
  {
    RecordOpsShape(a, p, txn);
    StampWritten(a, RingOf(a, dev.stable), p, txn);
    LoggedCut(a, dev, p, fs, txn, n, d, RecordPuts(a, p.head, p.nextSeq, txn), SuperPut(a, Advanced(a, p, |txn|)));
  }

  lemma EndsFinishes(a: Area, dev: Dev, p: Pointers, fs: Disk, txn: Txn)
    requires Held(a, dev, p, fs) && Plain(txn) && Logs(a, txn)
    requires Ends(a, RingAfter(a, RingOf(a, dev.stable), p, txn), p.head, p.nextSeq, txn)
    ensures Finishes(a, dev, p, fs, txn)
  {
    forall n: nat, d | CutAt(a, dev, p, txn, n, d) && n > |ReclaimOps(a, p, |txn|)| + |txn| + 2
      ensures RecoversAt(a, d, Apply(fs, txn), p.nextSeq + 1)
    {
      FinishedCut(a, dev, p, fs, txn, n, d);
    }
  }

  lemma FinishedReturns(a: Area, dev: Dev, p: Pointers, fs: Disk, txn: Txn)
    requires Held(a, dev, p, fs) && Plain(txn) && Logs(a, txn) && Finishes(a, dev, p, fs, txn)
    ensures Ends(a, RingAfter(a, RingOf(a, dev.stable), p, txn), p.head, p.nextSeq, txn)
  {
    CommitHeld(a, dev, p, fs, txn);
    FinishedSurvives(a, dev, p, fs, txn);
    ReturnedDead(a, Exec(dev, CommitOps(a, p, txn)), p, Apply(fs, txn), txn,
                 RingAfter(a, RingOf(a, dev.stable), p, txn));
  }

  lemma ReturnedDead(a: Area, dev: Dev, p: Pointers, fs: Disk, txn: Txn, ring: Disk)
    requires p.tail < a.logBlocks && Logs(a, txn) && Kept(a, dev, CommitPointers(a, p, txn), fs)
    requires Survives(a, dev, CommitPointers(a, p, txn), fs) && ring == RingOf(a, dev.stable)
    ensures Ends(a, ring, p.head, p.nextSeq, txn)
  {
    LoggedPointers(a, p, txn);
    SurvivesDead(a, dev, CommitPointers(a, p, txn), fs, ring, Slot(p.head + |txn| + 2, a.logBlocks), p.nextSeq + 1);
  }

  lemma {:induction false} FinishedSurvives(a: Area, dev: Dev, p: Pointers, fs: Disk, txn: Txn)
    requires p.tail < a.logBlocks && Logs(a, txn) && Finishes(a, dev, p, fs, txn)
    ensures Survives(a, Exec(dev, CommitOps(a, p, txn)), CommitPointers(a, p, txn), Apply(fs, txn))
  {
    var ops := CommitOps(a, p, txn);
    RecordOpsShape(a, Reclaimed(a, p, |txn|), txn);
    assert ops[..|ops|] == ops;
    forall d | Torn(Exec(dev, ops), d) ensures RecoversAt(a, d, Apply(fs, txn), p.nextSeq + 1) {
      assert CutAt(a, dev, p, txn, |ops|, d);
    }
  }

  /** ... if and only if nothing is to be replayed behind the record. */
  lemma FinishesIff(a: Area, dev: Dev, p: Pointers, fs: Disk, txn: Txn)
    requires Held(a, dev, p, fs) && Plain(txn) && Logs(a, txn)
    ensures Finishes(a, dev, p, fs, txn)
       <==> Ends(a, RingAfter(a, RingOf(a, dev.stable), p, txn), p.head, p.nextSeq, txn)
  {
    if Finishes(a, dev, p, fs, txn) {
      FinishedReturns(a, dev, p, fs, txn);
    } else if Ends(a, RingAfter(a, RingOf(a, dev.stable), p, txn), p.head, p.nextSeq, txn) {
      EndsFinishes(a, dev, p, fs, txn);
    }
  }

  // ─── after any commits ─────────────────────────────────────────────────────

  lemma {:induction false} CommitsHeld(a: Area, sys: Sys, fs: Disk, txns: seq<Txn>)
    requires Held(a, sys.dev, sys.p, fs) && forall i :: 0 <= i < |txns| ==> Plain(txns[i])
    ensures var sys' := CommitAll(a, sys, txns);
            && Held(a, sys'.dev, sys'.p, FsAfter(a, fs, txns)) && sys'.p == PointersAfterAll(a, sys.p, txns)
            && RingOf(a, sys'.dev.stable) == RingAfterAll(a, RingOf(a, sys.dev.stable), sys.p, txns)
    decreases |txns|
  {
    if txns != [] {
      CommitHeld(a, sys.dev, sys.p, fs, txns[0]);
      CommitsHeld(a, CommitOne(a, sys, txns[0]), Committed(a, fs, txns[0]), txns[1..]);
    }
  }

  lemma HeldIff(a: Area, dev: Dev, p: Pointers, fs: Disk)
    requires Held(a, dev, p, fs)
    ensures Fits(a, View(dev)) && View(dev)[a.fsBlocks].Super?
    ensures ReplaysNothing(a, View(dev)) <==> !Leftover(a, RingOf(a, dev.stable), p)
  {
    var ring := RingOf(a, dev.stable);
    CachedDisk(a, dev, p, fs);
    GrownIff(a, ring, View(dev), p, ring, fs);
  }

  /**
   * From any recovery that completed, whatever it left on the ring, and after any commits that returned:
   * the next recovery, with everything durable, replays nothing if and only if no complete record with
   * the next number lies where its scan goes on behind the live ones; and no cut and no recovery however
   * often repeated ever changes anything if and only if none lies anywhere further on.
   */
  lemma {:induction false} BootedIff(a: Area, d: Disk, fs: Disk, txns: seq<Txn>)
    requires RecoversTo(a, d, fs) && forall i :: 0 <= i < |txns| ==> Plain(txns[i])
    ensures var sys, p := CommitAll(a, Booted(a, d), txns), PointersAfterAll(a, PointersAfter(a, d), txns);
            var ring := RingAfterAll(a, RingOf(a, d), PointersAfter(a, d), txns);
            && sys.p == p && p.head < |ring| == a.logBlocks && p.tail < a.logBlocks && Fits(a, View(sys.dev))
            && FsOf(a, View(sys.dev)) == FsAfter(a, fs, txns) && View(sys.dev)[a.fsBlocks].Super?
            && (ReplaysNothing(a, View(sys.dev)) <==> !Leftover(a, ring, p))
            && (Survives(a, sys.dev, p, FsAfter(a, fs, txns)) <==> Dead(a.crc, ring, p.head, p.nextSeq))
  {
    var sys := Booted(a, d);
    BootedRests(a, d, fs);
    BootedDev(a, d, fs);
    CommitsHeld(a, sys, fs, txns);
    var sys' := CommitAll(a, sys, txns);
    CachedDisk(a, sys'.dev, sys'.p, FsAfter(a, fs, txns));
    HeldIff(a, sys'.dev, sys'.p, FsAfter(a, fs, txns));
    SurvivesIff(a, sys'.dev, sys'.p, FsAfter(a, fs, txns));
  }

  /** The two conditions are the same unless the scan's lap ends before anything stops it. */
  lemma {:induction false} LeftoverIff(a: Area, ring: Disk, p: Pointers)
    requires p.head < |ring| == a.logBlocks && p.tail < a.logBlocks
    requires Skip(ring, p.head, p.nextSeq, |ring| - Used(a, p)).budget > 0
    ensures Leftover(a, ring, p) <==> !Dead(a.crc, ring, p.head, p.nextSeq)
  {
    var c := Skip(ring, p.head, p.nextSeq, |ring| - Used(a, p));
    DeadSkip(a.crc, ring, p.head, p.nextSeq, |ring| - Used(a, p));
    SkipEnds(ring, p.head, p.nextSeq, |ring| - Used(a, p));
    if Dead(a.crc, ring, c.pos, p.nextSeq) { DeadHere(a.crc, ring, c.pos, p.nextSeq); }
    if !LiveAt(a.crc, ring, c.pos, p.nextSeq) { StopsDead(a.crc, ring, c.pos, p.nextSeq); }
  }

  lemma StopsDead(crc: Checksum, ring: Disk, pos: nat, s: nat)
    requires pos < |ring| && Hop(ring, pos, s) == 0 && !LiveAt(crc, ring, pos, s)
    ensures Dead(crc, ring, pos, s)
  {
  }
}
