/** Whole runs with any number of cuts, each keeping any part of the write cache. */
module TornRuns {
  import opened Disks
  import opened Ring
  import opened Journal
  import opened Recovery
  import opened TornRing
  import opened CutRing
  import opened Crash
  import opened Commits
  import opened Atomicity
  import opened Histories
  import opened Events
  import opened Reboots

  /**
   * What a cut before the record's barrier needs on a ring that is ready for the record: the exact
   * condition of `CommitAtomicIff`.
   */
  ghost predicate Judged(a: Area, sys: Sys, txn: Txn)
    requires Fits(a, sys.dev.stable) && sys.p.tail < a.logBlocks
  {
    var ring, sb := RingOf(a, sys.dev.stable), sys.dev.stable[a.fsBlocks];
    && Tidy(ring, sys.p.nextSeq, sys.p.head) && Spacious(a, ring, sb, sys.p) && sb.Super?
    && SafeAt(a, sys.dev, sys.p, FsOf(a, sys.dev.stable), txn) && ToldAt(a, sys.dev, sys.p, txn)
  }

  /**
   * What a cut after `n` operations of the commit of `txn` needs, phase by phase. While nothing is being
   * written to the ring, the exact condition of `SurvivesIff`; while the record is, that of
   * `CommitAtomicIff`; behind the record's barrier, that of `FinishesIff`. Before the format is durable,
   * its counterparts there.
   */
  ghost predicate Guarded(a: Area, sys: Sys, txn: Txn, n: nat, image: Disk)
    requires Fits(a, sys.dev.stable) && sys.p.head < a.logBlocks && sys.p.tail < a.logBlocks && Fits(a, image)
  {
    var ring, reclaim := RingOf(a, sys.dev.stable), |ReclaimOps(a, sys.p, |txn|)|;
    if sys.dev.cache == FormatPuts(a) then FirstSafe(a, sys.dev.stable, txn, n, image)
    else if Logs(a, txn) && n > reclaim + |txn| + 2 then
      Ends(a, RingAfter(a, ring, sys.p, txn), sys.p.head, sys.p.nextSeq, txn)
    else
      && Dead(a.crc, ring, sys.p.head, sys.p.nextSeq)
      && (Logs(a, txn) && n > reclaim ==> Judged(a, sys, txn))
  }

  ghost predicate TornHappens(a: Area, sys: Sys, event: Event, sys': Sys) {
    && Fits(a, sys.dev.stable) && sys.p.head < a.logBlocks && sys.p.tail < a.logBlocks && Plain(event.txn)
    && match event
       case Returned(txn) => sys' == CommitOne(a, sys, txn)
       case Interrupted(txn, n, image, tries, last) =>
         && CutAt(a, sys.dev, sys.p, txn, n, image) && Fits(a, image) && Guarded(a, sys, txn, n, image)
         && Attempts(a, image, tries, last) && Fits(a, last) && Sane(a, last[a.fsBlocks]) && sys' == Booted(a, last)
  }

  ghost predicate TornRun(a: Area, trace: seq<Sys>, events: seq<Event>) {
    && |trace| == |events| + 1
    && forall i :: 0 <= i < |events| ==> TornHappens(a, trace[i], events[i], trace[i + 1])
  }

  /** Kept by every commit that returned, or fresh from a format that is not durable yet. */
  ghost predicate Steady(a: Area, d: Disk, sys: Sys, fs: Disk)
    requires Fits(a, d)
  {
    Held(a, sys.dev, sys.p, fs) || (sys == Formatted(a, d) && fs == FsOf(a, d))
  }

  lemma ReturnedSteady(a: Area, d: Disk, sys: Sys, fs: Disk, txn: Txn)
    requires Fits(a, d) && Steady(a, d, sys, fs) && Plain(txn)
    ensures Steady(a, d, CommitOne(a, sys, txn), Committed(a, fs, txn))
  {
    if Held(a, sys.dev, sys.p, fs) {
      CommitHeld(a, sys.dev, sys.p, fs, txn);
    } else {
      FirstOps(a, txn);
      if Logs(a, txn) {
        DurableRests(a, d);
        FirstCommit(a, d, txn);
        CommitHeld(a, Durable(a, d).dev, START, fs, txn);
      }
    }
  }

  /** A cut while the ring is left alone. */
  lemma IdleCut(a: Area, dev: Dev, p: Pointers, fs: Disk, txn: Txn, n: nat, image: Disk)
    requires Rests(a, dev, p, fs) && CutAt(a, dev, p, txn, n, image)
    requires Logs(a, txn) ==> n <= |ReclaimOps(a, p, |txn|)|
    ensures RecoversTo(a, image, fs)
  {
    if txn == [] || TooBig(a, txn) {
      RestsCut(a, dev, p, fs, image);
    } else {
      if Logs(a, txn) { ExecPrefix(dev, ReclaimOps(a, p, |txn|), RecordOps(a, Reclaimed(a, p, |txn|), txn), n); }
      ReclaimOpsCut(a, dev, p, fs, |txn|, n, image);
    }
  }

  lemma HeldCut(a: Area, sys: Sys, fs: Disk, txn: Txn, n: nat, image: Disk) returns (applied: bool)
    requires Held(a, sys.dev, sys.p, fs) && Plain(txn) && CutAt(a, sys.dev, sys.p, txn, n, image)
    requires Fits(a, image) && Guarded(a, sys, txn, n, image)
    ensures RecoversTo(a, image, Outcome(fs, txn, applied)) && (CommitStatus(a, txn) != Done ==> !applied)
  {
    var reclaim := |ReclaimOps(a, sys.p, |txn|)|;
    if Logs(a, txn) && n > reclaim + |txn| + 2 {
      FinishedCut(a, sys.dev, sys.p, fs, txn, n, image);
      applied := true;
    } else if Logs(a, txn) && n > reclaim {
      applied := CommitAtomic(a, sys.dev, sys.p, fs, txn, n, image);
    } else {
      IdleCut(a, sys.dev, sys.p, fs, txn, n, image);
      applied := false;
    }
  }

  lemma InterruptedCut(a: Area, d: Disk, sys: Sys, fs: Disk, txn: Txn, n: nat, image: Disk) returns (applied: bool)
    requires Fits(a, d) && Steady(a, d, sys, fs) && Fits(a, sys.dev.stable) && Plain(txn)
    requires sys.p.head < a.logBlocks && sys.p.tail < a.logBlocks && CutAt(a, sys.dev, sys.p, txn, n, image)
    requires Fits(a, image) && Guarded(a, sys, txn, n, image)
    ensures RecoversTo(a, image, Outcome(fs, txn, applied)) && (CommitStatus(a, txn) != Done ==> !applied)
  {
    if Held(a, sys.dev, sys.p, fs) {
      applied := HeldCut(a, sys, fs, txn, n, image);
    } else {
      applied := UnsettledCut(a, d, txn, n, image);
    }
  }

  lemma TornEvent(a: Area, d: Disk, sys: Sys, fs: Disk, event: Event, sys': Sys) returns (applied: bool)
    requires Fits(a, d) && Steady(a, d, sys, fs) && TornHappens(a, sys, event, sys')
    ensures Steady(a, d, sys', Effect(a, fs, event, applied))
  {
    match event
    case Returned(txn) =>
      ReturnedSteady(a, d, sys, fs, txn);
      applied := true;
    case Interrupted(txn, n, image, tries, last) =>
      applied := InterruptedCut(a, d, sys, fs, txn, n, image);
      AttemptsRestart(a, image, Outcome(fs, txn, applied), tries, last);
      BootedRests(a, last, Outcome(fs, txn, applied));
      OutcomeEffect(a, fs, event, applied);
  }

  lemma TornRunInit(a: Area, trace: seq<Sys>, events: seq<Event>)
    requires TornRun(a, trace, events) && events != []
    ensures var n := |events| - 1;
            && TornRun(a, trace[..n + 1], events[..n]) && trace[..n + 1][n] == trace[n]
            && TornHappens(a, trace[n], events[n], trace[n + 1])
  {
    var n := |events| - 1;
    var trace', events' := trace[..n + 1], events[..n];
    forall i | 0 <= i < n ensures TornHappens(a, trace'[i], events'[i], trace'[i + 1]) {
      assert TornHappens(a, trace[i], events[i], trace[i + 1]);
    }
  }

  lemma {:induction false} TornRunsSteady(a: Area, d: Disk, trace: seq<Sys>, events: seq<Event>)
    returns (applied: seq<bool>)
    requires Fits(a, d) && TornRun(a, trace, events) && trace[0] == Formatted(a, d)
    ensures |applied| == |events| && Steady(a, d, trace[|events|], Spec(a, FsOf(a, d), events, applied))
    decreases |events|
  {
    applied := [];
    if events != [] {
      var n := |events| - 1;
      TornRunInit(a, trace, events);
      applied := TornRunsSteady(a, d, trace[..n + 1], events[..n]);
      var one := TornEvent(a, d, trace[n], Spec(a, FsOf(a, d), events[..n], applied), events[n], trace[n + 1]);
      SpecSnoc(a, FsOf(a, d), events, applied, one);
      applied := applied + [one];
    }
  }

  lemma SteadyView(a: Area, d: Disk, sys: Sys, fs: Disk)
    requires Fits(a, d) && Steady(a, d, sys, fs)
    ensures a.fsBlocks <= |View(sys.dev)| && FsOf(a, View(sys.dev)) == fs
  {
    if Held(a, sys.dev, sys.p, fs) {
      CachedDisk(a, sys.dev, sys.p, fs);
    } else {
      FormatDisk(a, d);
    }
  }

  /**
   * Whole-run refinement on a reordering cache. From format, without a barrier, on any disk: any commits
   * and any number of cuts inside commits and recoveries and between them, each keeping any part of the
   * cache, the superblock that recovery writes included. If every cut meets the exact condition of its
   * phase, the blocks below the journal are those of committing the same transactions in order, every
   * returned one included and every interrupted one applied wholly or not at all. A commit that returns
   * needs no condition, whatever earlier recoveries have left on the ring.
   */
  lemma TornRunsRefine(a: Area, d: Disk, trace: seq<Sys>, events: seq<Event>) returns (applied: seq<bool>)
    requires Fits(a, d) && TornRun(a, trace, events) && trace[0] == Formatted(a, d)
    ensures |applied| == |events| && a.fsBlocks <= |View(trace[|events|].dev)|
    ensures FsOf(a, View(trace[|events|].dev)) == Spec(a, FsOf(a, d), events, applied)
  {
    applied := TornRunsSteady(a, d, trace, events);
    SteadyView(a, d, trace[|events|], Spec(a, FsOf(a, d), events, applied));
  }

  // ─── when a recovered journal is ready for the next record ─────────────────

  /** A recovery that got as far as the interrupted record leaves a tidy ring, whatever superblock it started from. */
  lemma ReachedTidy(a: Area, ring: Disk, p: Pointers, fs: Disk, txn: Txn, d: Disk, after: Disk)
    requires Fits(a, d) && RecoversTo(a, d, after) && Arrives(a.crc, ring, RingOf(a, d), p.head, p.nextSeq, fs, txn)
    requires Booted(a, d).p == Pointers(p.head, p.head, p.nextSeq) || Booted(a, d).p.nextSeq > p.nextSeq
    ensures Fits(a, Booted(a, d).dev.stable)
    ensures Tidy(RingOf(a, Booted(a, d).dev.stable), Booted(a, d).p.nextSeq, Booted(a, d).p.head)
  {
    BootedDev(a, d, after);
    DeadAfter(a, d, after);
    TidyPartly(a.crc, ring, RingOf(a, d), p.nextSeq, p.head, txn);
  }

  /**
   * A cut that kept the current superblock but no complete record, over a head that holds no older
   * descriptor: recovery replays nothing, and the journal starts again where it was.
   */
  lemma QuietBoot(a: Area, ring: Disk, p: Pointers, fs: Disk, txn: Txn, d: Disk)
    requires Fits(a, d) && Holds(a, d, SuperPut(a, p).block, RingOf(a, d), fs) && |ring| == a.logBlocks
    requires p.tail < |ring|
    requires Arrives(a.crc, ring, RingOf(a, d), p.head, p.nextSeq, fs, txn)
    requires Leads(ring, p.tail, Used(a, p), p.head, p.nextSeq) && !NeedsReclaim(a, p, |txn|)
    requires !LiveAt(a.crc, RingOf(a, d), p.head, p.nextSeq) && Hop(RingOf(a, d), p.head, p.nextSeq) == 0
    ensures RecoversTo(a, d, fs) && Booted(a, d).p == Pointers(p.head, p.head, p.nextSeq)
    ensures Ready(a, Booted(a, d).dev, Booted(a, d).p, fs)
  {
    var ring' := RingOf(a, d);
    PathUncut(ring, ring', p.tail, Used(a, p), p.head, Record(a.crc, txn, p.nextSeq), p.nextSeq);
    TidyPartly(a.crc, ring, ring', p.nextSeq, p.head, txn);
    QuietScan(a.crc, ring', a.fsBlocks, p.tail, Used(a, p), p.head, p.nextSeq, |ring| - Used(a, p));
    Recovers(a, d, SuperPut(a, p).block, ring', fs, fs);
    BootedDev(a, d, fs);
    BootedRests(a, d, fs);
  }

  lemma {:induction false} QuietScan(crc: Checksum, ring: Disk, fs: nat, tail: nat, len: nat, head: nat, s: nat,
                                     left: nat)
    requires Leads(ring, tail, len, head, s) && len + left == |ring| && !LiveAt(crc, ring, head, s)
    requires Hop(ring, head, s) == 0
    ensures Scan(crc, ring, fs, tail, s) == Scanned([], 0, head, true) && Dead(crc, ring, head, s)
    ensures Skip(ring, tail, s, |ring|) == Cursor(head, left)
  {
    PathSkip(ring, tail, len, head, s, |ring|, left);
    SkipNone(ring, head, s, left);
    ReplayDead(crc, ring, fs, head, s, left);
  }
}
