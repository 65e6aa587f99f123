/** Runs on an ordered device from a format over any disk, whatever an earlier journal left on the ring. */
module ReusedRuns {
  import opened Disks
  import opened Ring
  import opened Journal
  import opened Recovery
  import opened TornRing
  import opened CutRing
  import opened Crash
  import opened Commits
  import opened Atomicity
  import opened Histories
  import opened Events
  import opened OrderedRuns
  import opened Reboots
  import opened TornRuns

  // ─── a record without its commit block ─────────────────────────────────────

  /** The ring with the first `j` blocks of the record of `txn`. */
  ghost function Begun(a: Area, ring: Disk, at: nat, s: nat, txn: Txn, j: nat): (r: Disk)
    requires at < |ring| && j <= |txn| + 2
    ensures |r| == |ring|
  {
    Stamp(ring, at, Record(a.crc, txn, s)[..j])
  }

  /** The disk with them. */
  ghost function BegunImage(a: Area, d: Disk, p: Pointers, txn: Txn, j: nat): Disk
    requires 0 < a.logBlocks && j <= |txn| + 2
  {
    Apply(d, LogPuts(a, p.head, Record(a.crc, txn, p.nextSeq)[..j]))
  }

  /** A leftover commit block completes the record before its own is written. */
  ghost predicate Premature(a: Area, ring: Disk, at: nat, s: nat, txn: Txn)
    requires at < |ring|
  {
    exists j :: 0 < j < |txn| + 2 && LiveAt(a.crc, Begun(a, ring, at, s, txn, j), at, s)
  }

  /** Everything in the cache durable, and then the first `j` blocks of the record. */
  lemma BegunDisk(a: Area, d: Disk, p: Pointers, ring: Disk, fs: Disk, txn: Txn, j: nat)
    requires p.head < a.logBlocks && p.tail < a.logBlocks && Holds(a, d, SuperPut(a, p).block, ring, fs)
    requires Leads(ring, p.tail, Used(a, p), p.head, p.nextSeq) && 0 < j <= |txn| + 2 && !NeedsReclaim(a, p, |txn|)
    ensures var ring' := Begun(a, ring, p.head, p.nextSeq, txn, j);
            && Holds(a, BegunImage(a, d, p, txn, j), SuperPut(a, p).block, ring', fs)
            && Leads(ring', p.tail, Used(a, p), p.head, p.nextSeq)
            && ring'[p.head] == Desc(p.nextSeq, Targets(txn))
  {
    var rec := Record(a.crc, txn, p.nextSeq)[..j];
    LogPutsRing(a, d, p.head, rec);
    StampPartly(ring, p.head, rec);
    PathUncut(ring, Stamp(ring, p.head, rec), p.tail, Used(a, p), p.head, rec, p.nextSeq);
    assert Dist(p.head, p.head, |ring|) == 0;
  }

  lemma BegunRecovers(a: Area, d: Disk, p: Pointers, ring: Disk, fs: Disk)
    requires p.head < a.logBlocks && p.tail < a.logBlocks && Holds(a, d, SuperPut(a, p).block, ring, fs)
    requires Leads(ring, p.tail, Used(a, p), p.head, p.nextSeq)
    requires ring[p.head].Desc? && ring[p.head].seqNo == p.nextSeq && !LiveAt(a.crc, ring, p.head, p.nextSeq)
    ensures RecoversAt(a, d, fs, p.nextSeq)
  {
    StopsDead(a.crc, ring, p.head, p.nextSeq);
    PathSettles(a.crc, ring, fs, p.tail, Used(a, p), p.head, p.nextSeq);
    Recovers(a, d, SuperPut(a, p).block, ring, fs, fs);
  }

  /** Whatever proper prefix of the record a cut leaves, recovery finds nothing of it. */
  ghost predicate Unapplied(a: Area, d: Disk, p: Pointers, fs: Disk, txn: Txn)
    requires 0 < a.logBlocks
  {
    forall j :: 0 < j < |txn| + 2 ==>
      RecoversAt(a, BegunImage(a, d, p, txn, j), fs, p.nextSeq)
  }

  /** ... if and only if no leftover commit block completes one. */
  lemma UnappliedIff(a: Area, d: Disk, p: Pointers, ring: Disk, fs: Disk, txn: Txn)
    requires p.head < a.logBlocks && p.tail < a.logBlocks && Holds(a, d, SuperPut(a, p).block, ring, fs)
    requires Leads(ring, p.tail, Used(a, p), p.head, p.nextSeq) && !NeedsReclaim(a, p, |txn|)
    ensures Unapplied(a, d, p, fs, txn) <==> !Premature(a, ring, p.head, p.nextSeq, txn)
  {
    if Premature(a, ring, p.head, p.nextSeq, txn) {
      var j :| 0 < j < |txn| + 2 && LiveAt(a.crc, Begun(a, ring, p.head, p.nextSeq, txn, j), p.head, p.nextSeq);
      PrematureApplied(a, d, p, ring, fs, txn, j);
    } else {
      forall j | 0 < j < |txn| + 2
        ensures RecoversAt(a, BegunImage(a, d, p, txn, j), fs, p.nextSeq)
      {
        PartUnapplied(a, d, p, ring, fs, txn, j);
      }
    }
  }

  lemma PartUnapplied(a: Area, d: Disk, p: Pointers, ring: Disk, fs: Disk, txn: Txn, j: nat)
    requires p.head < a.logBlocks && p.tail < a.logBlocks && Holds(a, d, SuperPut(a, p).block, ring, fs)
    requires Leads(ring, p.tail, Used(a, p), p.head, p.nextSeq) && 0 < j < |txn| + 2 && !NeedsReclaim(a, p, |txn|)
    requires !Premature(a, ring, p.head, p.nextSeq, txn)
    ensures RecoversAt(a, BegunImage(a, d, p, txn, j), fs, p.nextSeq)
  {
    BegunDisk(a, d, p, ring, fs, txn, j);
    BegunRecovers(a, BegunImage(a, d, p, txn, j), p, Begun(a, ring, p.head, p.nextSeq, txn, j), fs);
  }

  lemma PrematureApplied(a: Area, d: Disk, p: Pointers, ring: Disk, fs: Disk, txn: Txn, j: nat)
    requires p.head < a.logBlocks && p.tail < a.logBlocks && Holds(a, d, SuperPut(a, p).block, ring, fs)
    requires Leads(ring, p.tail, Used(a, p), p.head, p.nextSeq) && 0 < j < |txn| + 2 && !NeedsReclaim(a, p, |txn|)
    requires LiveAt(a.crc, Begun(a, ring, p.head, p.nextSeq, txn, j), p.head, p.nextSeq)
    ensures !RecoversAt(a, BegunImage(a, d, p, txn, j), fs, p.nextSeq)
  {
    var d', ring' := BegunImage(a, d, p, txn, j), Begun(a, ring, p.head, p.nextSeq, txn, j);
    BegunDisk(a, d, p, ring, fs, txn, j);
    if RecoversAt(a, d', fs, p.nextSeq) {
      CurrentIdle(a, d', p, ring', fs);
      DeadHere(a.crc, ring', p.head, p.nextSeq);
    }
  }

  // ─── an ordered cut in a commit ────────────────────────────────────────────

  /** All the record's blocks have been issued. */
  ghost predicate Issued(a: Area, p: Pointers, txn: Txn, n: nat)
    requires p.tail < a.logBlocks
  {
    Logs(a, txn) && n >= |ReclaimOps(a, p, |txn|)| + |txn| + 2
  }

  /** Some of them may still be on their way. */
  ghost predicate Underway(a: Area, p: Pointers, txn: Txn, n: nat)
    requires p.tail < a.logBlocks
  {
    Logs(a, txn) && |ReclaimOps(a, p, |txn|)| < n <= |ReclaimOps(a, p, |txn|)| + |txn| + 2
  }

  /** The ring that a commit starts from: `format` has cleared the first slot. */
  ghost function StartRing(a: Area, sys: Sys): (r: Disk)
    requires Fits(a, sys.dev.stable)
    ensures |r| == a.logBlocks
  {
    var ring := RingOf(a, sys.dev.stable);
    if sys.dev.cache == FormatPuts(a) then ring[0 := Raw(Pad([]))] else ring
  }

  /**
   * What an ordered cut after `n` operations of the commit of `txn` needs. Unless the record's barrier is
   * past, that nothing is to be replayed at the head (`SurvivesIff`, `FormatIff`); while the record is
   * being written, that no leftover completes it (`UnappliedIff`); once it is, that nothing is to be
   * replayed behind it (`FinishesIff`).
   */
  ghost predicate OrderGuarded(a: Area, sys: Sys, txn: Txn, n: nat)
    requires Fits(a, sys.dev.stable) && sys.p.head < a.logBlocks && sys.p.tail < a.logBlocks
  {
    var ring, at, s := StartRing(a, sys), sys.p.head, sys.p.nextSeq;
    && (Issued(a, sys.p, txn, n) ==> Ends(a, RingAfter(a, ring, sys.p, txn), at, s, txn))
    && (Underway(a, sys.p, txn, n) ==> !Premature(a, ring, at, s, txn))
    && (!Issued(a, sys.p, txn, n) || Underway(a, sys.p, txn, n) ==> Dead(a.crc, RingOf(a, sys.dev.stable), at, s))
  }

  /** Until the format is durable, the image is of this journal only if the superblock of `format` made it. */
  ghost predicate Opens(a: Area, sys: Sys, txn: Txn, n: nat, image: Disk)
    requires Fits(a, image)
  {
    sys.dev.cache == FormatPuts(a) && !(Logs(a, txn) && n > |txn| + 2) ==>
      image[a.fsBlocks] == SuperPut(a, START).block
  }

  lemma UnderwayCut(a: Area, dev: Dev, p: Pointers, fs: Disk, txn: Txn, m: nat, image: Disk) returns (applied: bool)
    requires Rests(a, dev, p, fs) && Loggable(txn, a.logBlocks, a.fsBlocks) && !NeedsReclaim(a, p, |txn|)
    requires m <= |txn| + 2
    requires Disks.Ordered(Dev(dev.stable, dev.cache + RecordPuts(a, p.head, p.nextSeq, txn)[..m]), image)
    requires var ring := RingOf(a, dev.stable);
             && !Premature(a, ring, p.head, p.nextSeq, txn)
             && (m == |txn| + 2 ==>
                   Ends(a, Stamp(ring, p.head, Record(a.crc, txn, p.nextSeq)), p.head, p.nextSeq, txn))
    ensures RecoversTo(a, image, Outcome(fs, txn, applied))
  {
    var j := OrderedConcat(dev.stable, dev.cache, RecordPuts(a, p.head, p.nextSeq, txn)[..m], image);
    applied := false;
    if j == 0 {
      OrderedIsTorn(dev, image);
      RestsCut(a, dev, p, fs, image);
    } else {
      CachedDisk(a, dev, p, fs);
      RecordPrefix(a, p, txn, m, j);
      applied := j == |txn| + 2;
      BegunCut(a, View(dev), p, RingOf(a, dev.stable), fs, txn, j);
    }
  }

  lemma BegunCut(a: Area, d: Disk, p: Pointers, ring: Disk, fs: Disk, txn: Txn, j: nat)
    requires p.head < a.logBlocks && p.tail < a.logBlocks && Holds(a, d, SuperPut(a, p).block, ring, fs)
    requires Leads(ring, p.tail, Used(a, p), p.head, p.nextSeq) && 0 < j <= |txn| + 2 && !NeedsReclaim(a, p, |txn|)
    requires Loggable(txn, a.logBlocks, a.fsBlocks) && !Premature(a, ring, p.head, p.nextSeq, txn)
    requires j == |txn| + 2 ==>
      Ends(a, Stamp(ring, p.head, Record(a.crc, txn, p.nextSeq)), p.head, p.nextSeq, txn)
    ensures RecoversTo(a, BegunImage(a, d, p, txn, j), Outcome(fs, txn, j == |txn| + 2))
  {
    if j < |txn| + 2 {
      PartUnapplied(a, d, p, ring, fs, txn, j);
    } else {
      var image := BegunImage(a, d, p, txn, j);
      assert Record(a.crc, txn, p.nextSeq)[..j] == Record(a.crc, txn, p.nextSeq);
      BegunDisk(a, d, p, ring, fs, txn, j);
      StampWritten(a, ring, p, txn);
      assert forall x :: 0 <= x < a.fsBlocks ==> image[x] == FsOf(a, image)[x];
      LoggedRecovers(a, image, p, fs, txn);
    }
  }

  lemma HeldOrdered(a: Area, sys: Sys, fs: Disk, txn: Txn, n: nat, image: Disk) returns (applied: bool)
    requires Held(a, sys.dev, sys.p, fs) && Plain(txn) && n <= |CommitOps(a, sys.p, txn)|
    requires Disks.Ordered(Exec(sys.dev, CommitOps(a, sys.p, txn)[..n]), image) && OrderGuarded(a, sys, txn, n)
    ensures RecoversTo(a, image, Outcome(fs, txn, applied)) && (CommitStatus(a, txn) != Done ==> !applied)
  {
    OrderedIsTorn(Exec(sys.dev, CommitOps(a, sys.p, txn)[..n]), image);
    if Underway(a, sys.p, txn, n) {
      applied := UnderwayCommit(a, sys, fs, txn, n, image);
    } else if Issued(a, sys.p, txn, n) {
      FinishedCut(a, sys.dev, sys.p, fs, txn, n, image);
      applied := true;
    } else {
      IdleCut(a, sys.dev, sys.p, fs, txn, n, image);
      applied := false;
    }
  }

  lemma UnderwayCommit(a: Area, sys: Sys, fs: Disk, txn: Txn, n: nat, image: Disk) returns (applied: bool)
    requires Held(a, sys.dev, sys.p, fs) && Plain(txn) && n <= |CommitOps(a, sys.p, txn)|
    requires Disks.Ordered(Exec(sys.dev, CommitOps(a, sys.p, txn)[..n]), image) && OrderGuarded(a, sys, txn, n)
    requires Underway(a, sys.p, txn, n)
    ensures RecoversTo(a, image, Outcome(fs, txn, applied))
  {
    var reclaim, p := ReclaimOps(a, sys.p, |txn|), Reclaimed(a, sys.p, |txn|);
    var dev, rec := Exec(sys.dev, reclaim), RecordPuts(a, sys.p.head, sys.p.nextSeq, txn);
    DoneLoggable(a, txn);
    LoggedPointers(a, sys.p, txn);
    ReclaimedHeld(a, sys.dev, sys.p, fs, |txn|);
    ExecPrefix(sys.dev, reclaim, RecordOps(a, p, txn), n);
    RecordOpsShape(a, p, txn);
    LogPhases(dev, rec, txn, Write(SuperPut(a, Advanced(a, p, |txn|))), n - |reclaim|);
    applied := UnderwayCut(a, dev, p, fs, txn, n - |reclaim|, image);
  }

  lemma DurableGuarded(a: Area, d: Disk, txn: Txn, n: nat)
    requires Fits(a, d) && OrderGuarded(a, Formatted(a, d), txn, n)
    ensures Held(a, Durable(a, d).dev, START, FsOf(a, d)) && OrderGuarded(a, Durable(a, d), txn, n)
  {
    DurableRests(a, d);
    assert StartRing(a, Durable(a, d)) == StartRing(a, Formatted(a, d));
  }

  lemma {:induction false} FreshFinished(a: Area, d: Disk, txn: Txn, n: nat, image: Disk)
    requires Fits(a, d) && Plain(txn) && n <= |CommitOps(a, START, txn)| && OrderGuarded(a, Formatted(a, d), txn, n)
    requires Disks.Ordered(Exec(Formatted(a, d).dev, CommitOps(a, START, txn)[..n]), image) && Fits(a, image)
    requires Logs(a, txn) && n > |txn| + 2
    ensures RecoversTo(a, image, Apply(FsOf(a, d), txn))
  {
    var rec, sup := RecordPuts(a, 0, 1, txn), SuperPut(a, Advanced(a, START, |txn|));
    OrderedIsTorn(Exec(Formatted(a, d).dev, CommitOps(a, START, txn)[..n]), image);
    FirstOps(a, txn);
    DoneLoggable(a, txn);
    RecordOpsShape(a, START, txn);
    UnsettledLogged(a, d, txn, n, image, rec, sup);
  }

  /** The format not durable yet: its superblock made it, perhaps alone. */
  lemma FreshOrdered(a: Area, d: Disk, txn: Txn, n: nat, image: Disk) returns (applied: bool)
    requires Fits(a, d) && Plain(txn) && n <= |CommitOps(a, START, txn)| && OrderGuarded(a, Formatted(a, d), txn, n)
    requires Disks.Ordered(Exec(Formatted(a, d).dev, CommitOps(a, START, txn)[..n]), image) && Fits(a, image)
    requires Opens(a, Formatted(a, d), txn, n, image)
    ensures RecoversTo(a, image, Outcome(FsOf(a, d), txn, applied)) && (CommitStatus(a, txn) != Done ==> !applied)
  {
    if Logs(a, txn) && n > |txn| + 2 {
      FreshFinished(a, d, txn, n, image);
      applied := true;
    } else {
      UnsettledOps(a, d, txn, n, image);
      if image == d[a.fsBlocks := SuperPut(a, START).block] {
        FreshSuper(a, d, txn, n, image);
        applied := false;
      } else {
        DurableGuarded(a, d, txn, n);
        applied := HeldOrdered(a, Durable(a, d), FsOf(a, d), txn, n, image);
      }
    }
  }

  lemma FreshSuper(a: Area, d: Disk, txn: Txn, n: nat, image: Disk)
    requires Fits(a, d) && OrderGuarded(a, Formatted(a, d), txn, n) && !(Logs(a, txn) && n > |txn| + 2)
    requires image == d[a.fsBlocks := SuperPut(a, START).block]
    ensures RecoversTo(a, image, FsOf(a, d))
  {
    assert FormatPuts(a)[0] == SuperPut(a, START);
    FirstOps(a, txn);
    UnsettledIdle(a, d, image);
  }

  // ─── runs ──────────────────────────────────────────────────────────────────

  ghost predicate ReusedHappens(a: Area, sys: Sys, event: Event, sys': Sys) {
    && Fits(a, sys.dev.stable) && sys.p.head < a.logBlocks && sys.p.tail < a.logBlocks && Happens(a, sys, event, sys')
    && (event.Interrupted? ==>
          OrderGuarded(a, sys, event.txn, event.ops) && Opens(a, sys, event.txn, event.ops, event.image))
  }

  ghost predicate ReusedRun(a: Area, trace: seq<Sys>, events: seq<Event>) {
    && |trace| == |events| + 1
    && forall i :: 0 <= i < |events| ==> ReusedHappens(a, trace[i], events[i], trace[i + 1])
  }

  lemma {:induction false} OrderedRestart(a: Area, d: Disk, fs: Disk, tries: seq<Attempt>, last: Disk)
    requires RecoversTo(a, d, fs) && OrderedAttempts(a, d, tries, last)
    ensures RecoversTo(a, last, fs)
    decreases |tries|
  {
    if tries != [] {
      OrderedIsTorn(Exec(Dev(d, []), OpsOn(a, d)[..tries[0].ops]), tries[0].image);
      RecoveryRestarts(a, d, fs, tries[0].ops, tries[0].image);
      OrderedRestart(a, tries[0].image, fs, tries[1..], last);
    }
  }

  lemma ReusedEvent(a: Area, d: Disk, sys: Sys, fs: Disk, event: Event, sys': Sys) returns (applied: bool)
    requires Fits(a, d) && Steady(a, d, sys, fs) && ReusedHappens(a, sys, event, sys')
    ensures Steady(a, d, sys', Effect(a, fs, event, applied))
  {
    match event
    case Returned(txn) =>
      ReturnedSteady(a, d, sys, fs, txn);
      applied := true;
    case Interrupted(txn, n, image, tries, last) =>
      if Held(a, sys.dev, sys.p, fs) {
        applied := HeldOrdered(a, sys, fs, txn, n, image);
      } else {
        applied := FreshOrdered(a, d, txn, n, image);
      }
      OrderedRestart(a, image, Outcome(fs, txn, applied), tries, last);
      BootedRests(a, last, Outcome(fs, txn, applied));
      OutcomeEffect(a, fs, event, applied);
  }

  lemma ReusedRunInit(a: Area, trace: seq<Sys>, events: seq<Event>)
    requires ReusedRun(a, trace, events) && events != []
    ensures var n := |events| - 1;
            && ReusedRun(a, trace[..n + 1], events[..n]) && trace[..n + 1][n] == trace[n]
            && ReusedHappens(a, trace[n], events[n], trace[n + 1])
  {
    var n := |events| - 1;
    var trace', events' := trace[..n + 1], events[..n];
    forall i | 0 <= i < n ensures ReusedHappens(a, trace'[i], events'[i], trace'[i + 1]) {
      assert ReusedHappens(a, trace[i], events[i], trace[i + 1]);
    }
  }

  lemma {:induction false} ReusedRunsSteady(a: Area, d: Disk, trace: seq<Sys>, events: seq<Event>)
    returns (applied: seq<bool>)
    requires Fits(a, d) && ReusedRun(a, trace, events) && trace[0] == Formatted(a, d)
    ensures |applied| == |events| && Steady(a, d, trace[|events|], Spec(a, FsOf(a, d), events, applied))
    decreases |events|
  {
    applied := [];
    if events != [] {
      var n := |events| - 1;
      ReusedRunInit(a, trace, events);
      applied := ReusedRunsSteady(a, d, trace[..n + 1], events[..n]);
      var one := ReusedEvent(a, d, trace[n], Spec(a, FsOf(a, d), events[..n], applied), events[n], trace[n + 1]);
      SpecSnoc(a, FsOf(a, d), events, applied, one);
      applied := applied + [one];
    }
  }

  /**
   * Whole-run refinement on an ordered device, from a format over any disk, an earlier journal's records
   * on it or not: if every cut meets the exact condition of its phase, the blocks a reader sees below the
   * journal are those of committing the same transactions in order, every returned one included and
   * every interrupted one applied wholly or not at all.
   */
  lemma ReusedRunsRefine(a: Area, d: Disk, trace: seq<Sys>, events: seq<Event>) returns (applied: seq<bool>)
    requires Fits(a, d) && ReusedRun(a, trace, events) && trace[0] == Formatted(a, d)
    ensures |applied| == |events| && a.fsBlocks <= |View(trace[|events|].dev)|
    ensures FsOf(a, View(trace[|events|].dev)) == Spec(a, FsOf(a, d), events, applied)
  {
    applied := ReusedRunsSteady(a, d, trace, events);
    SteadyView(a, d, trace[|events|], Spec(a, FsOf(a, d), events, applied));
  }
}
