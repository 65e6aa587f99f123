/** Every run on an ordered device refines committing transactions one after another. */
module OrderedRuns {
  import opened Disks
  import opened Ring
  import opened Journal
  import opened Recovery
  import opened TornRing
  import opened CutRing
  import opened Commits
  import opened Atomicity
  import opened Histories
  import opened Events
  import opened Ordered

  lemma RestReady(a: Area, dev: Dev, p: Pointers, fs: Disk)
    requires AtRest(a, dev, p, fs)
    ensures Apply(dev.stable, dev.cache) == dev.stable[a.fsBlocks := SuperPut(a, p).block]
    ensures Poised(a, dev.stable[a.fsBlocks := SuperPut(a, p).block], p, fs)
  {
    var d := dev.stable[a.fsBlocks := SuperPut(a, p).block];
    ApplyOne(dev.stable, SuperPut(a, p));
    UnderSuper(a, dev.stable, SuperPut(a, p).block);
    assert dev.cache == [] ==> d == dev.stable;
  }

  lemma RecordPrefix(a: Area, p: Pointers, txn: Txn, n: nat, j: nat)
    requires 0 < a.logBlocks && j <= n <= |txn| + 2
    ensures RecordPuts(a, p.head, p.nextSeq, txn)[..n][..j] == LogPuts(a, p.head, Record(a.crc, txn, p.nextSeq)[..j])
    ensures j == |txn| + 2 ==> RecordPuts(a, p.head, p.nextSeq, txn)[..n][..j] == RecordPuts(a, p.head, p.nextSeq, txn)
  {
    assert j == |txn| + 2 ==> Record(a.crc, txn, p.nextSeq)[..j] == Record(a.crc, txn, p.nextSeq);
  }

  /** An ordered cut of `cache + more`: inside the cache, or after it and `j` writes of the rest. */
  lemma OrderedConcat(d0: Disk, cache: seq<Put>, more: seq<Put>, d: Disk) returns (j: nat)
    requires Disks.Ordered(Dev(d0, cache + more), d)
    ensures j <= |more|
    ensures j == 0 ==> Disks.Ordered(Dev(d0, cache), d)
    ensures j > 0 ==> d == Apply(Apply(d0, cache), more[..j])
  {
    var k :| 0 <= k <= |cache + more| && d == Apply(d0, (cache + more)[..k]);
    PrefixOf(d0, cache, more, k);
    j := Sub(k, |cache|);
  }

  /** A cut while the record is being written. */
  lemma WritingCut(a: Area, dev: Dev, p: Pointers, fs: Disk, txn: Txn, n: nat, d: Disk) returns (applied: bool)
    requires AtRest(a, dev, p, fs) && Loggable(txn, a.logBlocks, a.fsBlocks) && !NeedsReclaim(a, p, |txn|)
    requires n <= |txn| + 2
    requires Disks.Ordered(Dev(dev.stable, dev.cache + RecordPuts(a, p.head, p.nextSeq, txn)[..n]), d)
    ensures OkImage(a, d, Outcome(fs, txn, applied))
  {
    var j := OrderedConcat(dev.stable, dev.cache, RecordPuts(a, p.head, p.nextSeq, txn)[..n], d);
    RestReady(a, dev, p, fs);
    if j == 0 {
      RestCut(a, dev, p, fs, d);
      applied := false;
    } else {
      applied := WrittenPrefix(a, Apply(dev.stable, dev.cache), p, fs, txn, n, j);
    }
  }

  lemma WrittenPrefix(a: Area, d0: Disk, p: Pointers, fs: Disk, txn: Txn, n: nat, j: nat) returns (applied: bool)
    requires Poised(a, d0, p, fs) && Loggable(txn, a.logBlocks, a.fsBlocks) && !NeedsReclaim(a, p, |txn|)
    requires 0 < j <= n <= |txn| + 2
    ensures OkImage(a, Apply(d0, RecordPuts(a, p.head, p.nextSeq, txn)[..n][..j]), Outcome(fs, txn, applied))
  {
    RecordPrefix(a, p, txn, n, j);
    applied := j == |txn| + 2;
    if applied {
      WholeRecord(a, d0, p, fs, txn);
    } else {
      PartialRecord(a, d0, p, fs, txn, j);
    }
  }

  /** The stable image after the record's barrier. */
  lemma WrittenDisk(a: Area, dev: Dev, p: Pointers, fs: Disk, txn: Txn)
    requires AtRest(a, dev, p, fs) && Loggable(txn, a.logBlocks, a.fsBlocks) && !NeedsReclaim(a, p, |txn|)
    ensures var d := Apply(dev.stable, dev.cache + RecordPuts(a, p.head, p.nextSeq, txn));
            && Fits(a, d) && Holds(a, d, SuperPut(a, p).block, RingOf(a, d), fs)
            && Stamped(a, RingOf(a, d), p, txn) && Below(RingOf(a, d), p.nextSeq + 1)
  {
    ApplyConcat(dev.stable, dev.cache, RecordPuts(a, p.head, p.nextSeq, txn));
    RestReady(a, dev, p, fs);
    WholeRecord(a, Apply(dev.stable, dev.cache), p, fs, txn);
  }

  lemma {:induction false} CheckpointOk(a: Area, d0: Disk, p: Pointers, fs: Disk, txn: Txn, m: nat, d: Disk)
    requires Fits(a, d0) && FsOf(a, d0) == fs && Stamped(a, RingOf(a, d0), p, txn) && m <= |txn|
    requires d0[a.fsBlocks] == SuperPut(a, p).block && Below(RingOf(a, d0), p.nextSeq + 1) && Torn(Dev(d0, txn[..m]), d)
    ensures OkImage(a, d, Apply(fs, txn))
  {
    TornLow(d0, txn, m, a.fsBlocks, d);
    SameScan(a, d0, d);
    LoggedOk(a, d, p, fs, txn);
  }

  /** The checkpoint is durable; with or without the head advance. */
  lemma {:induction false} CheckpointedOk(a: Area, d0: Disk, p: Pointers, fs: Disk, txn: Txn)
    requires Fits(a, d0) && FsOf(a, d0) == Apply(fs, txn) && Stamped(a, RingOf(a, d0), p, txn) && |fs| == a.fsBlocks
    requires d0[a.fsBlocks] == SuperPut(a, p).block && Below(RingOf(a, d0), p.nextSeq + 1)
    ensures OkImage(a, d0, Apply(fs, txn))
    ensures OkImage(a, d0[a.fsBlocks := SuperPut(a, Advanced(a, p, |txn|)).block], Apply(fs, txn))
  {
    var sb := SuperPut(a, Advanced(a, p, |txn|)).block;
    ApplyTwice(fs, txn);
    assert forall x :: 0 <= x < a.fsBlocks ==> d0[x] == FsOf(a, d0)[x];
    LoggedOk(a, d0, p, Apply(fs, txn), txn);
    UnderSuper(a, d0, sb);
    AcknowledgedOk(a, d0[a.fsBlocks := sb], sb, RingOf(a, d0), Apply(fs, txn));
  }

  /** A cut anywhere after the room for the record is there. */
  lemma OrderedRecordCut(a: Area, dev: Dev, p: Pointers, fs: Disk, txn: Txn, n: nat, d: Disk, rec: seq<Put>,
                         sup: Put) returns (applied: bool)
    requires AtRest(a, dev, p, fs) && Loggable(txn, a.logBlocks, a.fsBlocks) && !NeedsReclaim(a, p, |txn|)
    requires rec == RecordPuts(a, p.head, p.nextSeq, txn) && sup == SuperPut(a, Advanced(a, p, |txn|))
    requires n <= |LogProgram(rec, txn, Write(sup))|
    requires Disks.Ordered(Exec(dev, LogProgram(rec, txn, Write(sup))[..n]), d)
    ensures OkImage(a, d, Outcome(fs, txn, applied))
    ensures n > |txn| + 2 ==> applied
  {
    LogPhases(dev, rec, txn, Write(sup), n);
    if n <= |rec| {
      applied := WritingCut(a, dev, p, fs, txn, n, d);
    } else {
      applied := true;
      OrderedIsTorn(Exec(dev, LogProgram(rec, txn, Write(sup))[..n]), d);
      var d1 := Apply(dev.stable, dev.cache + rec);
      WrittenDisk(a, dev, p, fs, txn);
      if n <= |rec| + |txn| + 1 {
        CheckpointOk(a, d1, p, fs, txn, n - |rec| - 1, d);
      } else {
        CheckpointedDisk(a, d1, p, fs, txn);
        CheckpointedOk(a, Apply(d1, txn), p, fs, txn);
        OkSettled(a, Apply(d1, txn), Advanced(a, p, |txn|), if n == |rec| + |txn| + 2 then [] else [sup], d);
      }
    }
  }

  lemma {:induction false} AdvancedAtRest(a: Area, d: Disk, p: Pointers, fs: Disk, txn: Txn)
    requires Fits(a, d) && FsOf(a, d) == Apply(fs, txn) && Stamped(a, RingOf(a, d), p, txn) && |fs| == a.fsBlocks
    requires d[a.fsBlocks] == SuperPut(a, p).block && Below(RingOf(a, d), p.nextSeq + 1)
    ensures var p' := Advanced(a, p, |txn|); AtRest(a, Dev(d, [SuperPut(a, p')]), p', Apply(fs, txn))
  {
    CheckpointedOk(a, d, p, fs, txn);
    AdvancedLeads(a, RingOf(a, d), p, txn);
    BelowQuiet(RingOf(a, d), p.nextSeq + 1, Advanced(a, p, |txn|).head);
  }

  lemma {:induction false} RecordOpsAtRest(a: Area, dev: Dev, p: Pointers, fs: Disk, txn: Txn)
    requires AtRest(a, dev, p, fs) && Loggable(txn, a.logBlocks, a.fsBlocks) && !NeedsReclaim(a, p, |txn|)
    ensures AtRest(a, Exec(dev, RecordOps(a, p, txn)), Advanced(a, p, |txn|), Apply(fs, txn))
  {
    var rec := RecordPuts(a, p.head, p.nextSeq, txn);
    RecordOpsShape(a, p, txn);
    LogProgramEnd(dev, rec, txn, SuperPut(a, Advanced(a, p, |txn|)));
    WrittenDisk(a, dev, p, fs, txn);
    var d1 := Apply(dev.stable, dev.cache + rec);
    CheckpointedDisk(a, d1, p, fs, txn);
    AdvancedAtRest(a, Apply(d1, txn), p, fs, txn);
  }

  // ─── reclaim ───────────────────────────────────────────────────────────────

  lemma ReclaimImages(a: Area, dev: Dev, p: Pointers, fs: Disk)
    requires AtRest(a, dev, p, fs)
    ensures var d := dev.stable[a.fsBlocks := SuperPut(a, p.(tail := p.head)).block];
            OkImage(a, d, fs) && AtRest(a, Dev(d, []), p.(tail := p.head), fs)
  {
    var sup := SuperPut(a, p.(tail := p.head));
    var d := dev.stable[a.fsBlocks := sup.block];
    OkSuper(a, dev.stable, fs, p.(tail := p.head));
    UnderSuper(a, dev.stable, sup.block);
    assert d[a.fsBlocks := sup.block] == d;
  }

  lemma ReclaimWrites(a: Area, dev: Dev, p: Pointers, fs: Disk)
    requires AtRest(a, dev, p, fs)
    ensures var sup := SuperPut(a, p.(tail := p.head));
            Apply(dev.stable, dev.cache + [sup]) == dev.stable[a.fsBlocks := sup.block]
  {
    var sup := SuperPut(a, p.(tail := p.head));
    ApplyConcat(dev.stable, dev.cache, [sup]);
    RestReady(a, dev, p, fs);
    ApplyOne(Apply(dev.stable, dev.cache), sup);
  }

  lemma {:induction false} OrderedReclaimCut(a: Area, dev: Dev, p: Pointers, fs: Disk, count: nat, n: nat, d: Disk)
    requires AtRest(a, dev, p, fs) && n <= |ReclaimOps(a, p, count)|
    requires Disks.Ordered(Exec(dev, ReclaimOps(a, p, count)[..n]), d)
    ensures OkImage(a, d, fs)
  {
    var ops := ReclaimOps(a, p, count);
    if n == 0 {
      assert ops[..n] == [];
      RestCut(a, dev, p, fs, d);
    } else if n == 1 {
      assert ops[..n] == [ops[0]];
      ExecOne(dev, ops[0]);
      ReclaimingCut(a, dev, p, fs, SuperPut(a, p.(tail := p.head)), d);
    } else {
      assert ops[..n] == ops;
      ReclaimAtRest(a, dev, p, fs, count);
      RestCut(a, Exec(dev, ops), p.(tail := p.head), fs, d);
    }
  }

  lemma ReclaimingCut(a: Area, dev: Dev, p: Pointers, fs: Disk, sup: Put, d: Disk)
    requires AtRest(a, dev, p, fs) && sup == SuperPut(a, p.(tail := p.head))
    requires Disks.Ordered(Dev(dev.stable, dev.cache + [sup]), d)
    ensures OkImage(a, d, fs)
  {
    var j := OrderedConcat(dev.stable, dev.cache, [sup], d);
    if j == 0 {
      RestCut(a, dev, p, fs, d);
    } else {
      assert [sup][..j] == [sup];
      ApplyConcat(dev.stable, dev.cache, [sup]);
      ReclaimWrites(a, dev, p, fs);
      ReclaimImages(a, dev, p, fs);
    }
  }

  lemma RestCut(a: Area, dev: Dev, p: Pointers, fs: Disk, d: Disk)
    requires AtRest(a, dev, p, fs) && Disks.Ordered(dev, d)
    ensures OkImage(a, d, fs)
  {
    OrderedIsTorn(dev, d);
    OkSettled(a, dev.stable, p, dev.cache, d);
  }

  lemma {:induction false} ReclaimAtRest(a: Area, dev: Dev, p: Pointers, fs: Disk, count: nat)
    requires AtRest(a, dev, p, fs)
    ensures AtRest(a, Exec(dev, ReclaimOps(a, p, count)), Reclaimed(a, p, count), fs)
    ensures count + 2 <= a.logBlocks ==> !NeedsReclaim(a, Reclaimed(a, p, count), count)
  {
    if NeedsReclaim(a, p, count) {
      ReclaimWrites(a, dev, p, fs);
      ReclaimImages(a, dev, p, fs);
      ExecTwo(dev, Write(SuperPut(a, p.(tail := p.head))), Flush);
    }
  }

  // ─── the whole commit ──────────────────────────────────────────────────────

  lemma OrderedCommitCut(a: Area, dev: Dev, p: Pointers, fs: Disk, txn: Txn, n: nat, d: Disk) returns (applied: bool)
    requires AtRest(a, dev, p, fs) && Plain(txn)
    requires n <= |CommitOps(a, p, txn)| && Disks.Ordered(Exec(dev, CommitOps(a, p, txn)[..n]), d)
    ensures OkImage(a, d, Outcome(fs, txn, applied))
    ensures CommitStatus(a, txn) != Done ==> !applied
    ensures n == |CommitOps(a, p, txn)| ==> Outcome(fs, txn, applied) == Committed(a, fs, txn)
  {
    applied := false;
    if txn == [] || TooBig(a, txn) {
      RestCut(a, dev, p, fs, d);
    } else if CommitStatus(a, txn) == Corrupt {
      OrderedReclaimCut(a, dev, p, fs, |txn|, n, d);
    } else {
      var reclaim, log := ReclaimOps(a, p, |txn|), RecordOps(a, Reclaimed(a, p, |txn|), txn);
      DoneLoggable(a, txn);
      applied := OrderedValidCut(a, dev, p, fs, txn, reclaim, log, n, d);
    }
  }

  lemma OrderedValidCut(a: Area, dev: Dev, p: Pointers, fs: Disk, txn: Txn, reclaim: seq<Op>, log: seq<Op>, n: nat,
                        d: Disk)
    returns (applied: bool)
    requires AtRest(a, dev, p, fs) && Loggable(txn, a.logBlocks, a.fsBlocks)
    requires reclaim == ReclaimOps(a, p, |txn|) && log == RecordOps(a, Reclaimed(a, p, |txn|), txn)
    requires n <= |reclaim + log| && Disks.Ordered(Exec(dev, (reclaim + log)[..n]), d)
    ensures OkImage(a, d, Outcome(fs, txn, applied))
    ensures n == |reclaim + log| ==> applied
  {
    ExecPrefix(dev, reclaim, log, n);
    if n < |reclaim| {
      OrderedReclaimCut(a, dev, p, fs, |txn|, n, d);
      applied := false;
    } else {
      applied := ReclaimedLogCut(a, dev, p, fs, txn, reclaim, n - |reclaim|, d);
    }
  }

  lemma ReclaimedLogCut(a: Area, dev: Dev, p: Pointers, fs: Disk, txn: Txn, reclaim: seq<Op>, m: nat, d: Disk)
    returns (applied: bool)
    requires AtRest(a, dev, p, fs) && Loggable(txn, a.logBlocks, a.fsBlocks) && reclaim == ReclaimOps(a, p, |txn|)
    requires m <= |RecordOps(a, Reclaimed(a, p, |txn|), txn)|
    requires Disks.Ordered(Exec(Exec(dev, reclaim), RecordOps(a, Reclaimed(a, p, |txn|), txn)[..m]), d)
    ensures OkImage(a, d, Outcome(fs, txn, applied))
    ensures m == |RecordOps(a, Reclaimed(a, p, |txn|), txn)| ==> applied
  {
    ReclaimAtRest(a, dev, p, fs, |txn|);
    applied := OrderedLogCut(a, Exec(dev, reclaim), Reclaimed(a, p, |txn|), fs, txn, m, d);
  }

  /** A cut after the room for the record is there. */
  lemma OrderedLogCut(a: Area, dev: Dev, p: Pointers, fs: Disk, txn: Txn, n: nat, d: Disk) returns (applied: bool)
    requires AtRest(a, dev, p, fs) && Loggable(txn, a.logBlocks, a.fsBlocks) && !NeedsReclaim(a, p, |txn|)
    requires n <= |RecordOps(a, p, txn)| && Disks.Ordered(Exec(dev, RecordOps(a, p, txn)[..n]), d)
    ensures OkImage(a, d, Outcome(fs, txn, applied))
    ensures n == |RecordOps(a, p, txn)| ==> applied
  {
    RecordOpsShape(a, p, txn);
    applied := OrderedRecordCut(a, dev, p, fs, txn, n, d, RecordPuts(a, p.head, p.nextSeq, txn),
                                SuperPut(a, Advanced(a, p, |txn|)));
  }

  lemma {:induction false} CommitAtRest(a: Area, dev: Dev, p: Pointers, fs: Disk, txn: Txn)
    requires AtRest(a, dev, p, fs) && Plain(txn)
    ensures AtRest(a, Exec(dev, CommitOps(a, p, txn)), CommitPointers(a, p, txn), Committed(a, fs, txn))
  {
    if txn != [] && !TooBig(a, txn) {
      ReclaimAtRest(a, dev, p, fs, |txn|);
      if CommitStatus(a, txn) == Done {
        DoneLoggable(a, txn);
        LogAtRest(a, dev, ReclaimOps(a, p, |txn|), Reclaimed(a, p, |txn|), fs, txn);
      }
    }
  }

  lemma {:induction false} LogAtRest(a: Area, dev: Dev, reclaim: seq<Op>, p: Pointers, fs: Disk, txn: Txn)
    requires AtRest(a, Exec(dev, reclaim), p, fs) && Loggable(txn, a.logBlocks, a.fsBlocks)
    requires !NeedsReclaim(a, p, |txn|)
    ensures AtRest(a, Exec(dev, reclaim + RecordOps(a, p, txn)), Advanced(a, p, |txn|), Apply(fs, txn))
  {
    ExecConcat(dev, reclaim, RecordOps(a, p, txn));
    RecordOpsAtRest(a, Exec(dev, reclaim), p, fs, txn);
  }

  // ─── runs ──────────────────────────────────────────────────────────────────

  ghost predicate OrderedAttempts(a: Area, d: Disk, tries: seq<Attempt>, last: Disk)
    decreases |tries|
  {
    if tries == [] then d == last
    else
      && Fits(a, d) && Sane(a, d[a.fsBlocks]) && tries[0].ops <= |OpsOn(a, d)|
      && Disks.Ordered(Exec(Dev(d, []), OpsOn(a, d)[..tries[0].ops]), tries[0].image)
      && OrderedAttempts(a, tries[0].image, tries[1..], last)
  }

  ghost predicate Happens(a: Area, sys: Sys, event: Event, sys': Sys) {
    && sys.p.head < a.logBlocks && sys.p.tail < a.logBlocks && Plain(event.txn)
    && var ops := CommitOps(a, sys.p, event.txn);
       match event
       case Returned(txn) => sys' == CommitOne(a, sys, txn)
       case Interrupted(txn, n, image, tries, last) =>
         && n <= |ops| && Disks.Ordered(Exec(sys.dev, ops[..n]), image)
         && Fits(a, image) && image[a.fsBlocks].Super? && OrderedAttempts(a, image, tries, last)
         && Fits(a, last) && Sane(a, last[a.fsBlocks]) && sys' == Booted(a, last)
  }

  ghost predicate Runs(a: Area, trace: seq<Sys>, events: seq<Event>) {
    && |trace| == |events| + 1
    && forall i :: 0 <= i < |events| ==> Happens(a, trace[i], events[i], trace[i + 1])
  }

  lemma {:induction false} AttemptsOk(a: Area, d: Disk, fs: Disk, tries: seq<Attempt>, last: Disk)
    requires OkImage(a, d, fs) && OrderedAttempts(a, d, tries, last)
    ensures OkImage(a, last, fs)
    decreases |tries|
  {
    if tries != [] {
      OrderedIsTorn(Exec(Dev(d, []), OpsOn(a, d)[..tries[0].ops]), tries[0].image);
      OkRestarts(a, d, fs, tries[0].ops, tries[0].image);
      AttemptsOk(a, tries[0].image, fs, tries[1..], last);
    }
  }

  // ─── the format itself may not be durable ──────────────────────────────────

  /** At rest, or fresh from a format that is not durable yet. */
  ghost predicate Settled(a: Area, blank: Disk, sys: Sys, fs: Disk)
    requires Fits(a, blank)
  {
    AtRest(a, sys.dev, sys.p, fs) || (sys == Formatted(a, blank) && fs == FsOf(a, blank))
  }

  /** A freshly formatted journal on an unwritten ring is at rest once its format is durable. */
  lemma DurableAtRest(a: Area, d: Disk)
    requires Blank(a, d)
    ensures AtRest(a, Durable(a, d).dev, START, FsOf(a, d))
  {
    FormatDisk(a, d);
    var d' := Durable(a, d).dev.stable;
    UnwrittenTidy(a.crc, RingOf(a, d'));
    BelowQuiet(RingOf(a, d'), 1, 0);
    OkSuper(a, d', FsOf(a, d), START);
    assert d'[a.fsBlocks := SuperPut(a, START).block] == d';
  }

  /** Only the superblock of `format` made it. */
  lemma SuperOnly(a: Area, d: Disk)
    requires Blank(a, d)
    ensures OkImage(a, d[a.fsBlocks := SuperPut(a, START).block], FsOf(a, d))
  {
    UnwrittenTidy(a.crc, RingOf(a, d));
    BelowQuiet(RingOf(a, d), 1, 0);
    OkSuper(a, d, FsOf(a, d), START);
  }

  /** A prefix of what `format` and a first record wrote: too short to open, or a cut of the durable format. */
  lemma {:induction false} FormatPrefix(a: Area, d: Disk, more: seq<Put>, image: Disk)
    requires Fits(a, d) && Disks.Ordered(Dev(d, FormatPuts(a) + more), image)
    ensures || image == d || image == d[a.fsBlocks := SuperPut(a, START).block]
            || Disks.Ordered(Dev(Apply(d, FormatPuts(a)), more), image)
  {
    var puts := FormatPuts(a);
    var k :| 0 <= k <= |puts + more| && image == Apply(d, (puts + more)[..k]);
    PrefixOf(d, puts, more, k);
    if k == 1 {
      assert puts[..1] == [puts[0]];
      ApplyOne(d, puts[0]);
    } else if k == 0 {
      assert puts[..0] == [];
    }
  }

  lemma UnsettledOrdered(a: Area, d: Disk, txn: Txn, n: nat, image: Disk) returns (applied: bool)
    requires Blank(a, d) && Plain(txn) && n <= |CommitOps(a, START, txn)|
    requires Disks.Ordered(Exec(Formatted(a, d).dev, CommitOps(a, START, txn)[..n]), image)
    requires Fits(a, image) && image[a.fsBlocks].Super?
    ensures OkImage(a, image, Outcome(FsOf(a, d), txn, applied)) && (CommitStatus(a, txn) != Done ==> !applied)
  {
    DurableAtRest(a, d);
    SuperOnly(a, d);
    UnsettledOps(a, d, txn, n, image);
    if image == d[a.fsBlocks := SuperPut(a, START).block] {
      applied := false;
    } else {
      applied := OrderedCommitCut(a, Durable(a, d).dev, START, FsOf(a, d), txn, n, image);
    }
  }

  /** A cut leaves none of the format, its superblock alone, or what it could leave of the durable format. */
  lemma UnsettledOps(a: Area, d: Disk, txn: Txn, n: nat, image: Disk)
    requires Fits(a, d) && n <= |CommitOps(a, START, txn)|
    requires Disks.Ordered(Exec(Formatted(a, d).dev, CommitOps(a, START, txn)[..n]), image)
    ensures || image == d || image == d[a.fsBlocks := SuperPut(a, START).block]
            || Disks.Ordered(Exec(Durable(a, d).dev, CommitOps(a, START, txn)[..n]), image)
  {
    FirstOps(a, txn);
    if Logs(a, txn) {
      RecordOpsShape(a, START, txn);
      UnsettledLog(a, d, txn, n, image, RecordPuts(a, 0, 1, txn), SuperPut(a, Advanced(a, START, |txn|)));
    } else {
      assert FormatPuts(a) + [] == FormatPuts(a);
      FormatPrefix(a, d, [], image);
    }
  }

  lemma UnsettledLog(a: Area, d: Disk, txn: Txn, n: nat, image: Disk, rec: seq<Put>, sup: Put)
    requires Fits(a, d) && n <= |LogProgram(rec, txn, Write(sup))|
    requires Disks.Ordered(Exec(Formatted(a, d).dev, LogProgram(rec, txn, Write(sup))[..n]), image)
    ensures || image == d || image == d[a.fsBlocks := SuperPut(a, START).block]
            || Disks.Ordered(Exec(Durable(a, d).dev, LogProgram(rec, txn, Write(sup))[..n]), image)
  {
    LogPhases(Formatted(a, d).dev, rec, txn, Write(sup), n);
    LogPhases(Durable(a, d).dev, rec, txn, Write(sup), n);
    if n <= |rec| {
      assert [] + rec[..n] == rec[..n];
      FormatPrefix(a, d, rec[..n], image);
    } else {
      ApplyConcat(d, FormatPuts(a), rec);
      assert [] + rec == rec;
    }
  }

  lemma ReturnedSettled(a: Area, blank: Disk, sys: Sys, fs: Disk, txn: Txn)
    requires Blank(a, blank) && Settled(a, blank, sys, fs) && Plain(txn)
    ensures Settled(a, blank, CommitOne(a, sys, txn), Committed(a, fs, txn))
  {
    if AtRest(a, sys.dev, sys.p, fs) {
      CommitAtRest(a, sys.dev, sys.p, fs, txn);
    } else {
      FirstOps(a, txn);
      if Logs(a, txn) {
        DurableAtRest(a, blank);
        FirstCommit(a, blank, txn);
        CommitAtRest(a, Durable(a, blank).dev, START, fs, txn);
      }
    }
  }

  // ─── whole runs ────────────────────────────────────────────────────────────

  lemma EventSettled(a: Area, blank: Disk, sys: Sys, fs: Disk, event: Event, sys': Sys) returns (applied: bool)
    requires Blank(a, blank) && Settled(a, blank, sys, fs) && Happens(a, sys, event, sys')
    ensures Settled(a, blank, sys', Effect(a, fs, event, applied))
  {
    match event
    case Returned(txn) =>
      ReturnedSettled(a, blank, sys, fs, txn);
      applied := true;
    case Interrupted(txn, n, image, tries, last) =>
      if AtRest(a, sys.dev, sys.p, fs) {
        applied := OrderedCommitCut(a, sys.dev, sys.p, fs, txn, n, image);
      } else {
        applied := UnsettledOrdered(a, blank, txn, n, image);
      }
      AttemptsOk(a, image, Outcome(fs, txn, applied), tries, last);
      RecoveredAtRest(a, last, Outcome(fs, txn, applied));
      OutcomeEffect(a, fs, event, applied);
  }

  lemma RunsInit(a: Area, trace: seq<Sys>, events: seq<Event>)
    requires Runs(a, trace, events) && events != []
    ensures var n := |events| - 1;
            && Runs(a, trace[..n + 1], events[..n]) && trace[..n + 1][n] == trace[n]
            && Happens(a, trace[n], events[n], trace[n + 1])
  {
    var n := |events| - 1;
    var trace', events' := trace[..n + 1], events[..n];
    forall i | 0 <= i < n ensures Happens(a, trace'[i], events'[i], trace'[i + 1]) {
      assert Happens(a, trace[i], events[i], trace[i + 1]);
    }
  }

  /**
   * Whole-run refinement: after any sequence of commits and power cuts, inside commits and inside
   * recoveries, the filesystem is what committing the same transactions in order makes, every
   * returned one included and every interrupted one applied wholly or not at all.
   */
  lemma {:induction false} RunsRefine(a: Area, blank: Disk, trace: seq<Sys>, events: seq<Event>)
    returns (applied: seq<bool>)
    requires Blank(a, blank) && Runs(a, trace, events) && trace[0] == Formatted(a, blank)
    ensures |applied| == |events| && Settled(a, blank, trace[|events|], Spec(a, FsOf(a, blank), events, applied))
    decreases |events|
  {
    applied := [];
    if events != [] {
      var n := |events| - 1;
      RunsInit(a, trace, events);
      applied := RunsRefine(a, blank, trace[..n + 1], events[..n]);
      var fs := Spec(a, FsOf(a, blank), events[..n], applied);
      var one := EventSettled(a, blank, trace[n], fs, events[n], trace[n + 1]);
      SpecSnoc(a, FsOf(a, blank), events, applied, one);
      applied := applied + [one];
    }
  }

  /**
   * From format, without a barrier, on a blank disk: whatever the run, the blocks a reader sees below
   * the journal are those of committing the same transactions in order.
   */
  lemma OrderedHistory(a: Area, blank: Disk, trace: seq<Sys>, events: seq<Event>) returns (applied: seq<bool>)
    requires Blank(a, blank) && Runs(a, trace, events) && trace[0] == Formatted(a, blank)
    ensures |applied| == |events| && a.fsBlocks <= |View(trace[|events|].dev)|
    ensures FsOf(a, View(trace[|events|].dev)) == Spec(a, FsOf(a, blank), events, applied)
  {
    applied := RunsRefine(a, blank, trace, events);
    var last := trace[|events|];
    ApplyOne(last.dev.stable, SuperPut(a, last.p));
    FormatDisk(a, blank);
  }
}
