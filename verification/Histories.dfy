/** Whole histories of a formatted journal up to a power cut that keeps any part of the write cache. */
module Histories {
  import opened Disks
  import opened Ring
  import opened Journal
  import opened Recovery
  import opened TornRing
  import opened CutRing
  import opened Crash
  import opened Commits
  import opened Atomicity

  // ─── format ────────────────────────────────────────────────────────────────

  // A running journal.
  datatype Sys = Sys(dev: Dev, p: Pointers)

  const START := Pointers(0, 0, 1)

  /** A ring on which no journal has ever written. */
  ghost predicate Unwritten(ring: Disk) {
    forall q :: 0 <= q < |ring| ==> !ring[q].Desc? && !ring[q].Commit?
  }

  /** A disk with room for the journal and no trace of one. */
  ghost predicate Blank(a: Area, d: Disk) {
    Fits(a, d) && Unwritten(RingOf(a, d)) && !d[a.fsBlocks].Super?
  }

  /** A journal just formatted: `format` issues no barrier. */
  function Formatted(a: Area, d: Disk): Sys {
    Sys(Dev(d, FormatPuts(a)), START)
  }

  /** ... and once its two writes are durable. */
  function Durable(a: Area, d: Disk): Sys {
    Sys(Dev(Apply(d, FormatPuts(a)), []), START)
  }

  lemma {:induction false} FormatDisk(a: Area, d: Disk)
    requires Fits(a, d)
    ensures var d' := Apply(d, FormatPuts(a));
            && Holds(a, d', SuperPut(a, START).block, RingOf(a, d)[0 := Raw(Pad([]))], FsOf(a, d))
            && d' == d[a.fsBlocks := SuperPut(a, START).block][a.fsBlocks + 1 := Raw(Pad([]))]
  {
    var puts := FormatPuts(a);
    ApplyConcat(d, [puts[0]], [puts[1]]);
    assert puts == [puts[0]] + [puts[1]];
    ApplyOne(d, puts[0]);
    ApplyOne(Apply(d, [puts[0]]), puts[1]);
  }

  lemma UnwrittenTidy(crc: Checksum, ring: Disk)
    requires Unwritten(ring) && 0 < |ring|
    ensures Below(ring, 1) && Tidy(ring, 1, 0) && Leads(ring, 0, 0, 0, 1) && Dead(crc, ring, 0, 1)
  {
  }

  /** Once durable, a format is at rest, whatever else is on the ring. */
  lemma DurableRests(a: Area, d: Disk)
    requires Fits(a, d)
    ensures Rests(a, Durable(a, d).dev, START, FsOf(a, d))
    ensures RingOf(a, Durable(a, d).dev.stable) == RingOf(a, d)[0 := Raw(Pad([]))]
  {
    FormatDisk(a, d);
    HaltsDead(a.crc, RingOf(a, Durable(a, d).dev.stable), 0, 1);
  }

  lemma DurableReady(a: Area, d: Disk)
    requires Blank(a, d)
    ensures Ready(a, Durable(a, d).dev, START, FsOf(a, d)) && Below(RingOf(a, Durable(a, d).dev.stable), 1)
  {
    DurableRests(a, d);
    FormatDisk(a, d);
    UnwrittenTidy(a.crc, RingOf(a, Durable(a, d).dev.stable));
  }

  /** Before the first barrier: the operations of a first commit, if it issues any. */
  lemma FirstOps(a: Area, txn: Txn)
    requires 0 < a.logBlocks
    ensures CommitOps(a, START, txn)
         == if Logs(a, txn) then RecordOps(a, START, txn) else []
  {
  }

  lemma RecordFlushes(a: Area, p: Pointers, txn: Txn)
    requires 0 < a.logBlocks
    ensures Flush in RecordOps(a, p, txn)
  {
    RecordOpsShape(a, p, txn);
    assert RecordOps(a, p, txn)[|txn| + 2] == Flush;
  }

  /** After its first barrier a journal no longer depends on whether its format was durable. */
  lemma FirstCommit(a: Area, d: Disk, txn: Txn)
    requires 0 < a.logBlocks && Logs(a, txn)
    ensures Exec(Formatted(a, d).dev, CommitOps(a, START, txn)) == Exec(Durable(a, d).dev, CommitOps(a, START, txn))
  {
    FirstOps(a, txn);
    RecordFlushes(a, START, txn);
    FlushForgets(Formatted(a, d).dev, CommitOps(a, START, txn));
  }

  // ─── histories ─────────────────────────────────────────────────────────────

  function CommitOne(a: Area, sys: Sys, txn: Txn): Sys
    requires sys.p.tail < a.logBlocks
  {
    Sys(Exec(sys.dev, CommitOps(a, sys.p, txn)), CommitPointers(a, sys.p, txn))
  }

  function CommitAll(a: Area, sys: Sys, txns: seq<Txn>): Sys
    requires sys.p.head < a.logBlocks && sys.p.tail < a.logBlocks
    decreases |txns|
  {
    if txns == [] then sys else CommitAll(a, CommitOne(a, sys, txns[0]), txns[1..])
  }

  /** The ring after the commits of `txns` have returned, in order, ... */
  ghost function RingAfterAll(a: Area, ring: Disk, p: Pointers, txns: seq<Txn>): Disk
    requires p.head < |ring| == a.logBlocks && p.tail < a.logBlocks
    decreases |txns|
  {
    if txns == [] then ring
    else RingAfterAll(a, RingAfter(a, ring, p, txns[0]), CommitPointers(a, p, txns[0]), txns[1..])
  }

  /** ... the pointers, ... */
  ghost function PointersAfterAll(a: Area, p: Pointers, txns: seq<Txn>): Pointers
    requires p.head < a.logBlocks && p.tail < a.logBlocks
    decreases |txns|
  {
    if txns == [] then p else PointersAfterAll(a, CommitPointers(a, p, txns[0]), txns[1..])
  }

  /** ... and the filesystem. */
  ghost function FsAfter(a: Area, fs: Disk, txns: seq<Txn>): Disk
    decreases |txns|
  {
    if txns == [] then fs else FsAfter(a, Committed(a, fs, txns[0]), txns[1..])
  }

  /** At rest and never interrupted: nothing on the ring is numbered ahead, and at most one record is unacknowledged. */
  ghost predicate Fresh(a: Area, sys: Sys, fs: Disk) {
    && Ready(a, sys.dev, sys.p, fs) && Below(RingOf(a, sys.dev.stable), sys.p.nextSeq)
    && sys.p.nextSeq <= sys.dev.stable[a.fsBlocks].nextSeq + 1
  }

  lemma BelowStamped(crc: Checksum, ring: Disk, at: nat, s: nat, txn: Txn)
    requires Below(ring, s) && at < |ring| && |txn| + 2 <= |ring| && Plain(txn)
    ensures Below(Stamp(ring, at, Record(crc, txn, s)), s + 1)
  {
    var ring' := Stamp(ring, at, Record(crc, txn, s));
    forall q | 0 <= q < |ring| && (ring'[q].Desc? || ring'[q].Commit?) ensures ring'[q].seqNo < s + 1 {
      if Dist(at, q, |ring|) < |txn| + 2 { StampedKinds(crc, txn, s, Dist(at, q, |ring|)); }
    }
  }

  lemma CommitFresh(a: Area, sys: Sys, fs: Disk, txn: Txn)
    requires Fresh(a, sys, fs) && Plain(txn)
    ensures Fresh(a, CommitOne(a, sys, txn), Committed(a, fs, txn))
  {
    CommitReady(a, sys.dev, sys.p, fs, txn);
    if txn != [] && !TooBig(a, txn) {
      var p, reclaim := Reclaimed(a, sys.p, |txn|), ReclaimOps(a, sys.p, |txn|);
      ReclaimedReady(a, sys.dev, sys.p, fs, |txn|);
      if CommitStatus(a, txn) == Done {
        DoneLoggable(a, txn);
        ExecConcat(sys.dev, reclaim, RecordOps(a, p, txn));
        RecordOpsReady(a, Exec(sys.dev, reclaim), p, fs, txn);
        BelowStamped(a.crc, RingOf(a, sys.dev.stable), p.head, p.nextSeq, txn);
      }
    }
  }

  lemma {:induction false} HistoryFresh(a: Area, sys: Sys, fs: Disk, txns: seq<Txn>)
    requires Fresh(a, sys, fs) && forall i :: 0 <= i < |txns| ==> Plain(txns[i])
    ensures Fresh(a, CommitAll(a, sys, txns), FsAfter(a, fs, txns))
    decreases |txns|
  {
    if txns != [] {
      CommitFresh(a, sys, fs, txns[0]);
      HistoryFresh(a, CommitOne(a, sys, txns[0]), Committed(a, fs, txns[0]), txns[1..]);
    }
  }

  /** Commits from a format that is not durable: all of them refused, or as if it had been. */
  lemma {:induction false} HistoryForgets(a: Area, d: Disk, txns: seq<Txn>)
    requires 0 < a.logBlocks && Fits(a, d)
    ensures || CommitAll(a, Formatted(a, d), txns) == CommitAll(a, Durable(a, d), txns)
            || (CommitAll(a, Formatted(a, d), txns) == Formatted(a, d)
                && CommitAll(a, Durable(a, d), txns) == Durable(a, d)
                && FsAfter(a, FsOf(a, d), txns) == FsOf(a, d))
    decreases |txns|
  {
    if txns != [] {
      FirstOps(a, txns[0]);
      if Logs(a, txns[0]) {
        FirstCommit(a, d, txns[0]);
      } else {
        HistoryForgets(a, d, txns[1..]);
      }
    }
  }

  // ─── never interrupted before: safe ────────────────────────────────────────

  /** Only the images of `txn` themselves, of all they may be mixed with on the ring, have their checksum. */
  ghost predicate Discerns(a: Area, ring: Disk, p: Pointers, txn: Txn) {
    p.head < |ring| && TellsApart(a.crc, ring, p.head, Record(a.crc, txn, p.nextSeq), p.head, Images(txn))
  }

  lemma DiscernsSafe(a: Area, ring: Disk, p: Pointers, fs: Disk, txn: Txn)
    requires Discerns(a, ring, p, txn) && Below(ring, p.nextSeq) && Loggable(txn, |ring|, |fs|)
    ensures !Misdirects(a.crc, ring, p.head, p.nextSeq, fs, txn)
  {
    var rec := Record(a.crc, txn, p.nextSeq);
    forall targets, data | Slips(a.crc, ring, p.head, p.nextSeq, rec, targets, data)
      ensures !Misleads(fs, txn, targets, data)
    {
      SlipsWhole(a, ring, p, txn, targets, data);
      AllInBounds(Targets(txn), |fs|);
      PutsBack(txn);
    }
  }

  /** On a ring with nothing numbered ahead only the whole record can come alive. */
  lemma SlipsWhole(a: Area, ring: Disk, p: Pointers, txn: Txn, targets: seq<nat>, data: seq<Block>)
    requires Discerns(a, ring, p, txn) && Below(ring, p.nextSeq) && Plain(txn)
    requires Slips(a.crc, ring, p.head, p.nextSeq, Record(a.crc, txn, p.nextSeq), targets, data)
    ensures targets == Targets(txn) && data == Images(txn)
  {
    var rec, c := Record(a.crc, txn, p.nextSeq), Slot(p.head + 1 + |targets|, |ring|);
    assert May(ring, p.head, rec, p.head, Desc(p.nextSeq, targets));
    assert Dist(p.head, p.head, |ring|) == 0;
    assert targets == Targets(txn);
    assert May(ring, p.head, rec, c, Commit(p.nextSeq, a.crc(data)));
    assert Dist(p.head, c, |ring|) == |txn| + 1;
  }

  lemma FreshSafe(a: Area, sys: Sys, fs: Disk, txn: Txn)
    requires Fresh(a, sys, fs) && Logs(a, txn) && Plain(txn)
    requires Discerns(a, RingOf(a, sys.dev.stable), sys.p, txn)
    ensures SafeAt(a, sys.dev, sys.p, fs, txn)
  {
    var ring, sb := RingOf(a, sys.dev.stable), sys.dev.stable[a.fsBlocks];
    DoneLoggable(a, txn);
    DiscernsSafe(a, ring, sys.p, fs, txn);
    OneBehindSafe(a.crc, ring, sb.tail, sb.nextSeq, sys.p.head, sys.p.nextSeq, fs, txn);
  }

  // ─── a cut before the first barrier ────────────────────────────────────────

  /** The ring under the record of a first commit, when a cut may have lost either write of `format`. */
  ghost predicate UnderFormat(a: Area, d: Disk, ring: Disk) {
    Fits(a, d) && (ring == RingOf(a, d) || ring == RingOf(a, d)[0 := Raw(Pad([]))])
  }

  /** ... and nothing there can mislead it. */
  ghost predicate Harmless(a: Area, d: Disk, txn: Txn) {
    forall ring :: UnderFormat(a, d, ring) ==>
      Tidy(ring, 1, 0) && !Misdirects(a.crc, ring, 0, 1, FsOf(a, d), txn)
  }

  lemma FormatImage(a: Area, d: Disk, image: Disk)
    requires Fits(a, d) && Torn(Formatted(a, d).dev, image)
    ensures Fits(a, image) && FsOf(a, image) == FsOf(a, d) && UnderFormat(a, d, RingOf(a, image))
    ensures image[a.fsBlocks] == d[a.fsBlocks] || image[a.fsBlocks] == SuperPut(a, START).block
  {
    var zero := Raw(Pad([]));
    forall x | 0 <= x < |d| && x != a.fsBlocks && x != a.fsBlocks + 1 ensures image[x] == d[x] {
    }
    if image[a.fsBlocks + 1] == d[a.fsBlocks + 1] {
      assert RingOf(a, image) == RingOf(a, d);
    } else {
      assert RingOf(a, image) == RingOf(a, d)[0 := zero];
    }
  }

  ghost predicate FirstBlock(a: Area, d: Disk, txn: Txn, image: Disk, x: nat)
    requires x < |image| == |d|
  {
    image[x] == d[x] || Put(x, image[x]) in FormatPuts(a) || (0 < a.logBlocks && OnRecord(a, START, txn, x, image[x]))
  }

  lemma FirstImage(a: Area, d: Disk, txn: Txn, m: nat, image: Disk) returns (ring: Disk)
    requires Fits(a, d) && |txn| + 2 <= a.logBlocks && m <= |txn| + 2
    requires Torn(Dev(d, FormatPuts(a) + RecordPuts(a, 0, 1, txn)[..m]), image)
    ensures UnderFormat(a, d, ring) && Partly(ring, RingOf(a, image), 0, Record(a.crc, txn, 1))
    ensures Fits(a, image) && FsOf(a, image) == FsOf(a, d)
    ensures image[a.fsBlocks] == d[a.fsBlocks] || image[a.fsBlocks] == SuperPut(a, START).block
  {
    forall x | 0 <= x < |image| ensures FirstBlock(a, d, txn, image, x) {
      if image[x] != d[x] && Put(x, image[x]) !in FormatPuts(a) { CutRecordBlock(a, START, txn, m, x, image[x]); }
    }
    forall x | 0 <= x < a.fsBlocks ensures image[x] == d[x] {
      assert FirstBlock(a, d, txn, image, x);
    }
    assert FirstBlock(a, d, txn, image, a.fsBlocks);
    var zero := Raw(Pad([]));
    ring := if image[a.fsBlocks + 1] == zero then RingOf(a, d)[0 := zero] else RingOf(a, d);
    forall q | 0 <= q < a.logBlocks ensures May(ring, 0, Record(a.crc, txn, 1), q, RingOf(a, image)[q]) {
      FirstSlot(a, d, txn, image, ring, q);
    }
  }

  lemma FirstSlot(a: Area, d: Disk, txn: Txn, image: Disk, ring: Disk, q: nat)
    requires Fits(a, d) && |image| == |d| && q < a.logBlocks && FirstBlock(a, d, txn, image, a.fsBlocks + 1 + q)
    requires ring == if image[a.fsBlocks + 1] == Raw(Pad([])) then RingOf(a, d)[0 := Raw(Pad([]))] else RingOf(a, d)
    ensures May(ring, 0, Record(a.crc, txn, 1), q, RingOf(a, image)[q])
  {
    var x := a.fsBlocks + 1 + q;
    var b := RingOf(a, image)[q];
    assert b == image[x] && RingOf(a, d)[q] == d[x];
    if b != d[x] && Put(x, b) !in FormatPuts(a) { OnRecordMay(a, START, txn, ring, x, q, b); }
  }

  /** A cut in the first commit before its barrier, on a disk that opens with the superblock of `format`. */
  lemma FirstAtomic(a: Area, d: Disk, txn: Txn, m: nat, image: Disk) returns (applied: bool)
    requires Fits(a, d) && Loggable(txn, a.logBlocks, a.fsBlocks) && m <= |txn| + 2 && Harmless(a, d, txn)
    requires Torn(Dev(d, FormatPuts(a) + RecordPuts(a, 0, 1, txn)[..m]), image)
    requires a.fsBlocks < |image| && image[a.fsBlocks] == SuperPut(a, START).block
    ensures RecoversTo(a, image, Outcome(FsOf(a, d), txn, applied))
  {
    var ring := FirstImage(a, d, txn, m, image);
    NowAtomic(a.crc, ring, RingOf(a, image), FsOf(a, d), 0, 0, 0, 1, txn);
    applied := RecoversAtomic(a, image, image[a.fsBlocks], RingOf(a, image), FsOf(a, d), txn);
  }

  /**
   * A cut in the first commit before its barrier, on a blank disk. The image opens if and only if the
   * superblock of `format` survived, and then the transaction is applied wholly or not at all.
   */
  lemma FirstCut(a: Area, d: Disk, txn: Txn, m: nat, image: Disk) returns (applied: bool)
    requires Blank(a, d) && Loggable(txn, a.logBlocks, a.fsBlocks) && m <= |txn| + 2
    requires Harmless(a, d, txn)
    requires Torn(Dev(d, FormatPuts(a) + RecordPuts(a, 0, 1, txn)[..m]), image)
    ensures Fits(a, image) && (image[a.fsBlocks].Super? <==> image[a.fsBlocks] == SuperPut(a, START).block)
    ensures image[a.fsBlocks].Super? ==> RecoversTo(a, image, Outcome(FsOf(a, d), txn, applied))
  {
    var ring := FirstImage(a, d, txn, m, image);
    applied := false;
    if image[a.fsBlocks] == SuperPut(a, START).block {
      applied := FirstAtomic(a, d, txn, m, image);
    }
  }

  /** Losing the whole cache before the first barrier leaves the blank disk, which `open` rejects. */
  lemma FormatLost(a: Area, d: Disk, txn: Txn, n: nat)
    requires Blank(a, d) && Logs(a, txn) && n <= |txn| + 2
    ensures n <= |CommitOps(a, START, txn)| && Torn(Exec(Formatted(a, d).dev, CommitOps(a, START, txn)[..n]), d)
    ensures !d[a.fsBlocks].Super? && forall fs :: !RecoversTo(a, d, fs)
  {
    var rec := RecordPuts(a, 0, 1, txn);
    FirstOps(a, txn);
    RecordOpsShape(a, START, txn);
    LogPhases(Formatted(a, d).dev, rec, txn, Write(SuperPut(a, Advanced(a, START, |txn|))), n);
  }

  // ─── the history theorem ───────────────────────────────────────────────────

  /** The checksum does its part: whatever a cut now would leave on the ring, it tells the images from mixtures. */
  ghost predicate Vouched(a: Area, sys: Sys, txn: Txn) {
    && (forall d :: Torn(sys.dev, d) && Fits(a, d) ==> Discerns(a, RingOf(a, d), sys.p, txn))
    && (Fits(a, sys.dev.stable) && sys.dev.stable[a.fsBlocks].Super? && sys.p.tail < a.logBlocks ==>
          ToldAt(a, sys.dev, sys.p, txn))
  }

  lemma VouchedFormat(a: Area, d: Disk, txn: Txn, ring: Disk)
    requires Fits(a, d) && Vouched(a, Formatted(a, d), txn) && UnderFormat(a, d, ring)
    ensures Discerns(a, ring, START, txn)
  {
    var dev := Formatted(a, d).dev;
    if ring == RingOf(a, d) {
      assert Torn(dev, d);
    } else {
      TornAll(dev);
      FormatDisk(a, d);
    }
  }

  lemma VouchedHarmless(a: Area, d: Disk, txn: Txn)
    requires Blank(a, d) && Loggable(txn, a.logBlocks, a.fsBlocks) && Vouched(a, Formatted(a, d), txn)
    ensures Harmless(a, d, txn)
  {
    forall ring | UnderFormat(a, d, ring) ensures !Misdirects(a.crc, ring, 0, 1, FsOf(a, d), txn) {
      VouchedFormat(a, d, txn, ring);
      UnwrittenTidy(a.crc, ring);
      DiscernsSafe(a, ring, START, FsOf(a, d), txn);
    }
  }

  /** A cut in a commit on a journal that has passed a barrier and was never interrupted. */
  lemma FreshCut(a: Area, sys: Sys, fs: Disk, txn: Txn, n: nat, image: Disk) returns (applied: bool)
    requires Fresh(a, sys, fs) && Plain(txn)
    requires Logs(a, txn) ==>
      Discerns(a, RingOf(a, sys.dev.stable), sys.p, txn) && ToldAt(a, sys.dev, sys.p, txn)
    requires n <= |CommitOps(a, sys.p, txn)| && Torn(Exec(sys.dev, CommitOps(a, sys.p, txn)[..n]), image)
    ensures RecoversTo(a, image, Outcome(fs, txn, applied))
    ensures CommitStatus(a, txn) != Done ==> !applied
    ensures n == |CommitOps(a, sys.p, txn)| ==> Outcome(fs, txn, applied) == Committed(a, fs, txn)
  {
    if Logs(a, txn) { FreshSafe(a, sys, fs, txn); }
    applied := CommitAtomic(a, sys.dev, sys.p, fs, txn, n, image);
  }

  /**
   * What a cut in a first commit needs while the format is not durable: the superblock of `format`, and
   * that nothing of an older journal passes for a record, whether or not its first slot was cleared.
   * Behind the record's barrier, only that nothing is to be replayed behind it.
   */
  ghost predicate FirstSafe(a: Area, d: Disk, txn: Txn, n: nat, image: Disk)
    requires Fits(a, d) && Fits(a, image)
  {
    if Logs(a, txn) && n > |txn| + 2 then
      Ends(a, RingAfter(a, RingOf(a, d)[0 := Raw(Pad([]))], START, txn), 0, 1, txn)
    else
      && image[a.fsBlocks] == SuperPut(a, START).block
      && if Logs(a, txn) then Harmless(a, d, txn) else Dead(a.crc, RingOf(a, d), 0, 1)
  }

  /** A cut in a first commit, the format not durable yet. */
  lemma UnsettledCut(a: Area, d: Disk, txn: Txn, n: nat, image: Disk) returns (applied: bool)
    requires Fits(a, d) && Plain(txn) && Fits(a, image) && FirstSafe(a, d, txn, n, image)
    requires n <= |CommitOps(a, START, txn)| && Torn(Exec(Formatted(a, d).dev, CommitOps(a, START, txn)[..n]), image)
    ensures RecoversTo(a, image, Outcome(FsOf(a, d), txn, applied))
    ensures CommitStatus(a, txn) != Done ==> !applied
    ensures n == |CommitOps(a, START, txn)| ==> Outcome(FsOf(a, d), txn, applied) == Committed(a, FsOf(a, d), txn)
  {
    FirstOps(a, txn);
    if Logs(a, txn) {
      applied := UnsettledRecord(a, d, txn, n, image);
    } else {
      applied := false;
      UnsettledIdle(a, d, image);
    }
  }

  lemma UnsettledIdle(a: Area, d: Disk, image: Disk)
    requires Fits(a, d) && Torn(Formatted(a, d).dev, image) && Dead(a.crc, RingOf(a, d), 0, 1)
    requires a.fsBlocks < |image| && image[a.fsBlocks] == SuperPut(a, START).block
    ensures RecoversAt(a, image, FsOf(a, d), 1)
  {
    var ring, sb := RingOf(a, d)[0 := Raw(Pad([]))], SuperPut(a, START).block;
    FormatImage(a, d, image);
    HaltsDead(a.crc, ring, 0, 1);
    DeadSettles(a.crc, RingOf(a, image), FsOf(a, d), 0, 1);
    Recovers(a, image, sb, RingOf(a, image), FsOf(a, d), FsOf(a, d));
  }

  lemma UnsettledRecord(a: Area, d: Disk, txn: Txn, n: nat, image: Disk) returns (applied: bool)
    requires Fits(a, d) && Plain(txn) && Logs(a, txn) && Fits(a, image) && FirstSafe(a, d, txn, n, image)
    requires n <= |RecordOps(a, START, txn)| && Torn(Exec(Formatted(a, d).dev, RecordOps(a, START, txn)[..n]), image)
    ensures RecoversTo(a, image, Outcome(FsOf(a, d), txn, applied))
    ensures n == |RecordOps(a, START, txn)| ==> applied
  {
    var rec, sup := RecordPuts(a, 0, 1, txn), SuperPut(a, Advanced(a, START, |txn|));
    DoneLoggable(a, txn);
    RecordOpsShape(a, START, txn);
    LogPhases(Formatted(a, d).dev, rec, txn, Write(sup), n);
    if n <= |rec| {
      applied := FirstAtomic(a, d, txn, n, image);
    } else {
      applied := true;
      UnsettledLogged(a, d, txn, n, image, rec, sup);
    }
  }

  lemma {:induction false} UnsettledLogged(a: Area, d: Disk, txn: Txn, n: nat, image: Disk, rec: seq<Put>, sup: Put)
    requires Fits(a, d) && Loggable(txn, a.logBlocks, a.fsBlocks)
    requires rec == RecordPuts(a, 0, 1, txn) && sup == SuperPut(a, Advanced(a, START, |txn|))
    requires |rec| < n <= |LogProgram(rec, txn, Write(sup))|
    requires Torn(Exec(Formatted(a, d).dev, LogProgram(rec, txn, Write(sup))[..n]), image)
    requires Ends(a, Stamp(RingOf(a, d)[0 := Raw(Pad([]))], 0, Record(a.crc, txn, 1)), 0, 1, txn)
    ensures RecoversTo(a, image, Apply(FsOf(a, d), txn))
  {
    var dev := Durable(a, d).dev;
    DurableRests(a, d);
    StampWritten(a, RingOf(a, dev.stable), START, txn);
    LogPhases(Formatted(a, d).dev, rec, txn, Write(sup), n);
    LogPhases(dev, rec, txn, Write(sup), n);
    ApplyConcat(d, FormatPuts(a), rec);
    assert [] + rec == rec;
    LoggedCut(a, dev, START, FsOf(a, d), txn, n, image, rec, sup);
  }

  /** On a blank disk that opens. */
  lemma BlankFirstSafe(a: Area, d: Disk, txn: Txn, n: nat, image: Disk)
    requires Blank(a, d) && Plain(txn) && Fits(a, image) && image[a.fsBlocks].Super?
    requires n <= |CommitOps(a, START, txn)| && Torn(Exec(Formatted(a, d).dev, CommitOps(a, START, txn)[..n]), image)
    requires Logs(a, txn) ==> Harmless(a, d, txn)
    ensures FirstSafe(a, d, txn, n, image)
  {
    FirstOps(a, txn);
    if Logs(a, txn) {
      BlankRecord(a, d, txn, n, image);
    } else {
      FormatImage(a, d, image);
      UnwrittenTidy(a.crc, RingOf(a, d));
    }
  }

  lemma BlankRecord(a: Area, d: Disk, txn: Txn, n: nat, image: Disk)
    requires Blank(a, d) && Plain(txn) && Logs(a, txn) && Fits(a, image) && image[a.fsBlocks].Super?
    requires n <= |RecordOps(a, START, txn)| && Torn(Exec(Formatted(a, d).dev, RecordOps(a, START, txn)[..n]), image)
    requires Harmless(a, d, txn)
    ensures FirstSafe(a, d, txn, n, image)
  {
    var rec := RecordPuts(a, 0, 1, txn);
    DoneLoggable(a, txn);
    if n <= |rec| {
      RecordOpsShape(a, START, txn);
      LogPhases(Formatted(a, d).dev, rec, txn, Write(SuperPut(a, Advanced(a, START, |txn|))), n);
      var ring := FirstImage(a, d, txn, n, image);
    } else {
      DurableReady(a, d);
      DurableRests(a, d);
      StampStamped(a, RingOf(a, Durable(a, d).dev.stable), START, txn);
    }
  }

  /**
   * Format without a barrier, any number of commits, then a power cut after any number of operations of
   * one more commit, then any number of recovery attempts each cut short, any part of the cache surviving
   * every cut, on a disk that still opens: the recovery that completes leaves the filesystem of the
   * returned commits, plus the interrupted one wholly or not at all, wholly if its commit had returned
   * and not at all if it was refused.
   */
  lemma TornHistory(a: Area, blank: Disk, txns: seq<Txn>, sys: Sys, txn: Txn, n: nat, d: Disk, tries: seq<Attempt>,
                    last: Disk, fs: Disk) returns (applied: bool)
    requires Blank(a, blank) && Plain(txn) && forall i :: 0 <= i < |txns| ==> Plain(txns[i])
    requires sys == CommitAll(a, Formatted(a, blank), txns) && fs == FsAfter(a, FsOf(a, blank), txns)
    requires Logs(a, txn) ==> Vouched(a, sys, txn)
    requires sys.p.tail < a.logBlocks && n <= |CommitOps(a, sys.p, txn)|
    requires Torn(Exec(sys.dev, CommitOps(a, sys.p, txn)[..n]), d) && Attempts(a, d, tries, last)
    requires Fits(a, d) && d[a.fsBlocks].Super?
    ensures RecoversTo(a, last, Outcome(fs, txn, applied))
    ensures a.fsBlocks <= |last| == |View(Exec(Dev(last, []), OpsOn(a, last)))|
    ensures FsOf(a, View(Exec(Dev(last, []), OpsOn(a, last)))) == Outcome(fs, txn, applied)
    ensures CommitStatus(a, txn) != Done ==> !applied
    ensures n == |CommitOps(a, sys.p, txn)| ==> Outcome(fs, txn, applied) == Committed(a, fs, txn)
  {
    HistoryForgets(a, blank, txns);
    DurableReady(a, blank);
    HistoryFresh(a, Durable(a, blank), FsOf(a, blank), txns);
    if sys == CommitAll(a, Durable(a, blank), txns) {
      applied := HistoryCut(a, sys, fs, txn, n, d);
    } else {
      if Logs(a, txn) {
        DoneLoggable(a, txn);
        VouchedHarmless(a, blank, txn);
      }
      BlankFirstSafe(a, blank, txn, n, d);
      applied := UnsettledCut(a, blank, txn, n, d);
    }
    AttemptsRestart(a, d, Outcome(fs, txn, applied), tries, last);
    RecoveryCompletes(a, last, Outcome(fs, txn, applied));
    RecoveryEnds(a, last);
  }

  lemma HistoryCut(a: Area, sys: Sys, fs: Disk, txn: Txn, n: nat, d: Disk) returns (applied: bool)
    requires Fresh(a, sys, fs) && Plain(txn) && (Logs(a, txn) ==> Vouched(a, sys, txn))
    requires n <= |CommitOps(a, sys.p, txn)| && Torn(Exec(sys.dev, CommitOps(a, sys.p, txn)[..n]), d)
    ensures RecoversTo(a, d, Outcome(fs, txn, applied))
    ensures CommitStatus(a, txn) != Done ==> !applied
    ensures n == |CommitOps(a, sys.p, txn)| ==> Outcome(fs, txn, applied) == Committed(a, fs, txn)
  {
    assert Torn(sys.dev, sys.dev.stable);
    applied := FreshCut(a, sys, fs, txn, n, d);
  }
}
