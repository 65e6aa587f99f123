/** Whole runs with any number of power cuts, on a device that keeps a prefix of its unflushed writes. */
module Ordered {
  import opened Disks
  import opened Ring
  import opened Journal
  import opened Recovery
  import opened TornRing
  import opened CutRing
  import opened Commits

  /**
   * Nothing on the ring can pass for the record numbered `s`: no commit block carries that number
   * or a later one, and a descriptor that does is the leftover at the slot the next record takes.
   */
  ghost predicate Quiet(ring: Disk, s: nat, head: nat) {
    Tidy(ring, s, head) && forall q :: 0 <= q < |ring| && ring[q].Commit? ==> ring[q].seqNo < s
  }

  /** Recovering `d` makes `fs`, and the log it leaves is quiet. */
  ghost predicate OkImage(a: Area, d: Disk, fs: Disk) {
    && RecoversTo(a, d, fs)
    && Quiet(RingOf(a, d), d[a.fsBlocks].nextSeq + ScanOf(a, d).replayed, ScanOf(a, d).pos)
  }

  /** Between calls. */
  ghost predicate AtRest(a: Area, dev: Dev, p: Pointers, fs: Disk) {
    && Fits(a, dev.stable) && FsOf(a, dev.stable) == fs && p.head < a.logBlocks && p.tail < a.logBlocks
    && Leads(RingOf(a, dev.stable), p.tail, Used(a, p), p.head, p.nextSeq)
    && Quiet(RingOf(a, dev.stable), p.nextSeq, p.head)
    && (dev.cache == [] || dev.cache == [SuperPut(a, p)])
    && (dev.cache == [] ==> dev.stable[a.fsBlocks] == SuperPut(a, p).block)
    && OkImage(a, dev.stable, fs) && OkImage(a, dev.stable[a.fsBlocks := SuperPut(a, p).block], fs)
  }

  // ─── quiet rings ───────────────────────────────────────────────────────────

  lemma BelowQuiet(ring: Disk, s: nat, head: nat)
    requires Below(ring, s) && head < |ring|
    ensures Quiet(ring, s, head)
  {
  }

  lemma QuietDead(crc: Checksum, ring: Disk, s: nat, head: nat)
    requires Quiet(ring, s, head)
    ensures NoneNumbered(crc, ring, s)
  {
  }

  lemma QuietScan(crc: Checksum, ring: Disk, fs: nat, s: nat, pos: nat)
    requires Quiet(ring, s, pos)
    ensures var r := Scan(crc, ring, fs, pos, s);
            r.ok && r.puts == [] && r.replayed == 0 && Dead(crc, ring, r.pos, s) && Quiet(ring, s, r.pos)
  {
    QuietDead(crc, ring, s, pos);
    DeadScan(crc, ring, fs, pos, s);
    if ring[pos].Desc? && ring[pos].seqNo >= s {
      SkipNone(ring, pos, s, |ring|);
    } else {
      assert Below(ring, s);
    }
  }

  // ─── recovery on an ordered device ─────────────────────────────────────────

  lemma OkSuper(a: Area, d: Disk, fs: Disk, p: Pointers)
    requires Fits(a, d) && FsOf(a, d) == fs && p.head == p.tail && Quiet(RingOf(a, d), p.nextSeq, p.tail)
    ensures OkImage(a, d[a.fsBlocks := SuperPut(a, p).block], fs)
  {
    QuietDead(a.crc, RingOf(a, d), p.nextSeq, p.tail);
    EmptiedRecovers(a, d, RingOf(a, d), fs, p);
    QuietScan(a.crc, RingOf(a, d), a.fsBlocks, p.nextSeq, p.tail);
  }

  lemma OkSameLog(a: Area, d: Disk, d': Disk, fs: Disk)
    requires OkImage(a, d, fs) && RecoversTo(a, d', fs) && |d'| == |d|
    requires d'[a.fsBlocks] == d[a.fsBlocks] && RingOf(a, d') == RingOf(a, d)
    ensures OkImage(a, d', fs)
  {
  }

  lemma OkRestarts(a: Area, d: Disk, fs: Disk, n: nat, d': Disk)
    requires OkImage(a, d, fs) && n <= |OpsOn(a, d)|
    requires Torn(Exec(Dev(d, []), OpsOn(a, d)[..n]), d')
    ensures OkImage(a, d', fs)
  {
    var r := ScanOf(a, d);
    ScanShape(a, d);
    RecoverPhases(a, d, r, d[a.fsBlocks].nextSeq, n);
    var dev := Exec(Dev(d, []), OpsOn(a, d)[..n]);
    if n <= |r.puts| && dev == Dev(d, r.puts[..n]) {
      OkMixture(a, d, fs, n, d');
    } else {
      OkReplayed(a, d, fs, dev.cache, d');
    }
  }

  lemma OkMixture(a: Area, d: Disk, fs: Disk, n: nat, d': Disk)
    requires OkImage(a, d, fs) && n <= |ScanOf(a, d).puts| && Torn(Dev(d, ScanOf(a, d).puts[..n]), d')
    ensures OkImage(a, d', fs)
  {
    ScanShape(a, d);
    TornLow(d, ScanOf(a, d).puts, n, a.fsBlocks, d');
    MixtureRecovers(a, d, d', fs);
    SameScan(a, d, d');
    OkSameLog(a, d, d', fs);
  }

  lemma {:induction false} OkReplayed(a: Area, d: Disk, fs: Disk, cache: seq<Put>, d': Disk)
    requires OkImage(a, d, fs) && (cache == [] || cache == [SuperPut(a, PointersAfter(a, d))])
    requires Torn(Dev(Apply(d, ScanOf(a, d).puts), cache), d')
    ensures OkImage(a, d', fs)
  {
    var done := Apply(d, ScanOf(a, d).puts);
    ReplayedRecovers(a, d, fs);
    OkSameLog(a, d, done, fs);
    OkSuper(a, done, fs, PointersAfter(a, d));
    OkSettled(a, done, PointersAfter(a, d), cache, d');
  }

  lemma OkSettled(a: Area, done: Disk, p: Pointers, cache: seq<Put>, d': Disk)
    requires a.fsBlocks < |done| && (cache == [] || cache == [SuperPut(a, p)]) && Torn(Dev(done, cache), d')
    ensures d' == done || d' == done[a.fsBlocks := SuperPut(a, p).block]
  {
    if cache == [] {
      TornNone(done, d');
    } else {
      TornOne(done, SuperPut(a, p), d');
    }
  }

  lemma RecoveredAtRest(a: Area, d: Disk, fs: Disk)
    requires OkImage(a, d, fs)
    ensures AtRest(a, Exec(Dev(d, []), OpsOn(a, d)), PointersAfter(a, d), fs)
  {
    RecoveryEnds(a, d);
    ReplayedRecovers(a, d, fs);
    var done := Apply(d, ScanOf(a, d).puts);
    OkSameLog(a, d, done, fs);
    OkSuper(a, done, fs, PointersAfter(a, d));
  }

  // ─── commit on an ordered device ───────────────────────────────────────────

  /** Of the writes `cache + rec`, some prefix: either part of the cache, or all of it and a prefix of the record. */
  lemma {:induction false} PrefixOf(d: Disk, cache: seq<Put>, rec: seq<Put>, k: nat)
    requires k <= |cache + rec|
    ensures k <= |cache| ==> Apply(d, (cache + rec)[..k]) == Apply(d, cache[..k])
    ensures k >= |cache| ==> Apply(d, (cache + rec)[..k]) == Apply(Apply(d, cache), rec[..k - |cache|])
  {
    if k <= |cache| {
      assert (cache + rec)[..k] == cache[..k];
    }
    if k >= |cache| {
      assert (cache + rec)[..k] == cache + rec[..k - |cache|];
      ApplyConcat(d, cache, rec[..k - |cache|]);
    }
  }

  /** A descriptor without its commit block: the scan stops there, and the log stays quiet. */
  lemma PrefixScan(crc: Checksum, ring: Disk, fs: nat, tail: nat, len: nat, at: nat, s: nat)
    requires Leads(ring, tail, len, at, s) && Quiet(ring, s, at) && ring[at].Desc? && ring[at].seqNo == s
    ensures Scan(crc, ring, fs, tail, s) == Scanned([], 0, at, true) && Dead(crc, ring, at, s)
  {
    var left := |ring| - len;
    QuietDead(crc, ring, s, at);
    PathSkip(ring, tail, len, at, s, |ring|, left);
    SkipNone(ring, at, s, left);
    DeadReplay(crc, ring, fs, at, s, left);
  }

  lemma PrefixQuiet(crc: Checksum, ring: Disk, at: nat, s: nat, txn: Txn, j: nat)
    requires Quiet(ring, s, at) && Plain(txn) && |txn| + 2 <= |ring| && 0 < j < |txn| + 2
    ensures var ring' := Stamp(ring, at, Record(crc, txn, s)[..j]);
            Quiet(ring', s, at) && ring'[at] == Desc(s, Targets(txn))
  {
    var rec := Record(crc, txn, s);
    var ring' := Stamp(ring, at, rec[..j]);
    assert Dist(at, at, |ring|) == 0;
    forall q | 0 <= q < |ring|
      ensures ring'[q].Commit? ==> ring'[q].seqNo < s
      ensures ring'[q].Desc? && ring'[q].seqNo >= s ==> q == at && ring'[q].seqNo == s
    {
      var i := Dist(at, q, |ring|);
      if i < j {
        StampedKinds(crc, txn, s, i);
      }
    }
  }

  /** With the whole record there, nothing is numbered beyond it. */
  lemma QuietStamped(crc: Checksum, ring: Disk, at: nat, s: nat, txn: Txn)
    requires Quiet(ring, s, at) && |txn| + 2 <= |ring| && Plain(txn)
    ensures Below(Stamp(ring, at, Record(crc, txn, s)), s + 1)
  {
    var ring' := Stamp(ring, at, Record(crc, txn, s));
    forall q | 0 <= q < |ring| && (ring'[q].Desc? || ring'[q].Commit?) ensures ring'[q].seqNo < s + 1 {
      if Dist(at, q, |ring|) < |txn| + 2 { StampedKinds(crc, txn, s, Dist(at, q, |ring|)); }
    }
  }

  lemma {:induction false} LoggedOk(a: Area, d: Disk, p: Pointers, fs: Disk, txn: Txn)
    requires Fits(a, d) && Stamped(a, RingOf(a, d), p, txn) && |fs| == a.fsBlocks && Current(a, d[a.fsBlocks], p)
    requires Below(RingOf(a, d), p.nextSeq + 1)
    requires forall x :: 0 <= x < a.fsBlocks ==> d[x] == fs[x] || Put(x, d[x]) in txn
    ensures OkImage(a, d, Apply(fs, txn))
  {
    LoggedRecovers(a, d, p, fs, txn);
    var next := Slot(p.head + |txn| + 2, a.logBlocks);
    DeadHere(a.crc, RingOf(a, d), next, p.nextSeq + 1);
    ScanWhole(a.crc, RingOf(a, d), a.fsBlocks, p.tail, Used(a, p), p.head, p.nextSeq, txn, next);
    BelowQuiet(RingOf(a, d), p.nextSeq + 1, ScanOf(a, d).pos);
  }

  lemma AcknowledgedOk(a: Area, d: Disk, sb: Block, ring: Disk, fs: Disk)
    requires Holds(a, d, sb, ring, fs) && Below(ring, sb.nextSeq)
    ensures OkImage(a, d, fs)
  {
    BelowQuiet(ring, sb.nextSeq, sb.tail);
    QuietDead(a.crc, ring, sb.nextSeq, sb.tail);
    DeadSettles(a.crc, ring, fs, sb.tail, sb.nextSeq);
    Recovers(a, d, sb, ring, fs, fs);
    QuietScan(a.crc, ring, a.fsBlocks, sb.nextSeq, sb.tail);
  }

  /** The stable image with the current superblock: where the record's blocks start arriving. */
  ghost predicate Poised(a: Area, d: Disk, p: Pointers, fs: Disk) {
    && p.head < a.logBlocks && p.tail < a.logBlocks && Fits(a, d)
    && Holds(a, d, SuperPut(a, p).block, RingOf(a, d), fs)
    && Leads(RingOf(a, d), p.tail, Used(a, p), p.head, p.nextSeq) && Quiet(RingOf(a, d), p.nextSeq, p.head)
  }

  lemma PartialOk(a: Area, d: Disk, p: Pointers, ring: Disk, fs: Disk)
    requires Holds(a, d, SuperPut(a, p).block, ring, fs) && p.head < a.logBlocks && p.tail < a.logBlocks
    requires Leads(ring, p.tail, Used(a, p), p.head, p.nextSeq) && Quiet(ring, p.nextSeq, p.head)
    requires ring[p.head].Desc? && ring[p.head].seqNo == p.nextSeq
    ensures OkImage(a, d, fs)
  {
    PrefixScan(a.crc, ring, a.fsBlocks, p.tail, Used(a, p), p.head, p.nextSeq);
    Recovers(a, d, SuperPut(a, p).block, ring, fs, fs);
  }

  /** A proper, non-empty prefix of the record: not applied. */
  lemma {:induction false} PartialRecord(a: Area, d: Disk, p: Pointers, fs: Disk, txn: Txn, j: nat)
    requires Poised(a, d, p, fs) && Loggable(txn, a.logBlocks, a.fsBlocks) && !NeedsReclaim(a, p, |txn|)
    requires 0 < j < |txn| + 2
    ensures OkImage(a, Apply(d, LogPuts(a, p.head, Record(a.crc, txn, p.nextSeq)[..j])), fs)
  {
    var ring, rec := RingOf(a, d), Record(a.crc, txn, p.nextSeq)[..j];
    var ring' := Stamp(ring, p.head, rec);
    LogPutsRing(a, d, p.head, rec);
    PrefixQuiet(a.crc, ring, p.head, p.nextSeq, txn, j);
    StampPartly(ring, p.head, rec);
    PathUncut(ring, ring', p.tail, Used(a, p), p.head, rec, p.nextSeq);
    PartialOk(a, Apply(d, LogPuts(a, p.head, rec)), p, ring', fs);
  }

  /** The whole record: applied. */
  lemma {:induction false} WholeRecord(a: Area, d: Disk, p: Pointers, fs: Disk, txn: Txn)
    requires Poised(a, d, p, fs) && Loggable(txn, a.logBlocks, a.fsBlocks) && !NeedsReclaim(a, p, |txn|)
    ensures var d' := Apply(d, RecordPuts(a, p.head, p.nextSeq, txn));
            && Fits(a, d') && Holds(a, d', SuperPut(a, p).block, RingOf(a, d'), fs)
            && Stamped(a, RingOf(a, d'), p, txn) && Below(RingOf(a, d'), p.nextSeq + 1)
            && OkImage(a, d', Apply(fs, txn))
  {
    LogPutsRing(a, d, p.head, Record(a.crc, txn, p.nextSeq));
    var d' := Apply(d, RecordPuts(a, p.head, p.nextSeq, txn));
    StampStamped(a, RingOf(a, d), p, txn);
    QuietStamped(a.crc, RingOf(a, d), p.head, p.nextSeq, txn);
    assert forall x :: 0 <= x < a.fsBlocks ==> d'[x] == FsOf(a, d')[x];
    LoggedOk(a, d', p, fs, txn);
  }
}
