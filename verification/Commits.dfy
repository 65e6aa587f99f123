/** The commit protocol from the record's barrier on, and the whole commit. */
module Commits {
  import opened Disks
  import opened Ring
  import opened Journal
  import opened Recovery
  import opened TornRing
  import opened BehindRing
  import opened CutRing
  import opened Crash

  // ─── the ring with the whole record ────────────────────────────────────────

  lemma StampSnoc(ring: Disk, at: nat, done: seq<Block>, b: Block)
    requires at < |ring| && |done| < |ring|
    ensures Stamp(ring, at, done + [b]) == Stamp(ring, at, done)[Slot(at + |done|, |ring|) := b]
  {
    var x := Slot(at + |done|, |ring|);
    assert Dist(at, x, |ring|) == |done|;
  }

  /** Writing log blocks touches exactly their slots. */
  lemma {:induction false} LogPutsRing(a: Area, d: Disk, at: nat, blocks: seq<Block>)
    requires Fits(a, d) && at < a.logBlocks && |blocks| <= a.logBlocks
    ensures var d' := Apply(d, LogPuts(a, at, blocks));
            && FsOf(a, d') == FsOf(a, d) && d'[a.fsBlocks] == d[a.fsBlocks]
            && RingOf(a, d') == Stamp(RingOf(a, d), at, blocks)
    decreases |blocks|
  {
    if blocks == [] {
      assert Stamp(RingOf(a, d), at, []) == RingOf(a, d);
    } else {
      var n := |blocks| - 1;
      var done, b := blocks[..n], blocks[n];
      assert blocks == done + [b];
      var put := Put(LogAddr(a, at + n), b);
      assert LogPuts(a, at, blocks) == LogPuts(a, at, done) + [put];
      LogPutsRing(a, d, at, done);
      ApplyConcat(d, LogPuts(a, at, done), [put]);
      var d1 := Apply(d, LogPuts(a, at, done));
      ApplyOne(d1, put);
      StampSnoc(RingOf(a, d), at, done, b);
      RingStore(a, d1, Slot(at + n, a.logBlocks), b);
    }
  }

  lemma RingStore(a: Area, d: Disk, q: nat, b: Block)
    requires Fits(a, d) && q < a.logBlocks
    ensures var d' := d[a.fsBlocks + 1 + q := b];
            FsOf(a, d') == FsOf(a, d) && d'[a.fsBlocks] == d[a.fsBlocks] && RingOf(a, d') == RingOf(a, d)[q := b]
  {
  }

  /** The record of `txn` is on the ring, and the acknowledged records lead to it. */
  ghost predicate Written(a: Area, ring: Disk, p: Pointers, txn: Txn) {
    && 0 < |ring| == a.logBlocks && p.head < |ring| && p.tail < |ring| && Loggable(txn, |ring|, a.fsBlocks)
    && |txn| + 2 + Used(a, p) <= |ring|
    && Leads(ring, p.tail, Used(a, p), p.head, p.nextSeq)
    && RecordIn(a.crc, ring, p.head, p.nextSeq, txn)
  }

  /** Nothing is to be replayed behind the record of `txn`, numbered `s`, at `at`. */
  ghost predicate Ends(a: Area, ring: Disk, at: nat, s: nat, txn: Txn)
    requires 0 < a.logBlocks
  {
    Dead(a.crc, ring, Slot(at + |txn| + 2, a.logBlocks), s + 1)
  }

  /** The record of `txn` is on the ring, and nothing follows. */
  ghost predicate Stamped(a: Area, ring: Disk, p: Pointers, txn: Txn) {
    Written(a, ring, p, txn) && Ends(a, ring, p.head, p.nextSeq, txn)
  }

  lemma StampRecordIn(crc: Checksum, ring: Disk, at: nat, s: nat, txn: Txn)
    requires at < |ring| && |txn| + 2 <= |ring|
    ensures RecordIn(crc, Stamp(ring, at, Record(crc, txn, s)), at, s, txn)
  {
    var rec := Record(crc, txn, s);
    forall i | 0 <= i < |txn| + 2 ensures At(Stamp(ring, at, rec), at + i) == rec[i] {
      assert Dist(at, Slot(at + i, |ring|), |ring|) == i;
    }
  }

  lemma StampPartly(ring: Disk, at: nat, rec: seq<Block>)
    requires at < |ring|
    ensures Partly(ring, Stamp(ring, at, rec), at, rec)
  {
    var ring' := Stamp(ring, at, rec);
    forall q | 0 <= q < |ring| ensures May(ring, at, rec, q, ring'[q]) {
    }
  }

  /** A commit with room for its record puts it behind the live ones. */
  lemma StampWritten(a: Area, ring: Disk, p: Pointers, txn: Txn)
    requires 0 < |ring| == a.logBlocks && p.tail < |ring| && Leads(ring, p.tail, Used(a, p), p.head, p.nextSeq)
    requires Loggable(txn, a.logBlocks, a.fsBlocks) && !NeedsReclaim(a, p, |txn|)
    ensures Written(a, Stamp(ring, p.head, Record(a.crc, txn, p.nextSeq)), p, txn)
  {
    var rec := Record(a.crc, txn, p.nextSeq);
    StampPartly(ring, p.head, rec);
    PathUncut(ring, Stamp(ring, p.head, rec), p.tail, Used(a, p), p.head, rec, p.nextSeq);
    StampRecordIn(a.crc, ring, p.head, p.nextSeq, txn);
  }

  /** On a tidy ring nothing can be numbered beyond it. */
  lemma StampStamped(a: Area, ring: Disk, p: Pointers, txn: Txn)
    requires 0 < |ring| == a.logBlocks && p.tail < |ring| && Leads(ring, p.tail, Used(a, p), p.head, p.nextSeq)
    requires Tidy(ring, p.nextSeq, p.head) && Loggable(txn, a.logBlocks, a.fsBlocks) && !NeedsReclaim(a, p, |txn|)
    ensures var ring' := Stamp(ring, p.head, Record(a.crc, txn, p.nextSeq));
            Stamped(a, ring', p, txn) && Tidy(ring', p.nextSeq, p.head)
  {
    var rec := Record(a.crc, txn, p.nextSeq);
    var ring' := Stamp(ring, p.head, rec);
    StampPartly(ring, p.head, rec);
    TidyPartly(a.crc, ring, ring', p.nextSeq, p.head, txn);
    TidyNext(a.crc, ring', p.nextSeq, p.head);
    StampWritten(a, ring, p, txn);
    NoneDead(a.crc, ring', Slot(p.head + |txn| + 2, a.logBlocks), p.nextSeq + 1);
  }

  // ─── after the record's barrier ────────────────────────────────────────────

  /** The superblock that goes with the pointers `p`, wherever it says the head is. */
  ghost predicate Current(a: Area, sb: Block, p: Pointers) {
    Sane(a, sb) && sb.tail == p.tail && sb.nextSeq == p.nextSeq
  }

  lemma {:induction false} WholeSettles(crc: Checksum, ring: Disk, now: Disk, fs: Disk, tail: nat, len: nat, at: nat,
                                        s: nat, txn: Txn, next: nat)
    requires Leads(ring, tail, len, at, s) && RecordIn(crc, ring, at, s, txn)
    requires next == Slot(at + |txn| + 2, |ring|) && Dead(crc, ring, next, s + 1)
    requires |now| == |fs| && Loggable(txn, |ring|, |fs|)
    requires forall x :: 0 <= x < |fs| ==> now[x] == fs[x] || Put(x, now[x]) in txn
    ensures Settles(crc, ring, now, tail, s, Apply(fs, txn)) && Scan(crc, ring, |now|, tail, s).replayed == 1
  {
    DeadHere(crc, ring, next, s + 1);
    ScanWhole(crc, ring, |now|, tail, len, at, s, txn, next);
    MixtureForgets(now, fs, txn);
  }

  /** The record is durable and the checkpoint under way: recovery finishes the transaction. */
  lemma {:induction false} LoggedRecovers(a: Area, d: Disk, p: Pointers, fs: Disk, txn: Txn)
    requires Fits(a, d) && Stamped(a, RingOf(a, d), p, txn) && |fs| == a.fsBlocks && Current(a, d[a.fsBlocks], p)
    requires forall x :: 0 <= x < a.fsBlocks ==> d[x] == fs[x] || Put(x, d[x]) in txn
    ensures RecoversAt(a, d, Apply(fs, txn), p.nextSeq + 1)
  {
    var ring, now := RingOf(a, d), FsOf(a, d);
    WholeSettles(a.crc, ring, now, fs, p.tail, Used(a, p), p.head, p.nextSeq, txn,
                 Slot(p.head + |txn| + 2, a.logBlocks));
    Recovers(a, d, d[a.fsBlocks], ring, now, Apply(fs, txn));
  }

  lemma CachedDisk(a: Area, dev: Dev, p: Pointers, fs: Disk)
    requires Kept(a, dev, p, fs)
    ensures Holds(a, Apply(dev.stable, dev.cache), SuperPut(a, p).block, RingOf(a, dev.stable), fs)
  {
    var sb := SuperPut(a, p).block;
    ApplyOne(dev.stable, SuperPut(a, p));
    UnderSuper(a, dev.stable, sb);
    assert dev.stable[a.fsBlocks] == sb ==> dev.stable[a.fsBlocks := sb] == dev.stable;
  }

  /** The stable image right after the record's barrier. */
  lemma LoggedDisk(a: Area, dev: Dev, p: Pointers, fs: Disk, txn: Txn)
    requires Kept(a, dev, p, fs) && Loggable(txn, a.logBlocks, a.fsBlocks) && !NeedsReclaim(a, p, |txn|)
    ensures var d := Apply(dev.stable, dev.cache + RecordPuts(a, p.head, p.nextSeq, txn));
            && Fits(a, d) && FsOf(a, d) == fs && Written(a, RingOf(a, d), p, txn) && Current(a, d[a.fsBlocks], p)
            && RingOf(a, d) == Stamp(RingOf(a, dev.stable), p.head, Record(a.crc, txn, p.nextSeq))
  {
    ApplyConcat(dev.stable, dev.cache, RecordPuts(a, p.head, p.nextSeq, txn));
    CachedDisk(a, dev, p, fs);
    LogPutsRing(a, Apply(dev.stable, dev.cache), p.head, Record(a.crc, txn, p.nextSeq));
    StampWritten(a, RingOf(a, dev.stable), p, txn);
  }

  /** A cut while the checkpoint is on its way to the medium. */
  lemma {:induction false} CheckpointCut(a: Area, d0: Disk, p: Pointers, fs: Disk, txn: Txn, m: nat, d: Disk)
    requires Fits(a, d0) && FsOf(a, d0) == fs && Stamped(a, RingOf(a, d0), p, txn) && m <= |txn|
    requires Current(a, d0[a.fsBlocks], p) && Torn(Dev(d0, txn[..m]), d)
    ensures RecoversAt(a, d, Apply(fs, txn), p.nextSeq + 1)
  {
    forall x | 0 <= x < |d| ensures d[x] == d0[x] || (x < a.fsBlocks && Put(x, d[x]) in txn) {
      if d[x] != d0[x] {
        var i := IndexIn(txn, m, Put(x, d[x]));
      }
    }
    assert d[a.fsBlocks..] == d0[a.fsBlocks..];
    SameScan(a, d0, d);
    LoggedRecovers(a, d, p, fs, txn);
  }

  /** The image once the checkpoint is durable. */
  lemma {:induction false} CheckpointedDisk(a: Area, d0: Disk, p: Pointers, fs: Disk, txn: Txn)
    requires Fits(a, d0) && FsOf(a, d0) == fs && Written(a, RingOf(a, d0), p, txn) && d0[a.fsBlocks].Super?
    ensures var d := Apply(d0, txn);
            && Fits(a, d) && FsOf(a, d) == Apply(fs, txn)
            && RingOf(a, d) == RingOf(a, d0) && d[a.fsBlocks] == d0[a.fsBlocks]
  {
    ApplyLow(d0, txn, a.fsBlocks);
    SameScan(a, d0, Apply(d0, txn));
  }

  lemma AdvancedRecovers(a: Area, d0: Disk, p: Pointers, fs: Disk, txn: Txn)
    requires Fits(a, d0) && Stamped(a, RingOf(a, d0), p, txn) && FsOf(a, d0) == fs
    ensures RecoversAt(a, d0[a.fsBlocks := SuperPut(a, Advanced(a, p, |txn|)).block], fs, p.nextSeq + 1)
  {
    var ring, sb := RingOf(a, d0), SuperPut(a, Advanced(a, p, |txn|)).block;
    UnderSuper(a, d0, sb);
    AdvancedSettles(a, ring, p, fs, txn, p.tail, p.nextSeq + 1);
    Recovers(a, d0[a.fsBlocks := sb], sb, ring, fs, fs);
  }

  lemma AdvancedSettles(a: Area, ring: Disk, p: Pointers, fs: Disk, txn: Txn, tail: nat, s: nat)
    requires Stamped(a, ring, p, txn) && tail == p.tail && s == p.nextSeq + 1
    ensures Settles(a.crc, ring, fs, tail, s, fs) && Scan(a.crc, ring, |fs|, tail, s).replayed == 0
  {
    AdvancedLeads(a, ring, p, txn);
    PathSettles(a.crc, ring, fs, tail, Used(a, Advanced(a, p, |txn|)), Slot(p.head + |txn| + 2, a.logBlocks), s);
  }

  /** The head advance is the only write in flight. */
  lemma {:induction false} AdvanceCut(a: Area, d0: Disk, p: Pointers, fs: Disk, txn: Txn, cache: seq<Put>, d: Disk)
    requires Fits(a, d0) && Stamped(a, RingOf(a, d0), p, txn) && FsOf(a, d0) == Apply(fs, txn) && |fs| == a.fsBlocks
    requires Current(a, d0[a.fsBlocks], p) && (cache == [] || cache == [SuperPut(a, Advanced(a, p, |txn|))])
    requires Torn(Dev(d0, cache), d)
    ensures RecoversAt(a, d, Apply(fs, txn), p.nextSeq + 1)
  {
    var fs' := Apply(fs, txn);
    ApplyTwice(fs, txn);
    LoggedRecovers(a, d0, p, fs', txn);
    if cache == [] {
      TornNone(d0, d);
    } else {
      TornOne(d0, cache[0], d);
      AdvancedRecovers(a, d0, p, fs', txn);
    }
  }

  // ─── back at rest ──────────────────────────────────────────────────────────

  lemma {:induction false} AdvancedPath(a: Area, ring: Disk, p: Pointers, txn: Txn)
    requires Written(a, ring, p, txn)
    ensures Path(ring, p.tail, Used(a, p) + |txn| + 2, p.nextSeq + 1)
  {
    RecordLive(a.crc, ring, p.head, p.nextSeq, txn);
    PathKept(ring, ring, p.tail, Used(a, p), p.nextSeq, p.nextSeq + 1);
    assert Hop(ring, p.head, p.nextSeq + 1) == |txn| + 2;
    PathAppend(ring, p.tail, Used(a, p), p.nextSeq + 1);
  }

  lemma AdvancedLeads(a: Area, ring: Disk, p: Pointers, txn: Txn)
    requires Written(a, ring, p, txn)
    ensures var p' := Advanced(a, p, |txn|);
            && p'.head < |ring| && Leads(ring, p'.tail, Used(a, p'), p'.head, p'.nextSeq)
            && Used(a, p') == if Used(a, p) + |txn| + 2 == |ring| then 0 else Used(a, p) + |txn| + 2
  {
    AdvancedPath(a, ring, p, txn);
  }

  /** The scan from the superblock before the head advance replays exactly the last record. */
  lemma {:induction false} AdvancedBehind(crc: Checksum, ring: Disk, fs: Disk, tail: nat, len: nat, at: nat, s: nat,
                                          txn: Txn, next: nat)
    requires Leads(ring, tail, len, at, s) && RecordIn(crc, ring, at, s, txn)
    requires next == Slot(at + |txn| + 2, |ring|) && Dead(crc, ring, next, s + 1)
    requires Loggable(txn, |ring|, |fs|) && Apply(fs, txn) == fs
    ensures Behind(crc, ring, fs, tail, s, next, s + 1)
  {
    DeadHere(crc, ring, next, s + 1);
    ScanWhole(crc, ring, |fs|, tail, len, at, s, txn, next);
  }

  lemma AdvancedRoomy(crc: Checksum, ring: Disk, tail: nat, len: nat, at: nat, s: nat, txn: Txn)
    requires Leads(ring, tail, len, at, s) && RecordIn(crc, ring, at, s, txn) && 0 < |txn| <= MAX_TARGETS
    requires len + |txn| + 2 <= |ring|
    ensures Start(ring, tail, s) == at && LiveAt(crc, ring, at, s) && SpanLen(ring, at) == |txn| + 2
    ensures Roomy(ring, tail, s, Slot(at + |txn| + 2, |ring|), s + 1)
  {
    var left := |ring| - len;
    RecordLive(crc, ring, at, s, txn);
    PathSkip(ring, tail, len, at, s, |ring|, left);
    SkipNone(ring, at, s, left);
    LeftOne(ring, tail, at, s, left);
  }

  lemma {:induction false} LeftOne(ring: Disk, tail: nat, at: nat, s: nat, left: nat)
    requires 0 < |ring| && Skip(ring, tail, s, |ring|) == Cursor(at, left)
    ensures Left(ring, tail, s, Sub(s + 1, s)) == Sub(left, SpanLen(ring, at))
  {
    assert Sub(s + 1, s) == 1;
    assert Spare(ring, at, left, 1) == Sub(left, SpanLen(ring, at));
  }

  /** One transaction later, at rest if nothing is to be replayed behind its record. */
  lemma {:induction false} AdvancedHeld(a: Area, d0: Disk, p: Pointers, fs: Disk, txn: Txn)
    requires Fits(a, d0) && Written(a, RingOf(a, d0), p, txn) && FsOf(a, d0) == Apply(fs, txn) && |fs| == a.fsBlocks
    requires Current(a, d0[a.fsBlocks], p)
    ensures var p' := Advanced(a, p, |txn|); Held(a, Dev(d0, [SuperPut(a, p')]), p', Apply(fs, txn))
  {
    var ring, fs', p' := RingOf(a, d0), Apply(fs, txn), Advanced(a, p, |txn|);
    AdvancedLeads(a, ring, p, txn);
    if Dead(a.crc, ring, p'.head, p'.nextSeq) {
      ApplyTwice(fs, txn);
      AdvancedBehind(a.crc, ring, fs', p.tail, Used(a, p), p.head, p.nextSeq, txn, p'.head);
    }
  }

  /** On a tidy ring it is, and ready for the next. */
  lemma {:induction false} AdvancedReady(a: Area, d0: Disk, p: Pointers, fs: Disk, txn: Txn)
    requires Fits(a, d0) && Stamped(a, RingOf(a, d0), p, txn) && FsOf(a, d0) == Apply(fs, txn) && |fs| == a.fsBlocks
    requires Tidy(RingOf(a, d0), p.nextSeq, p.head) && Current(a, d0[a.fsBlocks], p)
    ensures var p' := Advanced(a, p, |txn|); Ready(a, Dev(d0, [SuperPut(a, p')]), p', Apply(fs, txn))
  {
    AdvancedHeld(a, d0, p, fs, txn);
    AdvancedRoomy(a.crc, RingOf(a, d0), p.tail, Used(a, p), p.head, p.nextSeq, txn);
  }

  // ─── a commit, operation by operation ──────────────────────────────────────

  function LogProgram(rec: seq<Put>, txn: Txn, sup: Op): seq<Op> {
    Writes(rec) + ([Flush] + (Writes(txn) + ([Flush] + [sup])))
  }

  lemma RecordOpsShape(a: Area, p: Pointers, txn: Txn)
    requires 0 < a.logBlocks
    ensures RecordOps(a, p, txn)
         == LogProgram(RecordPuts(a, p.head, p.nextSeq, txn), txn, Write(SuperPut(a, Advanced(a, p, |txn|))))
    ensures |RecordPuts(a, p.head, p.nextSeq, txn)| == |txn| + 2
  {
    var w, c := Writes(RecordPuts(a, p.head, p.nextSeq, txn)), Writes(txn);
    var s := [Write(SuperPut(a, Advanced(a, p, |txn|)))];
    assert w + [Flush] + c + [Flush] + s == w + ([Flush] + (c + ([Flush] + s)));
  }

  lemma {:induction false} LogPhases(dev: Dev, rec: seq<Put>, txn: Txn, sup: Op, n: nat)
    requires sup.Write? && n <= |rec| + |txn| + 3
    ensures |LogProgram(rec, txn, sup)| == |rec| + |txn| + 3
    ensures var d1 := Apply(dev.stable, dev.cache + rec);
            var now := Exec(dev, LogProgram(rec, txn, sup)[..n]);
            && (n <= |rec| ==> now == Dev(dev.stable, dev.cache + rec[..n]))
            && (|rec| < n <= |rec| + |txn| + 1 ==> now == Dev(d1, txn[..n - |rec| - 1]))
            && (n == |rec| + |txn| + 2 ==> now == Dev(Apply(d1, txn), []))
            && (n == |rec| + |txn| + 3 ==> now == Dev(Apply(d1, txn), [sup.put]))
  {
    ExecPrefix(dev, Writes(rec), [Flush] + (Writes(txn) + ([Flush] + [sup])), n);
    if n <= |rec| {
      ExecWritesPrefix(dev, rec, n);
    } else {
      ExecWrites(dev, rec);
      RestPhases(Dev(dev.stable, dev.cache + rec), txn, sup, n - |rec|);
    }
  }

  lemma {:induction false} RestPhases(dev: Dev, txn: Txn, sup: Op, n: nat)
    requires sup.Write? && 0 < n <= |txn| + 3
    ensures var now := Exec(dev, ([Flush] + (Writes(txn) + ([Flush] + [sup])))[..n]);
            && (n <= |txn| + 1 ==> now == Dev(View(dev), txn[..n - 1]))
            && (n == |txn| + 2 ==> now == Dev(Apply(View(dev), txn), []))
            && (n == |txn| + 3 ==> now == Dev(Apply(View(dev), txn), [sup.put]))
  {
    var c := Writes(txn);
    var dev1 := Dev(View(dev), []);
    ExecPrefix(dev, [Flush], c + ([Flush] + [sup]), n);
    ExecOne(dev, Flush);
    ExecPrefix(dev1, c, [Flush] + [sup], n - 1);
    if n - 1 <= |txn| {
      ExecWritesPrefix(dev1, txn, n - 1);
      assert [] + txn[..n - 1] == txn[..n - 1];
    } else {
      ExecWrites(dev1, txn);
      assert [] + txn == txn;
      TailPhases(Dev(View(dev), txn), true, sup.put, n - 1 - |txn|);
    }
  }

  /** A cut anywhere after the room for the record is there. */
  lemma RecordOpsCut(a: Area, dev: Dev, p: Pointers, fs: Disk, txn: Txn, n: nat, d: Disk) returns (applied: bool)
    requires Ready(a, dev, p, fs) && Loggable(txn, a.logBlocks, a.fsBlocks) && !NeedsReclaim(a, p, |txn|)
    requires var ring, sb := RingOf(a, dev.stable), dev.stable[a.fsBlocks];
             Safe(a, ring, sb, p, fs, txn) && Told(a.crc, ring, sb.tail, sb.nextSeq, p.head, p.nextSeq, txn)
    requires n <= |RecordOps(a, p, txn)| && Torn(Exec(dev, RecordOps(a, p, txn)[..n]), d)
    ensures RecoversTo(a, d, Outcome(fs, txn, applied))
    ensures n > |txn| + 2 ==> applied
  {
    var rec, sup := RecordPuts(a, p.head, p.nextSeq, txn), SuperPut(a, Advanced(a, p, |txn|));
    RecordOpsShape(a, p, txn);
    LogPhases(dev, rec, txn, Write(sup), n);
    if n <= |rec| {
      applied := RecordCut(a, dev, p, fs, txn, n, d);
    } else {
      StampStamped(a, RingOf(a, dev.stable), p, txn);
      LoggedCut(a, dev, p, fs, txn, n, d, rec, sup);
      applied := true;
    }
  }

  lemma {:induction false} LoggedCut(a: Area, dev: Dev, p: Pointers, fs: Disk, txn: Txn, n: nat, d: Disk, rec: seq<Put>,
                                     sup: Put)
    requires Kept(a, dev, p, fs) && Loggable(txn, a.logBlocks, a.fsBlocks) && !NeedsReclaim(a, p, |txn|)
    requires Stamped(a, Stamp(RingOf(a, dev.stable), p.head, Record(a.crc, txn, p.nextSeq)), p, txn)
    requires rec == RecordPuts(a, p.head, p.nextSeq, txn) && sup == SuperPut(a, Advanced(a, p, |txn|))
    requires |rec| < n <= |LogProgram(rec, txn, Write(sup))|
    requires Torn(Exec(dev, LogProgram(rec, txn, Write(sup))[..n]), d)
    ensures RecoversAt(a, d, Apply(fs, txn), p.nextSeq + 1)
  {
    var d1 := Apply(dev.stable, dev.cache + rec);
    LogPhases(dev, rec, txn, Write(sup), n);
    LoggedDisk(a, dev, p, fs, txn);
    if n <= |rec| + |txn| + 1 {
      CheckpointCut(a, d1, p, fs, txn, n - |rec| - 1, d);
    } else {
      CheckpointedDisk(a, d1, p, fs, txn);
      AdvanceCut(a, Apply(d1, txn), p, fs, txn, if n == |rec| + |txn| + 2 then [] else [sup], d);
    }
  }

  lemma {:induction false} RecordOpsHeld(a: Area, dev: Dev, p: Pointers, fs: Disk, txn: Txn)
    requires Kept(a, dev, p, fs) && Loggable(txn, a.logBlocks, a.fsBlocks) && !NeedsReclaim(a, p, |txn|)
    ensures var dev' := Exec(dev, RecordOps(a, p, txn));
            && Held(a, dev', Advanced(a, p, |txn|), Apply(fs, txn))
            && RingOf(a, dev'.stable) == Stamp(RingOf(a, dev.stable), p.head, Record(a.crc, txn, p.nextSeq))
            && Current(a, dev'.stable[a.fsBlocks], p) && dev'.cache == [SuperPut(a, Advanced(a, p, |txn|))]
  {
    var rec, sup := RecordPuts(a, p.head, p.nextSeq, txn), SuperPut(a, Advanced(a, p, |txn|));
    RecordOpsShape(a, p, txn);
    LogProgramEnd(dev, rec, txn, sup);
    var d1 := Apply(dev.stable, dev.cache + rec);
    LoggedDisk(a, dev, p, fs, txn);
    CheckpointedDisk(a, d1, p, fs, txn);
    AdvancedHeld(a, Apply(d1, txn), p, fs, txn);
  }

  lemma {:induction false} RecordOpsReady(a: Area, dev: Dev, p: Pointers, fs: Disk, txn: Txn)
    requires Kept(a, dev, p, fs) && Tidy(RingOf(a, dev.stable), p.nextSeq, p.head)
    requires Loggable(txn, a.logBlocks, a.fsBlocks) && !NeedsReclaim(a, p, |txn|)
    ensures var dev' := Exec(dev, RecordOps(a, p, txn));
            && Ready(a, dev', Advanced(a, p, |txn|), Apply(fs, txn))
            && RingOf(a, dev'.stable) == Stamp(RingOf(a, dev.stable), p.head, Record(a.crc, txn, p.nextSeq))
            && Current(a, dev'.stable[a.fsBlocks], p)
  {
    RecordOpsHeld(a, dev, p, fs, txn);
    var d := Exec(dev, RecordOps(a, p, txn)).stable;
    StampStamped(a, RingOf(a, dev.stable), p, txn);
    AdvancedReady(a, d, p, fs, txn);
  }

  lemma {:induction false} LogProgramEnd(dev: Dev, rec: seq<Put>, txn: Txn, sup: Put)
    ensures Exec(dev, LogProgram(rec, txn, Write(sup))) == Dev(Apply(Apply(dev.stable, dev.cache + rec), txn), [sup])
  {
    var ops := LogProgram(rec, txn, Write(sup));
    LogPhases(dev, rec, txn, Write(sup), |rec| + |txn| + 3);
    assert ops[..|ops|] == ops;
  }
}
