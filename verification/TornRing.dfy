/** Recovery scans over a ring on which any part of a new record may have arrived. */
module TornRing {
  import opened Disks
  import opened Ring

  ghost predicate Loggable(txn: Txn, n: nat, fs: nat) {
    && 0 < |txn| <= MAX_TARGETS && |txn| + 3 <= n
    && Plain(txn) && forall i :: 0 <= i < |txn| ==> txn[i].addr < fs
  }

  /** No image carries a journal magic. */
  ghost predicate Plain(txn: Txn) {
    forall i :: 0 <= i < |txn| ==> txn[i].block.Raw?
  }

  /** Every descriptor and commit block is numbered below `s`. */
  ghost predicate Below(ring: Disk, s: nat) {
    forall q :: 0 <= q < |ring| && (ring[q].Desc? || ring[q].Commit?) ==> ring[q].seqNo < s
  }

  /** No descriptor is numbered `s` or later, but for one numbered `s` where the next record starts. */
  ghost predicate Tidy(ring: Disk, s: nat, head: nat) {
    && head < |ring|
    && forall q :: 0 <= q < |ring| && ring[q].Desc? && ring[q].seqNo >= s ==> q == head && ring[q].seqNo == s
  }

  /** The record of `txn`, numbered `s`, sits at `at`. */
  ghost predicate RecordIn(crc: Checksum, ring: Disk, at: nat, s: nat, txn: Txn) {
    && at < |ring| && |txn| + 2 <= |ring|
    && forall i :: 0 <= i < |txn| + 2 ==> At(ring, at + i) == Record(crc, txn, s)[i]
  }

  // ─── mixtures ──────────────────────────────────────────────────────────────

  /** Slot `x` may hold `b` while the blocks `rec` are on their way to the slots from `at` on. */
  ghost predicate May(ring: Disk, at: nat, rec: seq<Block>, x: nat, b: Block)
    requires at < |ring| && x < |ring|
  {
    b == ring[x] || (Dist(at, x, |ring|) < |rec| && b == rec[Dist(at, x, |ring|)])
  }

  /** Some of the blocks of `rec`, written from `at`, made it to the ring. */
  ghost predicate Partly(ring: Disk, ring': Disk, at: nat, rec: seq<Block>) {
    && |ring'| == |ring| && at < |ring|
    && forall q {:trigger May(ring, at, rec, q, ring'[q])} :: 0 <= q < |ring| ==> May(ring, at, rec, q, ring'[q])
  }

  ghost predicate MixedAt(ring: Disk, at: nat, rec: seq<Block>, q: nat, data: seq<Block>, i: nat)
    requires at < |ring| && i < |data|
  {
    May(ring, at, rec, Slot(q + 1 + i, |ring|), data[i])
  }

  /** `data` may be read behind a descriptor at `q`. */
  ghost predicate Mixed(ring: Disk, at: nat, rec: seq<Block>, q: nat, data: seq<Block>)
    requires at < |ring|
  {
    forall i {:trigger MixedAt(ring, at, rec, q, data, i)} :: 0 <= i < |data| ==> MixedAt(ring, at, rec, q, data, i)
  }

  /**
   * Of everything that may be read behind a descriptor at `q` while `rec` is on its way, only `images`
   * themselves have their checksum.
   */
  ghost predicate TellsApart(crc: Checksum, ring: Disk, at: nat, rec: seq<Block>, q: nat, images: seq<Block>)
    requires at < |ring|
  {
    forall d {:trigger Mixed(ring, at, rec, q, d)} ::
      |d| == |images| && Mixed(ring, at, rec, q, d) && crc(d) == crc(images) ==> d == images
  }

  lemma {:induction false} PartlyMixed(ring: Disk, ring': Disk, at: nat, rec: seq<Block>, q: nat, n: nat)
    requires Partly(ring, ring', at, rec)
    ensures Mixed(ring, at, rec, q, Data(ring', q, n))
  {
    forall i | 0 <= i < n ensures MixedAt(ring, at, rec, q, Data(ring', q, n), i) {
      DataAt(ring', q, n, i);
      assert May(ring, at, rec, Slot(q + 1 + i, |ring|), ring'[Slot(q + 1 + i, |ring|)]);
    }
  }

  // ─── a whole record ────────────────────────────────────────────────────────

  lemma RecordAt(crc: Checksum, ring: Disk, at: nat, s: nat, txn: Txn, i: nat)
    requires RecordIn(crc, ring, at, s, txn) && i < |txn| + 2
    ensures At(ring, at + i) == Record(crc, txn, s)[i]
  {
  }

  lemma {:induction false} RecordData(crc: Checksum, ring: Disk, at: nat, s: nat, txn: Txn)
    requires RecordIn(crc, ring, at, s, txn)
    ensures Data(ring, at, |txn|) == Images(txn)
  {
    forall i | 0 <= i < |txn| ensures Data(ring, at, |txn|)[i] == Images(txn)[i] {
      RecordAt(crc, ring, at, s, txn, i + 1);
      DataAt(ring, at, |txn|, i);
      assert at + (i + 1) == at + 1 + i;
    }
  }

  lemma PutsBack(txn: Txn)
    ensures Puts(Targets(txn), Images(txn)) == txn
  {
  }

  lemma {:induction false} VouchedLive(crc: Checksum, ring: Disk, at: nat, s: nat, targets: seq<nat>,
                                       images: seq<Block>)
    requires at < |ring| && ring[at] == Desc(s, targets) && 0 < |targets| <= MAX_TARGETS && |targets| + 2 <= |ring|
    requires Data(ring, at, |targets|) == images && At(ring, at + 1 + |targets|) == Commit(s, crc(images))
    ensures LiveAt(crc, ring, at, s)
  {
  }

  lemma RecordEnds(crc: Checksum, ring: Disk, at: nat, s: nat, txn: Txn)
    requires RecordIn(crc, ring, at, s, txn)
    ensures ring[at] == Desc(s, Targets(txn)) && At(ring, at + 1 + |txn|) == Commit(s, crc(Images(txn)))
  {
    RecordAt(crc, ring, at, s, txn, 0);
    RecordAt(crc, ring, at, s, txn, |txn| + 1);
    assert at + (|txn| + 1) == at + 1 + |txn| && Slot(at + 0, |ring|) == at;
  }

  lemma {:induction false} RecordLive(crc: Checksum, ring: Disk, at: nat, s: nat, txn: Txn)
    requires RecordIn(crc, ring, at, s, txn) && 0 < |txn| <= MAX_TARGETS
    ensures ring[at] == Desc(s, Targets(txn)) && Data(ring, at, |txn|) == Images(txn)
    ensures LiveAt(crc, ring, at, s) && Puts(Targets(txn), Images(txn)) == txn
  {
    RecordEnds(crc, ring, at, s, txn);
    RecordData(crc, ring, at, s, txn);
    PutsBack(txn);
    VouchedLive(crc, ring, at, s, Targets(txn), Images(txn));
  }

  lemma AllInBounds(targets: seq<nat>, fs: nat)
    requires forall i :: 0 <= i < |targets| ==> targets[i] < fs
    ensures InBounds(targets, fs) == |targets|
  {
    InBoundsMeans(targets, fs, |targets|);
  }

  lemma {:induction false} ReplayDead(crc: Checksum, ring: Disk, fs: nat, at: nat, s: nat, budget: nat)
    requires at < |ring| && (budget > 0 ==> !LiveAt(crc, ring, at, s))
    ensures Replay(crc, ring, fs, at, s, budget) == Scanned([], 0, at, true)
  {
  }

  /** Where `Record` puts a descriptor or a commit block. */
  lemma StampedKinds(crc: Checksum, txn: Txn, s: nat, i: nat)
    requires Plain(txn) && i < |txn| + 2
    ensures var b := Record(crc, txn, s)[i];
            && (b.Desc? <==> i == 0) && (b.Commit? <==> i == |txn| + 1) && !b.Super?
            && ((b.Desc? || b.Commit?) ==> b.seqNo == s)
  {
    if 0 < i < |txn| + 1 {
      assert Record(crc, txn, s)[i - 1 + 1] == txn[i - 1].block;
    }
  }

  lemma {:induction false} SkipNone(ring: Disk, pos: nat, e: nat, budget: nat)
    requires 0 < |ring| && Hop(ring, pos, e) == 0
    ensures Skip(ring, pos, e, budget) == Cursor(pos, budget)
  {
  }

  // ─── what can come alive at the head ───────────────────────────────────────

  lemma TidyDead(crc: Checksum, ring: Disk, s: nat, head: nat)
    requires Tidy(ring, s, head) && !LiveAt(crc, ring, head, s)
    ensures NoneNumbered(crc, ring, s)
  {
  }

  lemma TidyNext(crc: Checksum, ring: Disk, s: nat, head: nat)
    requires Tidy(ring, s, head)
    ensures NoneNumbered(crc, ring, s + 1)
  {
    var e := s + 1;
    forall q | 0 <= q < |ring| ensures !LiveAt(crc, ring, q, e) {
    }
  }

  /** A ring stays tidy while the record it is ready for arrives. */
  lemma TidyPartly(crc: Checksum, ring: Disk, ring': Disk, s: nat, head: nat, txn: Txn)
    requires Tidy(ring, s, head) && Plain(txn) && Partly(ring, ring', head, Record(crc, txn, s))
    ensures Tidy(ring', s, head)
  {
    var rec := Record(crc, txn, s);
    forall q | 0 <= q < |ring| && ring'[q].Desc? && ring'[q].seqNo >= s ensures q == head && ring'[q].seqNo == s {
      assert May(ring, head, rec, q, ring'[q]);
      if ring'[q] != ring[q] { StampedKinds(crc, txn, s, Dist(head, q, |ring|)); }
    }
  }

  /**
   * What a cut can bring alive at the head: the descriptor, each data block and the commit block, each
   * one left over or new, and the commit block vouching for that very data.
   */
  ghost predicate Slips(crc: Checksum, ring: Disk, at: nat, s: nat, rec: seq<Block>, targets: seq<nat>,
                        data: seq<Block>) {
    && at < |ring| && 0 < |targets| == |data| <= MAX_TARGETS && |targets| + 2 <= |ring|
    && May(ring, at, rec, at, Desc(s, targets)) && Mixed(ring, at, rec, at, data)
    && May(ring, at, rec, Slot(at + 1 + |targets|, |ring|), Commit(s, crc(data)))
  }

  lemma {:induction false} LiveSlips(crc: Checksum, ring: Disk, ring': Disk, at: nat, s: nat, rec: seq<Block>)
    requires Partly(ring, ring', at, rec) && LiveAt(crc, ring', at, s)
    ensures Slips(crc, ring, at, s, rec, ring'[at].targets, Data(ring', at, |ring'[at].targets|))
  {
    var n := |ring'[at].targets|;
    PartlyMixed(ring, ring', at, rec, at, n);
    LiveBlocks(crc, ring', at, s);
    var c := Slot(at + 1 + n, |ring|);
    assert May(ring, at, rec, at, ring'[at]) && May(ring, at, rec, c, ring'[c]);
  }

  lemma LiveBlocks(crc: Checksum, ring: Disk, at: nat, s: nat)
    requires at < |ring| && LiveAt(crc, ring, at, s)
    ensures var n := |ring[at].targets|;
            && ring[at] == Desc(s, ring[at].targets) && 0 < n <= MAX_TARGETS && n + 2 <= |ring|
            && ring[Slot(at + 1 + n, |ring|)] == Commit(s, crc(Data(ring, at, n)))
  {
  }

  /** The ring of a cut that brings exactly these blocks alive. */
  ghost function Slipped(crc: Checksum, ring: Disk, at: nat, s: nat, targets: seq<nat>, data: seq<Block>): Disk
    requires at < |ring|
  {
    Stamp(ring, at, [Desc(s, targets)] + data + [Commit(s, crc(data))])
  }

  lemma SlippedAt(crc: Checksum, ring: Disk, at: nat, s: nat, targets: seq<nat>, data: seq<Block>, i: nat)
    requires at < |ring| && |targets| == |data| && |targets| + 2 <= |ring| && i < |targets| + 2
    ensures At(Slipped(crc, ring, at, s, targets, data), at + i)
         == if i == 0 then Desc(s, targets) else if i <= |data| then data[i - 1] else Commit(s, crc(data))
  {
    assert Dist(at, Slot(at + i, |ring|), |ring|) == i;
  }

  lemma {:induction false} SlippedLive(crc: Checksum, ring: Disk, at: nat, s: nat, rec: seq<Block>, targets: seq<nat>,
                                       data: seq<Block>)
    requires Slips(crc, ring, at, s, rec, targets, data)
    ensures var ring' := Slipped(crc, ring, at, s, targets, data);
            LiveAt(crc, ring', at, s) && ring'[at] == Desc(s, targets) && Data(ring', at, |targets|) == data
  {
    var ring' := Slipped(crc, ring, at, s, targets, data);
    SlippedAt(crc, ring, at, s, targets, data, 0);
    SlippedAt(crc, ring, at, s, targets, data, |targets| + 1);
    forall i | 0 <= i < |data| ensures Data(ring', at, |targets|)[i] == data[i] {
      SlippedAt(crc, ring, at, s, targets, data, i + 1);
      DataAt(ring', at, |targets|, i);
      assert at + (i + 1) == at + 1 + i;
    }
    VouchedLive(crc, ring', at, s, targets, data);
  }

  lemma SlippedPartly(crc: Checksum, ring: Disk, at: nat, s: nat, rec: seq<Block>, targets: seq<nat>, data: seq<Block>)
    requires Slips(crc, ring, at, s, rec, targets, data)
    ensures Partly(ring, Slipped(crc, ring, at, s, targets, data), at, rec)
  {
    var ring' := Slipped(crc, ring, at, s, targets, data);
    forall q | 0 <= q < |ring| ensures May(ring, at, rec, q, ring'[q]) {
      SlippedMay(crc, ring, at, s, rec, targets, data, q);
    }
  }

  lemma SlippedMay(crc: Checksum, ring: Disk, at: nat, s: nat, rec: seq<Block>, targets: seq<nat>, data: seq<Block>,
                   q: nat)
    requires Slips(crc, ring, at, s, rec, targets, data) && q < |ring|
    ensures May(ring, at, rec, q, Slipped(crc, ring, at, s, targets, data)[q])
  {
    var i := Dist(at, q, |ring|);
    if i < |targets| + 2 {
      assert q == Slot(at + i, |ring|);
      SlippedAt(crc, ring, at, s, targets, data, i);
      if 0 < i <= |data| {
        assert MixedAt(ring, at, rec, at, data, i - 1) && at + i == at + 1 + (i - 1);
      } else if i > 0 {
        assert at + i == at + 1 + |targets|;
      }
    }
  }

  // ─── replaying what is alive at the head ───────────────────────────────────

  /** The scan's last record: it rewrites its targets, or fails on one outside the filesystem. */
  lemma {:induction false} LastReplay(crc: Checksum, ring: Disk, fs: nat, at: nat, s: nat, budget: nat)
    requires at < |ring| && LiveAt(crc, ring, at, s) && budget > 0 && !LiveAt(crc, ring, Next(ring, at), s + 1)
    ensures var r := Replay(crc, ring, fs, at, s, budget);
            if InBounds(ring[at].targets, fs) < |ring[at].targets| then !r.ok
            else r == Scanned(PutsAt(ring, at), 1, Next(ring, at), true)
  {
    if InBounds(ring[at].targets, fs) == |ring[at].targets| {
      ReplayStep(crc, ring, fs, at, s, budget);
      ReplayDead(crc, ring, fs, Next(ring, at), s + 1, Sub(budget, SpanLen(ring, at)));
      assert PutsAt(ring, at) + [] == PutsAt(ring, at);
    }
  }

  /** What a scan that expects `s` at the head of a tidy ring does there. */
  ghost function AtHead(crc: Checksum, ring: Disk, fs: nat, head: nat, s: nat, budget: nat): Scanned
    requires head < |ring|
  {
    if budget == 0 || !LiveAt(crc, ring, head, s) then Scanned([], 0, head, true)
    else if InBounds(ring[head].targets, fs) < |ring[head].targets| then Replay(crc, ring, fs, head, s, budget)
    else Scanned(PutsAt(ring, head), 1, Next(ring, head), true)
  }

  lemma {:induction false} HeadReplay(crc: Checksum, ring: Disk, fs: nat, head: nat, s: nat, budget: nat)
    requires Tidy(ring, s, head)
    ensures Replay(crc, ring, fs, head, s, budget) == AtHead(crc, ring, fs, head, s, budget)
    ensures budget > 0 && LiveAt(crc, ring, head, s) && InBounds(ring[head].targets, fs) < |ring[head].targets| ==>
      !Replay(crc, ring, fs, head, s, budget).ok
  {
    if budget > 0 && LiveAt(crc, ring, head, s) {
      TidyNext(crc, ring, s, head);
      assert !LiveAt(crc, ring, Next(ring, head), s + 1);
      LastReplay(crc, ring, fs, head, s, budget);
    } else {
      ReplayDead(crc, ring, fs, head, s, budget);
    }
  }

  /** The record alone, if nothing is to be replayed behind it. */
  lemma {:induction false} WholeReplay(crc: Checksum, ring: Disk, fs: nat, at: nat, s: nat, txn: Txn, next: nat,
                                       budget: nat)
    requires RecordIn(crc, ring, at, s, txn) && Loggable(txn, |ring|, fs) && budget > 0
    requires next == Slot(at + |txn| + 2, |ring|) && !LiveAt(crc, ring, next, s + 1)
    ensures Replay(crc, ring, fs, at, s, budget) == Scanned(txn, 1, next, true)
    ensures LiveAt(crc, ring, at, s)
  {
    RecordLive(crc, ring, at, s, txn);
    AllInBounds(Targets(txn), fs);
    assert at + SpanLen(ring, at) == at + |txn| + 2;
    LastReplay(crc, ring, fs, at, s, budget);
  }

  /** Recovery once the whole record is on the ring, the path to it is intact, and nothing follows. */
  lemma {:induction false} ScanWhole(crc: Checksum, ring: Disk, fs: nat, tail: nat, len: nat, at: nat, s: nat, txn: Txn,
                                     next: nat)
    requires tail < |ring| && len < |ring| && Path(ring, tail, len, s) && at == Slot(tail + len, |ring|)
    requires RecordIn(crc, ring, at, s, txn) && Loggable(txn, |ring|, fs)
    requires next == Slot(at + |txn| + 2, |ring|) && !LiveAt(crc, ring, next, s + 1)
    ensures Scan(crc, ring, fs, tail, s) == Scanned(txn, 1, next, true)
  {
    var left := |ring| - len;
    WholeReplay(crc, ring, fs, at, s, txn, next, left);
    PathSkip(ring, tail, len, at, s, |ring|, left);
    SkipNone(ring, at, s, left);
  }
}
