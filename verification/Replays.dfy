/** What recovery may and may not replay, on rings of any origin. */
module Replays {
  import opened Disks
  import opened Ring
  import opened Journal
  import opened Recovery
  import opened TornRing
  import opened CutRing
  import opened Commits

  /**
   * `puts` are the blocks of the records at `at` and nothing else, in order, all complete and numbered
   * consecutively from `e`.
   */
  ghost predicate Explains(crc: Checksum, ring: Disk, e: nat, at: seq<nat>, puts: seq<Put>)
    requires 0 < |ring|
    decreases |at|
  {
    if at == [] then puts == []
    else
      var one := PutsAt(ring, at[0]);
      && Complete(crc, ring, at[0]) && At(ring, at[0]).seqNo == e
      && one <= puts && Explains(crc, ring, e + 1, at[1..], puts[|one|..])
  }

  lemma {:induction false} ExplainsOneMore(crc: Checksum, ring: Disk, e: nat, pos: nat, at: seq<nat>, rest: seq<Put>)
    requires 0 < |ring| && Explains(crc, ring, e + 1, at, rest) && Complete(crc, ring, pos) && At(ring, pos).seqNo == e
    ensures Explains(crc, ring, e, [pos] + at, PutsAt(ring, pos) + rest)
  {
    var one := PutsAt(ring, pos);
    assert ([pos] + at)[1..] == at && (one + rest)[|one|..] == rest;
  }

  lemma {:induction false} ExplainsAt(crc: Checksum, ring: Disk, e: nat, at: seq<nat>, puts: seq<Put>, i: nat)
    requires 0 < |ring| && Explains(crc, ring, e, at, puts) && i < |at|
    ensures Complete(crc, ring, at[i]) && At(ring, at[i]).seqNo == e + i
    decreases i
  {
    if i > 0 {
      ExplainsAt(crc, ring, e + 1, at[1..], puts[|PutsAt(ring, at[0])|..], i - 1);
    }
  }

  /**
   * On any ring whatsoever, recovery replays only complete records, numbered consecutively from the
   * number the superblock expects, in that order, and everything they hold: an acknowledged record,
   * one with a gap before it or an incomplete one never contributes a block.
   */
  lemma {:induction false} ReplaySound(crc: Checksum, ring: Disk, fs: nat, pos: nat, e: nat, budget: nat)
    returns (at: seq<nat>)
    requires 0 < |ring| && Replay(crc, ring, fs, pos, e, budget).ok
    ensures |at| == Replay(crc, ring, fs, pos, e, budget).replayed
    ensures Explains(crc, ring, e, at, Replay(crc, ring, fs, pos, e, budget).puts)
    decreases budget
  {
    at := [];
    if budget > 0 && Complete(crc, ring, pos) && At(ring, pos).seqNo == e {
      var next, left := Next(ring, pos), Sub(budget, SpanLen(ring, pos));
      ReplayStep(crc, ring, fs, pos, e, budget);
      at := ReplaySound(crc, ring, fs, next, e + 1, left);
      ExplainsOneMore(crc, ring, e, pos, at, Replay(crc, ring, fs, next, e + 1, left).puts);
      at := [pos] + at;
    }
  }

  lemma ScanSound(a: Area, d: Disk) returns (at: seq<nat>)
    requires Fits(a, d) && d[a.fsBlocks].Super? && ScanOf(a, d).ok
    ensures |at| == ScanOf(a, d).replayed
    ensures Explains(a.crc, RingOf(a, d), d[a.fsBlocks].nextSeq, at, ScanOf(a, d).puts)
  {
    var ring := RingOf(a, d);
    var c := Skip(ring, d[a.fsBlocks].tail, d[a.fsBlocks].nextSeq, |ring|);
    at := ReplaySound(a.crc, ring, a.fsBlocks, c.pos, d[a.fsBlocks].nextSeq, c.budget);
  }

  // ─── damage ────────────────────────────────────────────────────────────────

  /** Recovery replays nothing and leaves `fs`. */
  ghost predicate Ignored(a: Area, d: Disk, fs: Disk) {
    RecoversTo(a, d, fs) && ScanOf(a, d).replayed == 0
  }

  /** The checksum tells the images from what block `i` of the record, replaced by `b`, makes of them. */
  ghost predicate Detects(crc: Checksum, txn: Txn, i: nat, b: Block)
    requires 0 < i
  {
    i <= |txn| ==> crc(Images(txn)[i - 1 := b]) != crc(Images(txn))
  }

  /**
   * The record is durable, nothing is checkpointed, and one of its data blocks or its commit block
   * has changed since: recovery treats it as uncommitted and every block keeps its old contents.
   */
  lemma DamagedRecord(a: Area, d: Disk, p: Pointers, fs: Disk, txn: Txn, i: nat, b: Block)
    requires Fits(a, d) && Current(a, d[a.fsBlocks], p) && FsOf(a, d) == fs && Written(a, RingOf(a, d), p, txn)
    requires 0 < i < |txn| + 2 && b != Record(a.crc, txn, p.nextSeq)[i] && Detects(a.crc, txn, i, b)
    ensures Ignored(a, d[LogAddr(a, p.head + i) := b], fs)
  {
    DamagedSlot(a, d, p, fs, txn, i, b, Slot(p.head + i, a.logBlocks), LogAddr(a, p.head + i));
  }

  lemma DamagedSlot(a: Area, d: Disk, p: Pointers, fs: Disk, txn: Txn, i: nat, b: Block, q: nat, x: nat)
    requires Fits(a, d) && Current(a, d[a.fsBlocks], p) && FsOf(a, d) == fs && Written(a, RingOf(a, d), p, txn)
    requires 0 < i < |txn| + 2 && b != Record(a.crc, txn, p.nextSeq)[i] && Detects(a.crc, txn, i, b)
    requires q == Slot(p.head + i, a.logBlocks) && x == a.fsBlocks + 1 + q
    ensures Ignored(a, d[x := b], fs)
  {
    RingStore(a, d, q, b);
    DamagedScan(a.crc, RingOf(a, d), a.fsBlocks, p.tail, Used(a, p), p.head, p.nextSeq, txn, i, b, q);
    IgnoredBy(a, d[x := b], d[a.fsBlocks], RingOf(a, d)[q := b], fs, p.head);
  }

  lemma IgnoredBy(a: Area, d: Disk, sb: Block, ring: Disk, fs: Disk, pos: nat)
    requires Holds(a, d, sb, ring, fs) && NothingAt(a.crc, ring, a.fsBlocks, sb.tail, sb.nextSeq, pos)
    ensures Ignored(a, d, fs)
  {
    Recovers(a, d, sb, ring, fs, fs);
  }

  /** The scan stops at `pos` with nothing replayed, and nothing to replay there. */
  ghost predicate NothingAt(crc: Checksum, ring: Disk, fs: nat, tail: nat, s: nat, pos: nat)
    requires 0 < |ring|
  {
    Scan(crc, ring, fs, tail, s) == Scanned([], 0, pos, true) && Dead(crc, ring, pos, s)
  }

  lemma StopsThere(crc: Checksum, ring: Disk, fs: nat, tail: nat, len: nat, at: nat, s: nat)
    requires Leads(ring, tail, len, at, s) && ring[at].Desc? && ring[at].seqNo == s && !Complete(crc, ring, at)
    ensures NothingAt(crc, ring, fs, tail, s, at)
  {
    var left := |ring| - len;
    PathSkip(ring, tail, len, at, s, |ring|, left);
    SkipNone(ring, at, s, left);
    ReplayDead(crc, ring, fs, at, s, left);
  }

  /** A slot behind the path does not matter to it. */
  lemma LeadsBefore(ring: Disk, tail: nat, len: nat, at: nat, s: nat, x: nat, b: Block)
    requires Leads(ring, tail, len, at, s) && x < |ring| && len <= Dist(tail, x, |ring|)
    ensures Leads(ring[x := b], tail, len, at, s)
  {
    PathKept(ring, ring[x := b], tail, len, s, s);
  }

  lemma DamagedScan(crc: Checksum, ring: Disk, fs: nat, tail: nat, len: nat, at: nat, s: nat, txn: Txn, i: nat,
                    b: Block, q: nat)
    requires Loggable(txn, |ring|, fs) && RecordIn(crc, ring, at, s, txn)
    requires Leads(ring, tail, len, at, s) && len + |txn| + 2 <= |ring|
    requires 0 < i < |txn| + 2 && b != Record(crc, txn, s)[i] && Detects(crc, txn, i, b) && q == Slot(at + i, |ring|)
    ensures NothingAt(crc, ring[q := b], fs, tail, s, at)
  {
    LeadsBefore(ring, tail, len, at, s, q, b);
    DamagedIncomplete(crc, ring, at, s, txn, i, b, q);
    StopsThere(crc, ring[q := b], fs, tail, len, at, s);
  }

  lemma RecordRest(crc: Checksum, txn: Txn, s: nat, i: nat)
    requires 0 < i < |txn| + 2
    ensures Record(crc, txn, s)[i] == if i <= |txn| then Images(txn)[i - 1] else Commit(s, crc(Images(txn)))
  {
    if i <= |txn| {
      assert Record(crc, txn, s)[i - 1 + 1] == txn[i - 1].block;
    }
  }

  lemma DamageTells(crc: Checksum, txn: Txn, s: nat, i: nat, b: Block, last: Block, data: seq<Block>)
    requires 0 < i < |txn| + 2 && b != Record(crc, txn, s)[i] && Detects(crc, txn, i, b)
    requires last == if i == |txn| + 1 then b else Commit(s, crc(Images(txn)))
    requires data == if i <= |txn| then Images(txn)[i - 1 := b] else Images(txn)
    ensures last != Commit(s, crc(data))
  {
    RecordRest(crc, txn, s, i);
  }

  lemma DamagedIncomplete(crc: Checksum, ring: Disk, at: nat, s: nat, txn: Txn, i: nat, b: Block, q: nat)
    requires RecordIn(crc, ring, at, s, txn) && q == Slot(at + i, |ring|)
    requires 0 < i < |txn| + 2 && b != Record(crc, txn, s)[i] && Detects(crc, txn, i, b)
    ensures ring[q := b][at] == Desc(s, Targets(txn)) && !Complete(crc, ring[q := b], at)
  {
    RecordEnds(crc, ring, at, s, txn);
    RecordData(crc, ring, at, s, txn);
    DamagedBlocks(ring, at, |txn|, i, b, q);
    DamagedParts(crc, ring[q := b], at, s, txn, i, b, At(ring[q := b], at + 1 + |txn|), Data(ring[q := b], at, |txn|));
  }

  lemma {:induction false} DamagedParts(crc: Checksum, ring: Disk, at: nat, s: nat, txn: Txn, i: nat, b: Block,
                                        last: Block, data: seq<Block>)
    requires 0 < i < |txn| + 2 && b != Record(crc, txn, s)[i] && Detects(crc, txn, i, b)
    requires at < |ring| && ring[at] == Desc(s, Targets(txn))
    requires last == At(ring, at + 1 + |txn|) == if i == |txn| + 1 then b else Commit(s, crc(Images(txn)))
    requires data == Data(ring, at, |txn|) == if i <= |txn| then Images(txn)[i - 1 := b] else Images(txn)
    ensures !Complete(crc, ring, at)
  {
    DamageTells(crc, txn, s, i, b, last, data);
    NotVouched(crc, ring, at, s, Targets(txn), |txn|, data, last);
  }

  lemma {:induction false} NotVouched(crc: Checksum, ring: Disk, at: nat, s: nat, targets: seq<nat>, n: nat,
                                      data: seq<Block>, last: Block)
    requires at < |ring| && ring[at] == Desc(s, targets) && n == |targets| && data == Data(ring, at, n)
    requires last == At(ring, at + 1 + n) && last != Commit(s, crc(data))
    ensures !Complete(crc, ring, at)
  {
  }

  /** What one changed block after the descriptor does to the record's data and commit block. */
  lemma DamagedBlocks(ring: Disk, at: nat, count: nat, i: nat, b: Block, q: nat)
    requires at < |ring| && 0 < i < count + 2 <= |ring| && q == Slot(at + i, |ring|)
    ensures ring[q := b][at] == ring[at]
    ensures At(ring[q := b], at + 1 + count) == if i == count + 1 then b else At(ring, at + 1 + count)
    ensures Data(ring[q := b], at, count)
         == if i <= count then Data(ring, at, count)[i - 1 := b] else Data(ring, at, count)
  {
    var data := if i <= count then Data(ring, at, count)[i - 1 := b] else Data(ring, at, count);
    forall k | 0 <= k < count ensures Data(ring[q := b], at, count)[k] == data[k] {
      DataAt(ring, at, count, k);
      DataAt(ring[q := b], at, count, k);
      assert at + 1 + k == at + (k + 1);
    }
  }

  // ─── scans in a row ────────────────────────────────────────────────────────

  /** A scan that replays nothing. */
  ghost predicate Idle(crc: Checksum, ring: Disk, fs: nat, pos: nat, e: nat)
    requires 0 < |ring|
  {
    var r := Scan(crc, ring, fs, pos, e);
    r.ok && r.replayed == 0
  }

  /** Where scan `n` in a row starts when the ones before replayed nothing. */
  ghost function Lap(ring: Disk, pos: nat, e: nat, n: nat): (r: nat)
    requires pos < |ring|
    ensures r < |ring|
    decreases n
  {
    if n == 0 then pos else Lap(ring, Skip(ring, pos, e, |ring|).pos, e, n - 1)
  }

  lemma {:induction false} LapDead(crc: Checksum, ring: Disk, pos: nat, e: nat, n: nat)
    requires Dead(crc, ring, pos, e)
    ensures Dead(crc, ring, Lap(ring, pos, e, n), e)
    decreases n
  {
    if n > 0 {
      DeadSkip(crc, ring, pos, e, |ring|);
      LapDead(crc, ring, Skip(ring, pos, e, |ring|).pos, e, n - 1);
    }
  }

  /** Skipping takes some number of steps, at least one if it can, and all of them if budget is left. */
  lemma {:induction false} SkipSteps(ring: Disk, pos: nat, e: nat, budget: nat, k: nat) returns (j: nat)
    requires pos < |ring| && Hop(ring, Onward(ring, pos, e, k), e) == 0
    ensures var c := Skip(ring, pos, e, budget);
            && c.pos < |ring| && j <= k && Onward(ring, c.pos, e, k - j) == Onward(ring, pos, e, k)
            && (c.budget > 0 ==> c.pos == Onward(ring, pos, e, k))
            && (budget > 0 && Hop(ring, pos, e) > 0 ==> j > 0)
    decreases budget
  {
    var h := Hop(ring, pos, e);
    j := 0;
    if budget > 0 && h > 0 {
      var i := SkipSteps(ring, Slot(pos + h, |ring|), e, Sub(budget, h), k - 1);
      j := i + 1;
    }
  }

  lemma {:induction false} BusyAt(crc: Checksum, ring: Disk, fs: nat, pos: nat, e: nat)
    requires pos < |ring|
    requires var c := Skip(ring, pos, e, |ring|); c.budget > 0 && c.pos < |ring| && LiveAt(crc, ring, c.pos, e)
    ensures !Idle(crc, ring, fs, pos, e)
  {
  }

  lemma LapNext(ring: Disk, pos: nat, e: nat, n: nat, next: nat)
    requires pos < |ring| && next == Skip(ring, pos, e, |ring|).pos
    ensures next < |ring| && Lap(ring, pos, e, n + 1) == Lap(ring, next, e, n)
  {
  }

  lemma {:induction false} LapFinds(crc: Checksum, ring: Disk, fs: nat, pos: nat, e: nat, k: nat) returns (n: nat)
    requires pos < |ring| && LiveAt(crc, ring, Onward(ring, pos, e, k), e)
    ensures !Idle(crc, ring, fs, Lap(ring, pos, e, n), e)
    decreases k
  {
    var j := SkipSteps(ring, pos, e, |ring|, k);
    var c := Skip(ring, pos, e, |ring|);
    if c.budget > 0 {
      n := 0;
      BusyAt(crc, ring, fs, pos, e);
    } else {
      n := LapFinds(crc, ring, fs, c.pos, e, k - j);
      LapNext(ring, pos, e, n, c.pos);
      n := n + 1;
    }
  }

  /** A position is dead exactly when recoveries from there, however many in a row, replay nothing. */
  lemma {:induction false} DeadIff(crc: Checksum, ring: Disk, fs: nat, pos: nat, e: nat)
    requires pos < |ring|
    ensures Dead(crc, ring, pos, e) <==> forall n: nat :: Idle(crc, ring, fs, Lap(ring, pos, e, n), e)
  {
    if Dead(crc, ring, pos, e) {
      forall n: nat ensures Idle(crc, ring, fs, Lap(ring, pos, e, n), e) {
        LapDead(crc, ring, pos, e, n);
        DeadScan(crc, ring, fs, Lap(ring, pos, e, n), e);
      }
    } else {
      var k: nat :| LiveAt(crc, ring, Onward(ring, pos, e, k), e);
      var n := LapFinds(crc, ring, fs, pos, e, k);
    }
  }
}
