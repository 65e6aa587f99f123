/** The write-ahead log: what each call writes, and the calls themselves. */
module Journal {
  import opened Disks
  import opened Ring

  const BS: nat := 4096

  // Where the journal lives: superblock at `fsBlocks`, log position p at `fsBlocks + 1 + p`.
  // `crc` stands for CRC-32 over the logged data blocks.
  datatype Area = Area(fsBlocks: nat, logBlocks: nat, crc: Checksum)

  // The in-memory side of the journal.
  datatype Pointers = Pointers(head: nat, tail: nat, nextSeq: nat)

  datatype Status = Done | OutOfSpace | Corrupt | BadJournal

  ghost predicate Fits(a: Area, d: Disk) {
    0 < a.logBlocks && a.fsBlocks + 1 + a.logBlocks <= |d|
  }

  function FsOf(a: Area, d: Disk): Disk
    requires a.fsBlocks <= |d|
  {
    d[..a.fsBlocks]
  }

  function RingOf(a: Area, d: Disk): (r: Disk)
    requires a.fsBlocks + 1 + a.logBlocks <= |d|
    ensures |r| == a.logBlocks
    ensures forall q :: 0 <= q < a.logBlocks ==> r[q] == d[a.fsBlocks + 1 + q]
  {
    d[a.fsBlocks + 1..a.fsBlocks + 1 + a.logBlocks]
  }

  function LogAddr(a: Area, pos: nat): nat
    requires 0 < a.logBlocks
  {
    a.fsBlocks + 1 + Slot(pos, a.logBlocks)
  }

  function SuperPut(a: Area, p: Pointers): Put {
    Put(a.fsBlocks, Super(p.head, p.tail, p.nextSeq, a.logBlocks, a.fsBlocks))
  }

  // ─── commit ────────────────────────────────────────────────────────────────

  function Used(a: Area, p: Pointers): nat
    requires p.tail < a.logBlocks
  {
    if p.head >= p.tail then p.head - p.tail else p.head + a.logBlocks - p.tail
  }

  /** The ring lacks room for `count` blocks, their descriptor and their commit block. */
  predicate NeedsReclaim(a: Area, p: Pointers, count: nat)
    requires p.tail < a.logBlocks
  {
    count + 2 + Used(a, p) > a.logBlocks
  }

  function Reclaimed(a: Area, p: Pointers, count: nat): Pointers
    requires p.tail < a.logBlocks
  {
    if NeedsReclaim(a, p, count) then p.(tail := p.head) else p
  }

  function ReclaimOps(a: Area, p: Pointers, count: nat): seq<Op>
    requires p.tail < a.logBlocks
  {
    if NeedsReclaim(a, p, count) then [Write(SuperPut(a, Reclaimed(a, p, count))), Flush] else []
  }

  function LogPuts(a: Area, at: nat, blocks: seq<Block>): (r: seq<Put>)
    requires 0 < a.logBlocks
    ensures |r| == |blocks|
    ensures forall i :: 0 <= i < |r| ==> r[i] == Put(LogAddr(a, at + i), blocks[i])
  {
    seq(|blocks|, i requires 0 <= i < |blocks| => Put(LogAddr(a, at + i), blocks[i]))
  }

  function RecordPuts(a: Area, at: nat, s: nat, txn: Txn): seq<Put>
    requires 0 < a.logBlocks
  {
    LogPuts(a, at, Record(a.crc, txn, s))
  }

  function Advanced(a: Area, p: Pointers, count: nat): Pointers
    requires 0 < a.logBlocks
  {
    Pointers(Slot(p.head + count + 2, a.logBlocks), p.tail, p.nextSeq + 1)
  }

  /** Record, barrier, checkpoint, barrier. */
  function LogOps(a: Area, p: Pointers, txn: Txn): seq<Op>
    requires 0 < a.logBlocks
  {
    Writes(RecordPuts(a, p.head, p.nextSeq, txn)) + [Flush] + Writes(txn) + [Flush]
  }

  /** ... and the head advance. */
  function RecordOps(a: Area, p: Pointers, txn: Txn): seq<Op>
    requires 0 < a.logBlocks
  {
    LogOps(a, p, txn) + [Write(SuperPut(a, Advanced(a, p, |txn|)))]
  }

  predicate TooBig(a: Area, txn: Txn) {
    |txn| > MAX_TARGETS || |txn| + 3 > a.logBlocks
  }

  predicate Misplaced(a: Area, put: Put) {
    put.addr >= a.fsBlocks || (put.block.Raw? && |put.block.bytes| != BS)
  }

  function CommitStatus(a: Area, txn: Txn): Status {
    if txn == [] then Done
    else if TooBig(a, txn) then OutOfSpace
    else if exists i :: 0 <= i < |txn| && Misplaced(a, txn[i]) then Corrupt
    else Done
  }

  /** What `commit` answers, and the pointers it leaves, in the numbers of the format. */
  lemma CommitDecides(a: Area, txn: Txn)
    ensures CommitStatus(a, txn) == Done <==>
      || txn == []
      || (&& |txn| <= 254 && |txn| + 3 <= a.logBlocks
          && forall i :: 0 <= i < |txn| ==>
               txn[i].addr < a.fsBlocks && (txn[i].block.Raw? ==> |txn[i].block.bytes| == 4096))
    ensures CommitStatus(a, txn) == OutOfSpace <==> txn != [] && (|txn| > 254 || |txn| + 3 > a.logBlocks)
    ensures CommitStatus(a, txn) in {Done, OutOfSpace, Corrupt}
  {
    assert forall put :: Misplaced(a, put) <==>
      put.addr >= a.fsBlocks || (put.block.Raw? && |put.block.bytes| != 4096);
  }

  lemma CommitMoves(a: Area, p: Pointers, txn: Txn)
    requires p.tail < a.logBlocks && p.head < a.logBlocks && txn != [] && |txn| <= 254 && |txn| + 3 <= a.logBlocks
    ensures var q, used := CommitPointers(a, p, txn), (p.head + a.logBlocks - p.tail) % a.logBlocks;
      && q.tail == (if used + |txn| + 2 > a.logBlocks then p.head else p.tail)
      && if CommitStatus(a, txn) == Done
         then q.head == (p.head + |txn| + 2) % a.logBlocks && q.nextSeq == p.nextSeq + 1
         else q.head == p.head && q.nextSeq == p.nextSeq
  {
    SlotIsMod(p.head + |txn| + 2, a.logBlocks);
    SlotIsMod(p.head + a.logBlocks - p.tail, a.logBlocks);
  }

  function CommitOps(a: Area, p: Pointers, txn: Txn): seq<Op>
    requires p.tail < a.logBlocks
  {
    if txn == [] || TooBig(a, txn) then []
    else if CommitStatus(a, txn) == Corrupt then ReclaimOps(a, p, |txn|)
    else ReclaimOps(a, p, |txn|) + RecordOps(a, Reclaimed(a, p, |txn|), txn)
  }

  function CommitPointers(a: Area, p: Pointers, txn: Txn): Pointers
    requires p.tail < a.logBlocks
  {
    if txn == [] || TooBig(a, txn) then p
    else if CommitStatus(a, txn) == Corrupt then Reclaimed(a, p, |txn|)
    else Advanced(a, Reclaimed(a, p, |txn|), |txn|)
  }

  // ─── recovery and format ───────────────────────────────────────────────────

  /** What `open` followed by `recover` finds on a disk. */
  function ScanOf(a: Area, d: Disk): (r: Scanned)
    requires Fits(a, d) && d[a.fsBlocks].Super?
  {
    Scan(a.crc, RingOf(a, d), a.fsBlocks, d[a.fsBlocks].tail, d[a.fsBlocks].nextSeq)
  }

  function RecoverPointers(r: Scanned, nextSeq: nat): Pointers {
    Pointers(r.pos, r.pos, nextSeq + r.replayed)
  }

  /** Rewrite the replayed blocks, barrier if there were any, then persist the emptied log. */
  function RecoverOps(a: Area, r: Scanned, nextSeq: nat): seq<Op> {
    if !r.ok then Writes(r.puts)
    else Writes(r.puts) + ((if r.replayed > 0 then [Flush] else []) +
         [Write(SuperPut(a, RecoverPointers(r, nextSeq)))])
  }

  function FormatPuts(a: Area): seq<Put> {
    [SuperPut(a, Pointers(0, 0, 1)), Put(a.fsBlocks + 1, Raw(Pad([])))]
  }

  // ─── logging a block ───────────────────────────────────────────────────────

  function Pad(contents: seq<int>): (r: seq<int>)
    ensures |r| == BS
    ensures forall i :: 0 <= i < BS ==> r[i] == if i < |contents| then contents[i] else 0
  {
    seq(BS, i requires 0 <= i < BS => if i < |contents| then contents[i] else 0)
  }

  ghost predicate Distinct(txn: Txn) {
    forall i, j :: 0 <= i < j < |txn| ==> txn[i].addr != txn[j].addr
  }

  /** Replacing the image logged for `addr` leaves what writing the transaction does at `addr` to the new image. */
  lemma {:induction false} FinalReplace(txn: Txn, i: nat, b: Block, x: nat, was: Block)
    requires Distinct(txn) && i < |txn|
    ensures Final(txn[i := Put(txn[i].addr, b)], x, was) == Final(txn + [Put(txn[i].addr, b)], x, was)
    decreases |txn|
  {
    var put := Put(txn[i].addr, b);
    var was' := if txn[0].addr == x then txn[0].block else was;
    assert (txn + [put])[1..] == txn[1..] + [put];
    if i == 0 {
      assert txn[0 := put][1..] == txn[1..];
      assert forall k :: 0 <= k < |txn| - 1 ==> txn[1..][k].addr == txn[k + 1].addr != put.addr;
      FinalAppend(txn[1..], put, x, was');
      if put.addr == x {
        FinalTouched(txn[1..], x, b, b);
      }
    } else {
      assert txn[i := put][1..] == txn[1..][i - 1 := put];
      FinalReplace(txn[1..], i - 1, b, x, was');
    }
  }

  lemma {:induction false} FinalAppend(puts: seq<Put>, put: Put, x: nat, was: Block)
    ensures Final(puts + [put], x, was) == if put.addr == x then put.block else Final(puts, x, was)
    decreases |puts|
  {
    if puts != [] {
      assert (puts + [put])[1..] == puts[1..] + [put];
      FinalAppend(puts[1..], put, x, if puts[0].addr == x then puts[0].block else was);
    }
  }

  /**
   * `Journal::log_block`: the later write to a target wins, targets stay distinct, and the
   * transaction means what writing the old one and then this block means.
   */
  method LogBlock(txn: Txn, finalBlock: nat, contents: seq<int>) returns (r: Txn)
    requires Distinct(txn)
    ensures Distinct(r)
    ensures forall d :: Apply(d, r) == Apply(Apply(d, txn), [Put(finalBlock, Raw(Pad(contents)))])
    ensures |r| <= |txn| + 1 && Put(finalBlock, Raw(Pad(contents))) in r
  {
    var put := Put(finalBlock, Raw(Pad(contents)));
    var i := 0;
    while i < |txn| && txn[i].addr != finalBlock
      invariant 0 <= i <= |txn|
      invariant forall k :: 0 <= k < i ==> txn[k].addr != finalBlock
    {
      i := i + 1;
    }
    r := if i < |txn| then txn[i := put] else txn + [put];
    forall d ensures Apply(d, r) == Apply(Apply(d, txn), [put]) {
      ApplyConcat(d, txn, [put]);
      forall x | 0 <= x < |d| ensures Apply(d, r)[x] == Apply(d, txn + [put])[x] {
        ApplyAt(d, r, x);
        ApplyAt(d, txn + [put], x);
        if i < |txn| { FinalReplace(txn, i, put.block, x, d[x]); }
      }
    }
    assert r[i] == put;
  }

  // ─── the device and the journal object ─────────────────────────────────────

  // The `BlockDevice` trait as the journal uses it: the current contents, and every operation so far.
  class BlockDevice {
    var data: Disk
    ghost var log: seq<Op>
    ghost const start: Disk

    /** What a reader sees is what the operations so far make of the first contents. */
    ghost predicate Faithful()
      reads this
    {
      data == View(Exec(Dev(start, []), log))
    }

    constructor (image: Disk)
      ensures data == start == image && log == [] && Faithful()
    {
      data, log, start := image, [], image;
    }

    method Store(addr: nat, block: Block)
      requires addr < |data| && Faithful()
      modifies this
      ensures Faithful()
      ensures data == old(data)[addr := block] && log == old(log) + [Write(Put(addr, block))]
    {
      ViewWrite(Dev(start, []), log, Put(addr, block));
      data := data[addr := block];
      log := log + [Write(Put(addr, block))];
    }

    method Flush()
      requires Faithful()
      modifies this`log
      ensures Faithful() && log == old(log) + [Op.Flush]
    {
      ViewFlush(Dev(start, []), log);
      log := log + [Op.Flush];
    }
  }

  lemma {:induction false} ViewWrite(dev: Dev, log: seq<Op>, put: Put)
    requires put.addr < |View(Exec(dev, log))|
    ensures View(Exec(dev, log + [Write(put)])) == View(Exec(dev, log))[put.addr := put.block]
  {
    var now := Exec(dev, log);
    ExecConcat(dev, log, [Write(put)]);
    ExecOne(now, Write(put));
    ApplyConcat(now.stable, now.cache, [put]);
    ApplyOne(View(now), put);
  }

  lemma {:induction false} ViewFlush(dev: Dev, log: seq<Op>)
    ensures View(Exec(dev, log + [Op.Flush])) == View(Exec(dev, log))
  {
    ExecConcat(dev, log, [Op.Flush]);
    ExecOne(Exec(dev, log), Op.Flush);
  }

  lemma {:induction false} ApplySnoc(d: Disk, puts: seq<Put>, i: nat)
    requires i < |puts| && puts[i].addr < |d|
    ensures Apply(d, puts[..i + 1]) == Apply(d, puts[..i])[puts[i].addr := puts[i].block]
  {
    assert puts[..i + 1] == puts[..i] + [puts[i]];
    ApplyConcat(d, puts[..i], [puts[i]]);
    ApplyOne(Apply(d, puts[..i]), puts[i]);
  }

  // ─── the scan, one look at a time ──────────────────────────────────────────

  /** What a scan amounts to after `replayed` records wrote `puts` and `r` remains. */
  function After(puts: seq<Put>, replayed: nat, r: Scanned): Scanned {
    Scanned(puts + r.puts, replayed + r.replayed, r.pos, r.ok)
  }

  // Where the recovery loop is; `live` once a record has been replayed.
  datatype Point = Point(pos: nat, expected: nat, live: bool, budget: nat)

  /** What is left of the scan at `at`. */
  function ScanFrom(a: Area, ring: Disk, at: Point): Scanned
    requires 0 < |ring|
  {
    var c := if at.live then Cursor(at.pos, at.budget) else Skip(ring, at.pos, at.expected, at.budget);
    Replay(a.crc, ring, a.fsBlocks, c.pos, at.expected, c.budget)
  }

  /** Looking at the slot of `at` rewrote `wrote`, replayed `one` or no record and goes on at `next`. */
  ghost predicate Seen(a: Area, ring: Disk, at: Point, wrote: seq<Put>, one: nat, next: Point, ok: bool)
    requires 0 < |ring|
  {
    && ScanFrom(a, ring, at)
       == (if ok then After(wrote, one, ScanFrom(a, ring, next)) else Scanned(wrote, 0, at.pos, false))
    && next.pos < |ring| && next.budget < at.budget
  }

  function Stopped(at: Point): Point { at.(budget := 0) }

  lemma SeenStop(a: Area, ring: Disk, at: Point)
    requires at.pos < |ring| && 0 < at.budget && (at.live || Hop(ring, at.pos, at.expected) == 0)
    requires !(Complete(a.crc, ring, at.pos) && At(ring, at.pos).seqNo == at.expected)
    ensures Seen(a, ring, at, [], 0, Stopped(at), true)
  {
    var r := ScanFrom(a, ring, Stopped(at));
    assert r == Scanned([], 0, at.pos, true);
    assert ScanFrom(a, ring, at) == r;
  }

  lemma SeenStepped(a: Area, ring: Disk, at: Point, k: nat)
    requires at.pos < |ring| && 0 < at.budget && !at.live && k == Hop(ring, at.pos, at.expected) > 0
    ensures Seen(a, ring, at, [], 0, at.(pos := Slot(at.pos + k, |ring|), budget := Sub(at.budget, k)), true)
  {
    var next := at.(pos := Slot(at.pos + k, |ring|), budget := Sub(at.budget, k));
    SkipStep(ring, at.pos, at.expected, at.budget, k);
    AfterNothing(ScanFrom(a, ring, next));
  }

  lemma SkipStep(ring: Disk, pos: nat, e: nat, budget: nat, k: nat)
    requires pos < |ring| && budget > 0 && k == Hop(ring, pos, e) > 0
    ensures Skip(ring, pos, e, budget) == Skip(ring, Slot(pos + k, |ring|), e, Sub(budget, k))
  {
  }

  lemma AfterNothing(r: Scanned)
    ensures After([], 0, r) == r
  {
  }

  lemma SeenLive(a: Area, ring: Disk, at: Point, k: nat, next: Point)
    requires at.pos < |ring| && 0 < at.budget && Complete(a.crc, ring, at.pos) && At(ring, at.pos).seqNo == at.expected
    requires k == InBounds(At(ring, at.pos).targets, a.fsBlocks)
    requires k <= |PutsAt(ring, at.pos)| == |At(ring, at.pos).targets|
    requires next == Point(Next(ring, at.pos), at.expected + 1, true, Sub(at.budget, SpanLen(ring, at.pos)))
    ensures Seen(a, ring, at, PutsAt(ring, at.pos)[..k], 1, next, k == |PutsAt(ring, at.pos)|)
  {
    if k < |PutsAt(ring, at.pos)| {
      SeenOut(a, ring, at, k, next);
    } else {
      LiveWhole(a, ring, at, next);
      SeenWhole(a, ring, at, PutsAt(ring, at.pos), next, ScanFrom(a, ring, next));
    }
  }

  lemma LiveWhole(a: Area, ring: Disk, at: Point, next: Point)
    requires at.pos < |ring| && 0 < at.budget && Complete(a.crc, ring, at.pos) && At(ring, at.pos).seqNo == at.expected
    requires InBounds(At(ring, at.pos).targets, a.fsBlocks) == |At(ring, at.pos).targets|
    requires next == Point(Next(ring, at.pos), at.expected + 1, true, Sub(at.budget, SpanLen(ring, at.pos)))
    ensures Prepends(ScanFrom(a, ring, at), PutsAt(ring, at.pos), 1, ScanFrom(a, ring, next))
  {
    LiveScan(a, ring, at);
    LiveOn(a, ring, next);
    ReplayStep(a.crc, ring, a.fsBlocks, at.pos, at.expected, at.budget);
  }

  lemma SeenOut(a: Area, ring: Disk, at: Point, k: nat, next: Point)
    requires at.pos < |ring| && 0 < at.budget && Complete(a.crc, ring, at.pos) && At(ring, at.pos).seqNo == at.expected
    requires k == InBounds(At(ring, at.pos).targets, a.fsBlocks) < |PutsAt(ring, at.pos)| == |At(ring, at.pos).targets|
    requires next.pos < |ring| && next.budget < at.budget
    ensures Seen(a, ring, at, PutsAt(ring, at.pos)[..k], 1, next, false)
  {
    LiveScan(a, ring, at);
    ReplayOut(a.crc, ring, a.fsBlocks, at.pos, at.expected, at.budget, k);
  }

  lemma SeenWhole(a: Area, ring: Disk, at: Point, puts: seq<Put>, next: Point, rest: Scanned)
    requires 0 < |ring| && next.pos < |ring| && next.budget < at.budget && rest == ScanFrom(a, ring, next)
    requires Prepends(ScanFrom(a, ring, at), puts, 1, rest)
    ensures Seen(a, ring, at, puts[..|puts|], 1, next, true)
  {
    assert puts[..|puts|] == puts;
  }

  lemma {:induction false} LiveOn(a: Area, ring: Disk, at: Point)
    requires 0 < |ring| && at.live
    ensures ScanFrom(a, ring, at) == Replay(a.crc, ring, a.fsBlocks, at.pos, at.expected, at.budget)
  {
  }

  lemma {:induction false} LiveScan(a: Area, ring: Disk, at: Point)
    requires at.pos < |ring| && Complete(a.crc, ring, at.pos) && At(ring, at.pos).seqNo == at.expected
    ensures ScanFrom(a, ring, at) == Replay(a.crc, ring, a.fsBlocks, at.pos, at.expected, at.budget)
  {
    assert Hop(ring, at.pos, at.expected) == 0;
  }

  lemma {:induction false} SpanOf(ring: Disk, pos: nat, targets: seq<nat>)
    requires 0 < |ring| && At(ring, pos).Desc? && At(ring, pos).targets == targets
    ensures SpanLen(ring, pos) == |targets| + 2 && Next(ring, pos) == Slot(pos + |targets| + 2, |ring|)
    ensures PutsAt(ring, pos) == Puts(targets, Data(ring, pos, |targets|))
  {
    assert pos + SpanLen(ring, pos) == pos + |targets| + 2;
  }

  /** Fold one look into what has been replayed so far. */
  lemma Advance(puts: seq<Put>, replayed: nat, wrote: seq<Put>, one: nat, rest: Scanned)
    ensures After(puts, replayed, After(wrote, one, rest)) == After(puts + wrote, replayed + one, rest)
    ensures After(puts, replayed, Scanned(wrote, 0, rest.pos, false))
         == Scanned(puts + wrote, replayed, rest.pos, false)
  {
    assert puts + (wrote + rest.puts) == (puts + wrote) + rest.puts;
  }

  lemma WritesGrow(l: seq<Op>, p: seq<Put>, q: seq<Put>)
    ensures l + Writes(p) + Writes(q) == l + Writes(p + q)
  {
    assert Writes(p + q) == Writes(p) + Writes(q);
  }

  lemma Assoc(l: seq<Op>, p: seq<Op>, q: seq<Op>, r: seq<Op>, s: seq<Op>)
    ensures l + p + q + r + s == l + (p + q + r + s)
  {
  }

  lemma Assoc3(l: seq<Op>, p: seq<Op>, q: seq<Op>, r: seq<Op>)
    ensures l + p + q + r == l + (p + (q + r))
  {
  }

  /** A record's writes: descriptor, data, commit block. */
  lemma RecordSplits(a: Area, at: nat, s: nat, txn: Txn, log: seq<Op>, now: seq<Op>)
    requires 0 < a.logBlocks
    requires now == log + [Write(Put(LogAddr(a, at), Desc(s, Targets(txn))))] + Writes(LogPuts(a, at + 1, Images(txn)))
                    + [Write(Put(LogAddr(a, at + 1 + |txn|), Commit(s, a.crc(Images(txn)))))]
    ensures now == log + Writes(RecordPuts(a, at, s, txn))
  {
    var d, c := [Desc(s, Targets(txn))], [Commit(s, a.crc(Images(txn)))];
    LogPutsConcat(a, at, d, Images(txn));
    LogPutsConcat(a, at, d + Images(txn), c);
    ThreeWrites(log, LogPuts(a, at, d), LogPuts(a, at + 1, Images(txn)), LogPuts(a, at + 1 + |txn|, c));
    assert Writes(LogPuts(a, at, d)) == [Write(Put(LogAddr(a, at), d[0]))];
    assert Writes(LogPuts(a, at + 1 + |txn|, c)) == [Write(Put(LogAddr(a, at + 1 + |txn|), c[0]))];
  }

  /** The first `i` data blocks have been appended to `log`. */
  ghost predicate Logged(a: Area, at: nat, txn: Txn, i: nat, log: seq<Op>, now: seq<Op>)
    requires 0 < a.logBlocks && i <= |txn|
  {
    now == log + Writes(LogPuts(a, at, Images(txn)[..i]))
  }

  lemma DataBefore(a: Area, at: nat, txn: Txn, i: nat, log: seq<Op>)
    requires 0 < a.logBlocks && i == 0
    ensures Logged(a, at, txn, i, log, log)
  {
    assert Writes(LogPuts(a, at, Images(txn)[..i])) == [];
  }

  lemma DataStep(a: Area, at: nat, txn: Txn, i: nat, log: seq<Op>, now: seq<Op>)
    requires 0 < a.logBlocks && i < |txn|
    requires now == log + Writes(LogPuts(a, at, Images(txn)[..i])) + [Write(Put(LogAddr(a, at + i), txn[i].block))]
    ensures Logged(a, at, txn, i + 1, log, now)
  {
    LogSnoc(a, at, Images(txn)[..i], txn[i].block);
    assert Images(txn)[..i] + [txn[i].block] == Images(txn)[..i + 1];
  }

  lemma LogPutsConcat(a: Area, at: nat, x: seq<Block>, y: seq<Block>)
    requires 0 < a.logBlocks
    ensures LogPuts(a, at, x + y) == LogPuts(a, at, x) + LogPuts(a, at + |x|, y)
  {
    forall i | 0 <= i < |x + y| ensures LogPuts(a, at, x + y)[i] == (LogPuts(a, at, x) + LogPuts(a, at + |x|, y))[i] {
      assert i >= |x| ==> at + i == at + |x| + (i - |x|);
    }
  }

  lemma ThreeWrites(log: seq<Op>, x: seq<Put>, y: seq<Put>, z: seq<Put>)
    ensures log + Writes(x) + Writes(y) + Writes(z) == log + Writes(x + y + z)
  {
    assert Writes(x + y + z) == Writes(x) + Writes(y) + Writes(z);
  }

  lemma LogSnoc(a: Area, at: nat, done: seq<Block>, b: Block)
    requires 0 < a.logBlocks
    ensures Writes(LogPuts(a, at, done + [b]))
         == Writes(LogPuts(a, at, done)) + [Write(Put(LogAddr(a, at + |done|), b))]
  {
  }

  class Wal {
    const area: Area
    const dev: BlockDevice
    var head: nat
    var tail: nat
    var nextSeq: nat

    ghost predicate Valid()
      reads this, dev
    {
      && Fits(area, dev.data) && dev.Faithful()
      && head < area.logBlocks && tail < area.logBlocks
    }

    ghost function Now(): Pointers
      reads this
    {
      Pointers(head, tail, nextSeq)
    }

    /** `Journal::open` on a disk whose superblock decoded to `sb`. */
    constructor (device: BlockDevice, crc: Checksum, fsBlocks: nat, sb: Block)
      requires sb.Super? && Fits(Area(fsBlocks, sb.logBlocks, crc), device.data) && device.Faithful()
      requires sb.head < sb.logBlocks && sb.tail < sb.logBlocks
      ensures Valid() && dev == device && area == Area(fsBlocks, sb.logBlocks, crc)
      ensures Now() == Pointers(sb.head, sb.tail, sb.nextSeq)
    {
      dev, area := device, Area(fsBlocks, sb.logBlocks, crc);
      head, tail, nextSeq := sb.head, sb.tail, sb.nextSeq;
    }

    method PersistSuper()
      requires Valid()
      modifies dev
      ensures Valid() && dev.log == old(dev.log) + [Write(SuperPut(area, Now()))]
      ensures dev.data == old(dev.data)[area.fsBlocks := Super(head, tail, nextSeq, area.logBlocks, area.fsBlocks)]
    {
      dev.Store(area.fsBlocks, Super(head, tail, nextSeq, area.logBlocks, area.fsBlocks));
    }

    /** `Journal::commit`. */
    method Commit(txn: Txn) returns (status: Status)
      requires Valid()
      modifies this, dev
      ensures Valid()
      ensures status == CommitStatus(area, txn)
      ensures Now() == CommitPointers(area, old(Now()), txn)
      ensures dev.log == old(dev.log) + CommitOps(area, old(Now()), txn)
      ensures status == Done <==>
        || txn == []
        || (&& |txn| <= 254 && |txn| + 3 <= area.logBlocks
            && forall i :: 0 <= i < |txn| ==>
                 txn[i].addr < area.fsBlocks && (txn[i].block.Raw? ==> |txn[i].block.bytes| == 4096))
      ensures status == OutOfSpace <==> txn != [] && (|txn| > 254 || |txn| + 3 > area.logBlocks)
      ensures status in {Done, OutOfSpace, Corrupt}
      ensures FsOf(area, dev.data)
           == if status == Done then Apply(FsOf(area, old(dev.data)), txn) else FsOf(area, old(dev.data))
    {
      CommitDecides(area, txn);
      var count := |txn|;
      if count == 0 { return Done; }
      if count > MAX_TARGETS { return OutOfSpace; }
      if count + 3 > area.logBlocks { return OutOfSpace; }
      ghost var log0, p0 := dev.log, Now();
      Reclaim(count);
      var ok := Validate(txn);
      if !ok { return Corrupt; }
      ghost var p1 := Now();
      Log(txn);
      head := Slot(head + count + 2, area.logBlocks);
      nextSeq := nextSeq + 1;
      PersistSuper();
      Assoc3(log0, ReclaimOps(area, p0, count), LogOps(area, p1, txn), [Write(SuperPut(area, Now()))]);
      return Done;
    }

    /** When the ring lacks room, drop the live records and make the new tail durable first. */
    method Reclaim(count: nat)
      requires Valid()
      modifies this, dev
      ensures Valid() && Now() == Reclaimed(area, old(Now()), count)
      ensures dev.log == old(dev.log) + ReclaimOps(area, old(Now()), count)
      ensures FsOf(area, dev.data) == FsOf(area, old(dev.data))
    {
      var used := if head >= tail then head - tail else head + area.logBlocks - tail;
      var free := area.logBlocks - used;
      if count + 2 > free {
        tail := head;
        PersistSuper();
        dev.Flush();
      }
    }

    method Validate(txn: Txn) returns (ok: bool)
      ensures ok == !exists i :: 0 <= i < |txn| && Misplaced(area, txn[i])
      ensures ok <==> forall i :: 0 <= i < |txn| ==>
        txn[i].addr < area.fsBlocks && (txn[i].block.Raw? ==> |txn[i].block.bytes| == 4096)
    {
      for i := 0 to |txn|
        invariant forall k :: 0 <= k < i ==> !Misplaced(area, txn[k])
      {
        if Misplaced(area, txn[i]) { return false; }
      }
      return true;
    }

    /** Record, barrier, checkpoint, barrier. */
    method Log(txn: Txn)
      requires Valid() && forall i :: 0 <= i < |txn| ==> !Misplaced(area, txn[i])
      modifies dev
      ensures Valid()
      ensures dev.log == old(dev.log) + LogOps(area, Now(), txn)
      ensures FsOf(area, dev.data) == Apply(FsOf(area, old(dev.data)), txn)
    {
      WriteRecord(txn);
      dev.Flush();
      Checkpoint(txn);
      dev.Flush();
      Assoc(old(dev.log), Writes(RecordPuts(area, head, nextSeq, txn)), [Op.Flush], Writes(txn), [Op.Flush]);
    }

    /** Every block to its final place. */
    method Checkpoint(txn: Txn)
      requires Valid() && forall i :: 0 <= i < |txn| ==> !Misplaced(area, txn[i])
      modifies dev
      ensures Valid() && dev.log == old(dev.log) + Writes(txn)
      ensures FsOf(area, dev.data) == Apply(FsOf(area, old(dev.data)), txn)
    {
      ghost var log0, fs := dev.log, FsOf(area, dev.data);
      for i := 0 to |txn|
        invariant Valid() && dev.log == log0 + Writes(txn[..i])
        invariant FsOf(area, dev.data) == Apply(fs, txn[..i])
      {
        ApplySnoc(fs, txn, i);
        dev.Store(txn[i].addr, txn[i].block);
        WritesGrow(log0, txn[..i], [txn[i]]);
        assert Writes([txn[i]]) == [Write(txn[i])];
        assert txn[..i] + [txn[i]] == txn[..i + 1];
      }
      assert txn[..|txn|] == txn;
    }

    method StoreLog(pos: nat, block: Block)
      requires Valid()
      modifies dev
      ensures Valid() && dev.log == old(dev.log) + [Write(Put(LogAddr(area, pos), block))]
      ensures FsOf(area, dev.data) == FsOf(area, old(dev.data))
    {
      dev.Store(LogAddr(area, pos), block);
    }

    /** Descriptor, data and commit block into the log, in that order. */
    method WriteRecord(txn: Txn)
      requires Valid()
      modifies dev
      ensures Valid() && dev.log == old(dev.log) + Writes(RecordPuts(area, head, nextSeq, txn))
      ensures FsOf(area, dev.data) == FsOf(area, old(dev.data))
    {
      ghost var log0 := dev.log;
      StoreLog(head, Desc(nextSeq, Targets(txn)));
      WriteData(txn);
      StoreLog(head + 1 + |txn|, Block.Commit(nextSeq, area.crc(Images(txn))));
      RecordSplits(area, head, nextSeq, txn, log0, dev.log);
    }

    method WriteData(txn: Txn)
      requires Valid()
      modifies dev
      ensures Valid() && dev.log == old(dev.log) + Writes(LogPuts(area, head + 1, Images(txn)))
      ensures FsOf(area, dev.data) == FsOf(area, old(dev.data))
    {
      ghost var log0 := dev.log;
      DataBefore(area, head + 1, txn, 0, log0);
      for i := 0 to |txn|
        invariant Valid() && Logged(area, head + 1, txn, i, log0, dev.log)
        invariant FsOf(area, dev.data) == FsOf(area, old(dev.data))
      {
        StoreLog(head + 1 + i, txn[i].block);
        DataStep(area, head + 1, txn, i, log0, dev.log);
      }
      assert Images(txn)[..|txn|] == Images(txn);
    }

    /** `Journal::recover`: one bounded lap over the ring. */
    method Recover() returns (status: Status, replayed: nat)
      requires Valid()
      modifies this, dev
      ensures var r := old(Scan(area.crc, RingOf(area, dev.data), area.fsBlocks, tail, nextSeq));
        && status == (if r.ok then Done else Corrupt)
        && (r.ok ==> replayed == r.replayed && Now() == RecoverPointers(r, old(nextSeq)))
        && dev.log == old(dev.log) + RecoverOps(area, r, old(nextSeq))
      ensures Valid()
      ensures status == Done && replayed == 0 ==>
        dev.log == old(dev.log) + [Write(Put(area.fsBlocks, Super(head, head, nextSeq, area.logBlocks, area.fsBlocks)))]
    {
      ghost var puts;
      var pos, ok;
      ok, pos, replayed, puts := ReplayLog();
      if !ok { return Corrupt, replayed; }
      Empty(pos, replayed, Scanned(puts, replayed, pos, true));
      return Done, replayed;
    }

    /** The end of `recover`: everything acknowledged, nothing in the log. */
    method Empty(pos: nat, replayed: nat, ghost r: Scanned)
      requires Valid() && pos < area.logBlocks && r == Scanned(r.puts, replayed, pos, true)
      modifies this, dev
      ensures Valid() && Now() == RecoverPointers(r, old(nextSeq))
      ensures dev.log == old(dev.log) + ((if replayed > 0 then [Op.Flush] else []) +
                         [Write(SuperPut(area, RecoverPointers(r, old(nextSeq))))])
    {
      tail, head := pos, pos;
      if replayed > 0 {
        nextSeq := nextSeq + replayed;
        dev.Flush();
      }
      PersistSuper();
    }

    /** The scan loop of `recover`. */
    method ReplayLog() returns (ok: bool, pos: nat, replayed: nat, ghost puts: seq<Put>)
      requires Valid()
      modifies dev
      ensures Valid() && pos < area.logBlocks && dev.log == old(dev.log) + Writes(puts)
      ensures old(Scan(area.crc, RingOf(area, dev.data), area.fsBlocks, tail, nextSeq))
           == Scanned(puts, replayed, pos, ok)
    {
      ghost var ring, log0 := RingOf(area, dev.data), dev.log;
      var at := Point(tail, nextSeq, false, area.logBlocks);
      ghost var want := ScanFrom(area, ring, at);
      ghost var rest := want;
      replayed, puts := 0, [];
      while at.budget > 0
        invariant Valid() && RingOf(area, dev.data) == ring && at.pos < area.logBlocks
        invariant dev.log == log0 + Writes(puts)
        invariant rest == ScanFrom(area, ring, at)
        invariant want == After(puts, replayed, rest)
        decreases at.budget
      {
        var one, next, fine; ghost var wrote;
        one, next, fine, wrote := Inspect(at, ring);
        WritesGrow(log0, puts, wrote);
        rest := if fine then ScanFrom(area, ring, next) else Scanned([], 0, at.pos, false);
        Advance(puts, replayed, wrote, one, rest);
        puts := puts + wrote;
        if !fine { return false, at.pos, replayed, puts; }
        replayed, at := replayed + one, next;
      }
      return true, at.pos, replayed, puts;
    }

    /** One iteration of the recovery loop: what the slot holds, replaying it when live. */
    method Inspect(at: Point, ghost ring: Disk) returns (one: nat, next: Point, ok: bool, ghost wrote: seq<Put>)
      requires Valid() && at.budget > 0 && at.pos < area.logBlocks && RingOf(area, dev.data) == ring
      modifies dev
      ensures Valid() && RingOf(area, dev.data) == ring
      ensures dev.log == old(dev.log) + Writes(wrote)
      ensures Seen(area, ring, at, wrote, one, next, ok)
    {
      one, next, ok, wrote := 0, Stopped(at), true, [];
      var desc := dev.data[LogAddr(area, at.pos)];
      if !desc.Desc? || |desc.targets| == 0 || |desc.targets| > MAX_TARGETS || |desc.targets| + 2 > area.logBlocks {
        SeenStop(area, ring, at);
      } else if !at.live && desc.seqNo < at.expected {
        var step := |desc.targets| + 2;
        next := at.(pos := Slot(at.pos + step, area.logBlocks), budget := Sub(at.budget, step));
        SeenStepped(area, ring, at, step);
      } else if desc.seqNo != at.expected {
        SeenStop(area, ring, at);
      } else {
        one, next, ok, wrote := Verify(at, desc, ring);
      }
    }

    /** Check the commit block of the record `desc` at `at`; re-apply the record if it holds. */
    method Verify(at: Point, desc: Block, ghost ring: Disk)
      returns (one: nat, next: Point, ok: bool, ghost wrote: seq<Put>)
      requires Valid() && at.budget > 0 && at.pos < area.logBlocks && RingOf(area, dev.data) == ring
      requires desc == At(ring, at.pos)
      requires Plausible(area.logBlocks, desc) && desc.seqNo == at.expected
      modifies dev
      ensures Valid() && RingOf(area, dev.data) == ring
      ensures dev.log == old(dev.log) + Writes(wrote)
      ensures Seen(area, ring, at, wrote, one, next, ok)
    {
      one, next, ok, wrote := 0, Stopped(at), true, [];
      var blocks := ReadData(at.pos, |desc.targets|);
      var cmt := dev.data[LogAddr(area, at.pos + 1 + |desc.targets|)];
      if cmt != Block.Commit(desc.seqNo, area.crc(blocks)) {
        SeenStop(area, ring, at);
      } else {
        ghost var puts, k := Puts(desc.targets, blocks), InBounds(desc.targets, area.fsBlocks);
        assert Complete(area.crc, ring, at.pos);
        one := 1;
        next := Point(Slot(at.pos + |desc.targets| + 2, area.logBlocks), at.expected + 1, true,
                      Sub(at.budget, |desc.targets| + 2));
        SpanOf(ring, at.pos, desc.targets);
        SeenLive(area, ring, at, k, next);
        wrote := puts[..k];
        ok := Rewrite(desc.targets, blocks);
      }
    }

    method ReadData(pos: nat, count: nat) returns (blocks: seq<Block>)
      requires Valid()
      ensures blocks == Data(RingOf(area, dev.data), pos, count)
    {
      blocks := [];
      for i := 0 to count
        invariant blocks == Data(RingOf(area, dev.data), pos, i)
      {
        blocks := blocks + [dev.data[LogAddr(area, pos + 1 + i)]];
      }
    }

    /** Re-apply a record to its final locations, up to the first target outside the filesystem. */
    method Rewrite(targets: seq<nat>, blocks: seq<Block>) returns (ok: bool)
      requires Valid() && |targets| == |blocks|
      modifies dev
      ensures Valid() && RingOf(area, dev.data) == old(RingOf(area, dev.data))
      ensures var k := InBounds(targets, area.fsBlocks);
        ok == (k == |targets|) && dev.log == old(dev.log) + Writes(Puts(targets, blocks)[..k])
    {
      ghost var puts := Puts(targets, blocks);
      for i := 0 to |targets|
        invariant Valid() && RingOf(area, dev.data) == old(RingOf(area, dev.data))
        invariant forall j :: 0 <= j < i ==> targets[j] < area.fsBlocks
        invariant dev.log == old(dev.log) + Writes(puts[..i])
      {
        if targets[i] >= area.fsBlocks {
          InBoundsMeans(targets, area.fsBlocks, i);
          return false;
        }
        dev.Store(targets[i], blocks[i]);
        assert Writes(puts[..i + 1]) == Writes(puts[..i]) + [Write(puts[i])];
      }
      InBoundsMeans(targets, area.fsBlocks, |targets|);
      return true;
    }
  }

  /** `Journal::open`: only a block that decodes as a superblock with a non-empty log is accepted. */
  method Open(device: BlockDevice, crc: Checksum, superBlock: nat) returns (status: Status, wal: Wal?)
    requires superBlock < |device.data| && device.Faithful()
    requires var sb := device.data[superBlock];
             sb.Super? && 0 < sb.logBlocks ==>
               && Fits(Area(superBlock, sb.logBlocks, crc), device.data)
               && sb.head < sb.logBlocks && sb.tail < sb.logBlocks
    ensures var sb := device.data[superBlock];
            status == if sb.Super? && 0 < sb.logBlocks then Done else BadJournal
    ensures status == Done <==> wal != null
    ensures wal != null ==> fresh(wal) && wal.Valid() && wal.dev == device
    ensures var sb := device.data[superBlock];
            wal != null ==>
              && wal.area == Area(superBlock, sb.logBlocks, crc)
              && wal.Now() == Pointers(sb.head, sb.tail, sb.nextSeq)
  {
    var sb := device.data[superBlock];
    if !sb.Super? || sb.logBlocks == 0 { return BadJournal, null; }
    wal := new Wal(device, crc, superBlock, sb);
    status := Done;
  }

  /** `Journal::format`: an empty superblock, and the first slot of the ring cleared. */
  method Format(device: BlockDevice, area: Area)
    requires Fits(area, device.data) && device.Faithful()
    modifies device
    ensures device.Faithful() && device.log == old(device.log) + Writes(FormatPuts(area))
    ensures device.data == Apply(old(device.data), FormatPuts(area))
    ensures exists zeros ::
      && |zeros| == 4096 && (forall i :: 0 <= i < 4096 ==> zeros[i] == 0)
      && device.data == old(device.data)[area.fsBlocks := Super(0, 0, 1, area.logBlocks, area.fsBlocks)]
                                        [area.fsBlocks + 1 := Raw(zeros)]
  {
    ghost var d, puts := device.data, FormatPuts(area);
    device.Store(area.fsBlocks, Super(0, 0, 1, area.logBlocks, area.fsBlocks));
    device.Store(area.fsBlocks + 1, Raw(Pad([])));
    assert puts == [puts[0]] + [puts[1]];
    ApplyConcat(d, [puts[0]], [puts[1]]);
    ApplyOne(d, puts[0]);
    ApplyOne(Apply(d, [puts[0]]), puts[1]);
    assert Writes(puts) == [Write(puts[0])] + [Write(puts[1])];
  }
}
