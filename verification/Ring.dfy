/** The circular log: slots, records and the recovery scan. */
module Ring {
  import opened Disks

  const MAX_TARGETS: nat := 254  // JDESC_MAX_TARGETS

  type Checksum = seq<Block> -> nat

  // ─── slots ─────────────────────────────────────────────────────────────────

  /** The slot of log position `pos` in a ring of `n` slots. */
  function Slot(pos: nat, n: nat): (r: nat)
    requires 0 < n
    ensures r < n
  {
    if pos < n then pos else if pos - n < n then pos - n else Wrapped(pos, n)
  }

  /** ... a position at least one lap ahead. */
  function Wrapped(pos: nat, n: nat): (r: nat)
    requires 0 < n <= pos
    ensures r < n
    decreases pos
  {
    if pos - n < n then pos - n else Wrapped(pos - n, n)
  }

  lemma SlotIsMod(pos: nat, n: nat)
    requires 0 < n
    ensures Slot(pos, n) == pos % n
  {
    if pos >= n { WrappedIsMod(pos, n); }
  }

  lemma {:induction false} WrappedIsMod(pos: nat, n: nat)
    requires 0 < n <= pos
    ensures Wrapped(pos, n) == pos % n
    decreases pos
  {
    if pos - n >= n { WrappedIsMod(pos - n, n); }
    var q, r := (pos - n) / n, (pos - n) % n;
    assert pos == n * (q + 1) + r;
    ModIs(pos, n, q + 1, r);
  }

  lemma ModIs(x: int, n: int, q: int, r: int)
    requires 0 <= r < n && x == n * q + r
    ensures x % n == r
  {
    var d := q - x / n;
    assert n * d == x % n - r;
    Multiples(n, d);
  }

  lemma Multiples(n: int, d: int)
    requires 0 < n
    ensures d > 0 ==> n * d >= n
    ensures d < 0 ==> n * d <= -n
  {
  }

  /** How many slots after `from` the slot `q` comes. */
  function Dist(from: nat, q: nat, n: nat): nat
    requires from < n && q < n
  {
    if from <= q then q - from else q + n - from
  }

  function At(ring: Disk, pos: nat): Block
    requires 0 < |ring|
  {
    ring[Slot(pos, |ring|)]
  }

  // ─── records ───────────────────────────────────────────────────────────────

  /** A transaction: final block and new contents, in logging order. */
  type Txn = seq<Put>

  function Targets(txn: Txn): (r: seq<nat>)
    ensures |r| == |txn| && forall i :: 0 <= i < |txn| ==> r[i] == txn[i].addr
  {
    seq(|txn|, i requires 0 <= i < |txn| => txn[i].addr)
  }

  function Images(txn: Txn): (r: seq<Block>)
    ensures |r| == |txn| && forall i :: 0 <= i < |txn| ==> r[i] == txn[i].block
  {
    seq(|txn|, i requires 0 <= i < |txn| => txn[i].block)
  }

  function Record(crc: Checksum, txn: Txn, s: nat): (r: seq<Block>)
    ensures |r| == |txn| + 2
    ensures r[0] == Desc(s, Targets(txn)) && r[|txn| + 1] == Commit(s, crc(Images(txn)))
    ensures forall i :: 0 <= i < |txn| ==> r[i + 1] == txn[i].block
  {
    [Desc(s, Targets(txn))] + Images(txn) + [Commit(s, crc(Images(txn)))]
  }

  /** The slots a record occupies once written from position `at`. */
  function Stamp(ring: Disk, at: nat, rec: seq<Block>): (r: Disk)
    requires at < |ring|
    ensures |r| == |ring|
    ensures forall q :: 0 <= q < |ring| ==>
      r[q] == if Dist(at, q, |ring|) < |rec| then rec[Dist(at, q, |ring|)] else ring[q]
  {
    seq(|ring|, q requires 0 <= q < |ring| =>
      if Dist(at, q, |ring|) < |rec| then rec[Dist(at, q, |ring|)] else ring[q])
  }

  // ─── recovery scan ─────────────────────────────────────────────────────────

  /** A structurally possible descriptor. */
  predicate Plausible(n: nat, b: Block) {
    b.Desc? && 0 < |b.targets| <= MAX_TARGETS && |b.targets| + 2 <= n
  }

  /** The `count` blocks behind position `pos`. */
  function Data(ring: Disk, pos: nat, count: nat): (r: seq<Block>)
    requires 0 < |ring|
    ensures |r| == count
    decreases count
  {
    if count == 0 then [] else Data(ring, pos, count - 1) + [At(ring, pos + count)]
  }

  lemma {:induction false} DataAt(ring: Disk, pos: nat, count: nat, i: nat)
    requires 0 < |ring| && i < count
    ensures Data(ring, pos, count)[i] == At(ring, pos + 1 + i)
    decreases count
  {
    if i < count - 1 { DataAt(ring, pos, count - 1, i); }
  }

  /** A descriptor followed by its data and a commit block that vouches for them. */
  predicate Complete(crc: Checksum, ring: Disk, pos: nat)
    requires 0 < |ring|
  {
    var b := At(ring, pos);
    && Plausible(|ring|, b)
    && At(ring, pos + 1 + |b.targets|) == Commit(b.seqNo, crc(Data(ring, pos, |b.targets|)))
  }

  function Puts(targets: seq<nat>, data: seq<Block>): (r: seq<Put>)
    requires |targets| == |data|
    ensures |r| == |targets| && forall i :: 0 <= i < |r| ==> r[i] == Put(targets[i], data[i])
  {
    seq(|targets|, i requires 0 <= i < |targets| => Put(targets[i], data[i]))
  }

  /** How many leading targets lie inside the filesystem. */
  function InBounds(targets: seq<nat>, fs: nat): (k: nat)
    ensures k <= |targets|
  {
    Leading(targets, fs, 0)
  }

  /** ... `i` of them already seen. */
  function Leading(targets: seq<nat>, fs: nat, i: nat): (k: nat)
    requires i <= |targets|
    ensures i <= k <= |targets|
    decreases |targets| - i
  {
    if i == |targets| || targets[i] >= fs then i else Leading(targets, fs, i + 1)
  }

  lemma {:induction false} LeadingMeans(targets: seq<nat>, fs: nat, i: nat)
    requires i <= |targets|
    ensures var k := Leading(targets, fs, i);
            (forall j :: i <= j < k ==> targets[j] < fs) && (k < |targets| ==> targets[k] >= fs)
    decreases |targets| - i
  {
    if i < |targets| && targets[i] < fs { LeadingMeans(targets, fs, i + 1); }
  }

  lemma InBoundsMeans(targets: seq<nat>, fs: nat, k: nat)
    requires k <= |targets|
    ensures k == InBounds(targets, fs) <==>
      (forall j :: 0 <= j < k ==> targets[j] < fs) && (k < |targets| ==> targets[k] >= fs)
  {
    LeadingMeans(targets, fs, 0);
    var r := InBounds(targets, fs);
    assert r < k ==> targets[r] >= fs;
    assert k < r ==> targets[k] < fs;
  }

  // Blocks to rewrite, records replayed, where the scan stopped, and whether every target was
  // inside the filesystem.
  datatype Scanned = Scanned(puts: seq<Put>, replayed: nat, pos: nat, ok: bool)

  datatype Cursor = Cursor(pos: nat, budget: nat)

  function Sub(a: nat, b: nat): nat { if a < b then 0 else a - b }

  /** How far the scan steps over an acknowledged record at `pos`; 0 when there is none. */
  function Hop(ring: Disk, pos: nat, expected: nat): nat
    requires 0 < |ring|
  {
    var b := At(ring, pos);
    if Plausible(|ring|, b) && b.seqNo < expected then |b.targets| + 2 else 0
  }

  /** Step over the records the superblock has acknowledged. */
  function Skip(ring: Disk, pos: nat, expected: nat, budget: nat): (c: Cursor)
    requires 0 < |ring|
    ensures c.pos == pos || c.pos < |ring|
    decreases budget
  {
    var k := Hop(ring, pos, expected);
    if budget == 0 || k == 0 then Cursor(pos, budget)
    else Skip(ring, Slot(pos + k, |ring|), expected, Sub(budget, k))
  }

  /** The block writes of the record at `pos`. */
  function PutsAt(ring: Disk, pos: nat): seq<Put>
    requires 0 < |ring|
  {
    var b := At(ring, pos);
    if b.Desc? then Puts(b.targets, Data(ring, pos, |b.targets|)) else []
  }

  /** How many slots the record at `pos` takes. */
  function SpanLen(ring: Disk, pos: nat): nat
    requires 0 < |ring|
  {
    if At(ring, pos).Desc? then |At(ring, pos).targets| + 2 else 0
  }

  /** Where the record at `pos` ends. */
  function Next(ring: Disk, pos: nat): (r: nat)
    requires 0 < |ring|
    ensures r < |ring|
  {
    Slot(pos + SpanLen(ring, pos), |ring|)
  }

  /** Replay complete records whose numbers chain up from `expected`. */
  function Replay(crc: Checksum, ring: Disk, fs: nat, pos: nat, expected: nat, budget: nat): (r: Scanned)
    requires 0 < |ring|
    ensures r.pos == pos || r.pos < |ring|
    decreases budget
  {
    if budget == 0 || !Complete(crc, ring, pos) || At(ring, pos).seqNo != expected then Scanned([], 0, pos, true)
    else
      var k := InBounds(At(ring, pos).targets, fs);
      if k < |At(ring, pos).targets| then Scanned(PutsAt(ring, pos)[..k], 0, pos, false)
      else
        var rest := Replay(crc, ring, fs, Next(ring, pos), expected + 1, Sub(budget, SpanLen(ring, pos)));
        Scanned(PutsAt(ring, pos) + rest.puts, rest.replayed + 1, rest.pos, rest.ok)
  }

  /** One lap of `Journal::recover`, from a superblock's tail and next sequence number. */
  function Scan(crc: Checksum, ring: Disk, fs: nat, tail: nat, nextSeq: nat): (r: Scanned)
    requires 0 < |ring|
    ensures r.pos == tail || r.pos < |ring|
  {
    var c := Skip(ring, tail, nextSeq, |ring|);
    Replay(crc, ring, fs, c.pos, nextSeq, c.budget)
  }

  /** `r` rewrites `puts` from `k` records and then does what `rest` does. */
  predicate Prepends(r: Scanned, puts: seq<Put>, k: nat, rest: Scanned) {
    r == Scanned(puts + rest.puts, k + rest.replayed, rest.pos, rest.ok)
  }

  /** Replaying one complete record: all its blocks and whatever follows, ... */
  lemma ReplayStep(crc: Checksum, ring: Disk, fs: nat, pos: nat, e: nat, budget: nat)
    requires 0 < |ring| && budget > 0 && Complete(crc, ring, pos) && At(ring, pos).seqNo == e
    requires InBounds(At(ring, pos).targets, fs) == |At(ring, pos).targets|
    ensures Prepends(Replay(crc, ring, fs, pos, e, budget), PutsAt(ring, pos), 1,
                     Replay(crc, ring, fs, Next(ring, pos), e + 1, Sub(budget, SpanLen(ring, pos))))
  {
  }

  /** ... or an error at the first target outside the filesystem. */
  lemma {:induction false} ReplayOut(crc: Checksum, ring: Disk, fs: nat, pos: nat, e: nat, budget: nat, k: nat)
    requires 0 < |ring| && budget > 0 && Complete(crc, ring, pos) && At(ring, pos).seqNo == e
    requires k == InBounds(At(ring, pos).targets, fs) < |At(ring, pos).targets| == |PutsAt(ring, pos)|
    ensures Replay(crc, ring, fs, pos, e, budget) == Scanned(PutsAt(ring, pos)[..k], 0, pos, false)
  {
  }

  // ─── a run of records, one after the other ─────────────────────────────────

  /** Where record `j` of those that start at `pos` begins. */
  function Along(ring: Disk, pos: nat, j: nat): nat
    requires 0 < |ring|
    decreases j
  {
    if j == 0 then pos else Along(ring, Next(ring, pos), j - 1)
  }

  /** The block writes of the first `j` records from `pos`. */
  function FirstPuts(ring: Disk, pos: nat, j: nat): seq<Put>
    requires 0 < |ring|
    decreases j
  {
    if j == 0 then [] else PutsAt(ring, pos) + FirstPuts(ring, Next(ring, pos), j - 1)
  }

  /** What `j` records from `pos` leave of a scan's budget. */
  function Spare(ring: Disk, pos: nat, budget: nat, j: nat): nat
    requires 0 < |ring|
    decreases j
  {
    if j == 0 then budget
    else Spare(ring, Next(ring, pos), Sub(budget, SpanLen(ring, pos)), j - 1)
  }

  // ─── when a scan has nothing to replay ─────────────────────────────────────

  predicate LiveAt(crc: Checksum, ring: Disk, q: nat, expected: nat)
    requires q < |ring|
  {
    ring[q].Desc? && ring[q].seqNo == expected && Complete(crc, ring, q)
  }

  /** The scan cannot get past slot `pos`. */
  predicate Halts(crc: Checksum, ring: Disk, pos: nat, expected: nat)
    requires pos < |ring|
  {
    var b := ring[pos];
    !Plausible(|ring|, b) || b.seqNo > expected || (b.seqNo == expected && !Complete(crc, ring, pos))
  }

  /** No complete record on the ring is numbered `e`. */
  ghost predicate NoneNumbered(crc: Checksum, ring: Disk, e: nat) {
    forall q :: 0 <= q < |ring| ==> !LiveAt(crc, ring, q, e)
  }

  /** Where `k` steps over records below `e` lead from `pos`. */
  function Onward(ring: Disk, pos: nat, e: nat, k: nat): (r: nat)
    requires pos < |ring|
    ensures r < |ring|
    decreases k
  {
    if k == 0 || Hop(ring, pos, e) == 0 then pos else Onward(ring, Slot(pos + Hop(ring, pos, e), |ring|), e, k - 1)
  }

  /** However far a scan steps on from `pos`, in one lap or several, it meets nothing to replay. */
  ghost predicate Dead(crc: Checksum, ring: Disk, pos: nat, expected: nat) {
    pos < |ring| && forall k: nat :: !LiveAt(crc, ring, Onward(ring, pos, expected, k), expected)
  }

  lemma NoneDead(crc: Checksum, ring: Disk, pos: nat, expected: nat)
    requires NoneNumbered(crc, ring, expected) && pos < |ring|
    ensures Dead(crc, ring, pos, expected)
  {
  }

  lemma HaltsDead(crc: Checksum, ring: Disk, pos: nat, expected: nat)
    requires pos < |ring| && Halts(crc, ring, pos, expected)
    ensures Dead(crc, ring, pos, expected)
  {
    assert Hop(ring, pos, expected) == 0;
  }

  /** A step over an older record neither finds nor loses anything to replay. */
  lemma DeadHop(crc: Checksum, ring: Disk, pos: nat, expected: nat, next: nat)
    requires pos < |ring| && Hop(ring, pos, expected) > 0 && next == Slot(pos + Hop(ring, pos, expected), |ring|)
    ensures Dead(crc, ring, pos, expected) <==> Dead(crc, ring, next, expected)
  {
    if Dead(crc, ring, next, expected) {
      forall k: nat ensures !LiveAt(crc, ring, Onward(ring, pos, expected, k), expected) {
        if k > 0 { assert Onward(ring, pos, expected, k) == Onward(ring, next, expected, k - 1); }
      }
    }
    if Dead(crc, ring, pos, expected) {
      forall k: nat ensures !LiveAt(crc, ring, Onward(ring, next, expected, k), expected) {
        assert Onward(ring, pos, expected, k + 1) == Onward(ring, next, expected, k);
      }
    }
  }

  lemma DeadHere(crc: Checksum, ring: Disk, pos: nat, expected: nat)
    requires Dead(crc, ring, pos, expected)
    ensures !LiveAt(crc, ring, pos, expected)
  {
    assert Onward(ring, pos, expected, 0) == pos;
  }

  lemma {:induction false} DeadSkip(crc: Checksum, ring: Disk, pos: nat, expected: nat, budget: nat)
    requires pos < |ring|
    ensures var c := Skip(ring, pos, expected, budget);
            c.pos < |ring| && (Dead(crc, ring, c.pos, expected) <==> Dead(crc, ring, pos, expected))
    decreases budget
  {
    var k := Hop(ring, pos, expected);
    if budget > 0 && k > 0 {
      DeadHop(crc, ring, pos, expected, Slot(pos + k, |ring|));
      DeadSkip(crc, ring, Slot(pos + k, |ring|), expected, Sub(budget, k));
    }
  }

  lemma DeadScan(crc: Checksum, ring: Disk, fs: nat, pos: nat, expected: nat)
    requires Dead(crc, ring, pos, expected)
    ensures var r := Scan(crc, ring, fs, pos, expected);
            r.puts == [] && r.replayed == 0 && r.ok && Dead(crc, ring, r.pos, expected)
  {
    DeadSkip(crc, ring, pos, expected, |ring|);
    var c := Skip(ring, pos, expected, |ring|);
    DeadHere(crc, ring, c.pos, expected);
  }

  // ─── what a scan leaves ────────────────────────────────────────────────────

  /**
   * A scan of `ring` from `tail`, expecting `e`, turns the filesystem `fs` into `after` and leaves
   * nothing to replay.
   */
  ghost predicate Settles(crc: Checksum, ring: Disk, fs: Disk, tail: nat, e: nat, after: Disk)
    requires 0 < |ring|
  {
    SettlesBy(crc, ring, fs, e, after, Scan(crc, ring, |fs|, tail, e))
  }

  ghost predicate SettlesBy(crc: Checksum, ring: Disk, fs: Disk, e: nat, after: Disk, r: Scanned) {
    r.ok && Apply(fs, r.puts) == after && Dead(crc, ring, r.pos, e + r.replayed)
  }

  lemma DeadSettles(crc: Checksum, ring: Disk, fs: Disk, tail: nat, e: nat)
    requires Dead(crc, ring, tail, e)
    ensures Settles(crc, ring, fs, tail, e, fs) && Scan(crc, ring, |fs|, tail, e).replayed == 0
  {
    DeadScan(crc, ring, |fs|, tail, e);
  }

  // ─── stepping over acknowledged records ────────────────────────────────────

  /** From `pos`, `len` slots are tiled by descriptors below `bound`: the scan steps over them. */
  predicate Path(ring: Disk, pos: nat, len: nat, bound: nat)
    requires 0 < |ring|
    decreases len
  {
    len == 0 ||
    var k := Hop(ring, pos, bound);
    0 < k <= len && Path(ring, Slot(pos + k, |ring|), len - k, bound)
  }

  /** Nothing a scan expecting `e` could step over or replay. */
  predicate Wall(ring: Disk, pos: nat, e: nat)
    requires 0 < |ring|
  {
    !Plausible(|ring|, At(ring, pos)) || At(ring, pos).seqNo > e
  }

  lemma {:induction false} PathSkip(ring: Disk, pos: nat, len: nat, end: nat, e: nat, budget: nat, rest: nat)
    requires pos < |ring| && len < |ring| && end == Slot(pos + len, |ring|) && Path(ring, pos, len, e)
    requires budget == len + rest
    ensures Skip(ring, pos, e, budget) == Skip(ring, end, e, rest)
    decreases len
  {
    if len > 0 {
      var k := Hop(ring, pos, e);
      PathSkip(ring, Slot(pos + k, |ring|), len - k, end, e, budget - k, rest);
    }
  }

  lemma {:induction false} PathKept(ring: Disk, other: Disk, pos: nat, len: nat, bound: nat, bound': nat)
    requires 0 < |ring| == |other| && pos < |ring| && len <= |ring| && bound <= bound' && Path(ring, pos, len, bound)
    requires forall q :: 0 <= q < |ring| && Dist(pos, q, |ring|) < len ==> other[q] == ring[q]
    ensures Path(other, pos, len, bound')
    decreases len
  {
    if len > 0 {
      assert Dist(pos, pos, |ring|) == 0;
      var k := Hop(ring, pos, bound);
      PathKept(ring, other, Slot(pos + k, |ring|), len - k, bound, bound');
    }
  }

  lemma {:induction false} PathAppend(ring: Disk, pos: nat, len: nat, bound: nat)
    requires 0 < |ring| && pos < |ring| && len < |ring| && Path(ring, pos, len, bound)
    requires 0 < Hop(ring, Slot(pos + len, |ring|), bound) <= |ring| - len
    ensures Path(ring, pos, len + Hop(ring, Slot(pos + len, |ring|), bound), bound)
    decreases len
  {
    if len > 0 {
      var k := Hop(ring, pos, bound);
      var next := Slot(pos + k, |ring|);
      assert Slot(next + (len - k), |ring|) == Slot(pos + len, |ring|);
      PathAppend(ring, next, len - k, bound);
    }
  }
}
