/** Recovery from a superblock that is behind: records it does not acknowledge yet, partly overwritten by a new one. */
module BehindRing {
  import opened Disks
  import opened Ring
  import opened TornRing

  // ─── stepping over ─────────────────────────────────────────────────────────

  /** Slot `x` holds a descriptor that the scan steps over. */
  predicate Met(ring: Disk, pos: nat, e: nat, budget: nat, x: nat)
    requires pos < |ring|
    decreases budget
  {
    var k := Hop(ring, pos, e);
    budget > 0 && k > 0 && (x == pos || Met(ring, Slot(pos + k, |ring|), e, Sub(budget, k), x))
  }

  lemma {:induction false} SkipLeft(ring: Disk, pos: nat, e: nat, budget: nat)
    requires pos < |ring|
    ensures Skip(ring, pos, e, budget).budget <= budget && Skip(ring, pos, e, budget).pos < |ring|
    decreases budget
  {
    var k := Hop(ring, pos, e);
    if budget > 0 && k > 0 { SkipLeft(ring, Slot(pos + k, |ring|), e, Sub(budget, k)); }
  }

  /** A block of a newer record is nothing that a scan expecting less could step over or replay. */
  lemma NewBlocks(crc: Checksum, ring: Disk, ring': Disk, at: nat, s: nat, txn: Txn, e: nat, q: nat)
    requires Plain(txn) && Partly(ring, ring', at, Record(crc, txn, s)) && e < s && q < |ring|
    ensures ring'[q] == ring[q] || Wall(ring', q, e)
    ensures ring'[q] != ring[q] && ring'[q].Commit? ==> ring'[q].seqNo == s
  {
    assert May(ring, at, Record(crc, txn, s), q, ring'[q]);
    if ring'[q] != ring[q] { StampedKinds(crc, txn, s, Dist(at, q, |ring|)); }
  }

  lemma NewHop(crc: Checksum, ring: Disk, ring': Disk, at: nat, s: nat, txn: Txn, e: nat, q: nat)
    requires Plain(txn) && Partly(ring, ring', at, Record(crc, txn, s)) && e <= s && q < |ring| && ring'[q] != ring[q]
    ensures Hop(ring', q, e) == 0
  {
    assert May(ring, at, Record(crc, txn, s), q, ring'[q]);
    StampedKinds(crc, txn, s, Dist(at, q, |ring|));
  }

  /** The descriptors stepped over are as they were. */
  ghost predicate MetKept(ring: Disk, ring': Disk, pos: nat, e: nat, budget: nat)
    requires pos < |ring| && |ring'| == |ring|
  {
    forall x: nat :: x < |ring| && Met(ring, pos, e, budget, x) ==> ring'[x] == ring[x]
  }

  lemma MetStep(ring: Disk, ring': Disk, pos: nat, e: nat, budget: nat, k: nat)
    requires pos < |ring| && |ring'| == |ring| && ring'[pos] == ring[pos] && k == Hop(ring, pos, e)
    requires k == 0 || budget == 0 || MetKept(ring, ring', Slot(pos + k, |ring|), e, Sub(budget, k))
    ensures MetKept(ring, ring', pos, e, budget)
  {
  }

  /** The scan is stuck at a changed block. */
  ghost predicate Stuck(ring: Disk, ring': Disk, pos: nat, e: nat, budget: nat)
    requires 0 < |ring'| == |ring|
  {
    var c := Skip(ring', pos, e, budget);
    c.pos < |ring| && ring'[c.pos] != ring[c.pos]
  }

  /** The scan steps over the same descriptors, or is stuck at a block of the new record. */
  lemma {:induction false} SkipCut(crc: Checksum, ring: Disk, ring': Disk, at: nat, s: nat, txn: Txn, pos: nat, e: nat,
                                   budget: nat)
    returns (same: bool)
    requires Plain(txn) && Partly(ring, ring', at, Record(crc, txn, s)) && e <= s && pos < |ring|
    ensures same ==> Skip(ring', pos, e, budget) == Skip(ring, pos, e, budget) && MetKept(ring, ring', pos, e, budget)
    ensures !same ==> Stuck(ring, ring', pos, e, budget)
    decreases budget
  {
    var k := Hop(ring, pos, e);
    if ring'[pos] != ring[pos] {
      NewHop(crc, ring, ring', at, s, txn, e, pos);
      same := false;
    } else if budget > 0 && k > 0 {
      same := SkipCut(crc, ring, ring', at, s, txn, Slot(pos + k, |ring|), e, Sub(budget, k));
      if same { MetStep(ring, ring', pos, e, budget, k); }
    } else {
      MetStep(ring, ring', pos, e, budget, k);
      same := true;
    }
  }

  /** Either way no less of the budget is left. */
  lemma {:induction false} SkipRoom(crc: Checksum, ring: Disk, ring': Disk, at: nat, s: nat, txn: Txn, pos: nat, e: nat,
                                    budget: nat)
    requires Plain(txn) && Partly(ring, ring', at, Record(crc, txn, s)) && e <= s && pos < |ring|
    ensures Skip(ring, pos, e, budget).budget <= Skip(ring', pos, e, budget).budget
    decreases budget
  {
    var k := Hop(ring, pos, e);
    if ring'[pos] != ring[pos] {
      NewHop(crc, ring, ring', at, s, txn, e, pos);
      SkipLeft(ring, pos, e, budget);
    } else if budget > 0 && k > 0 {
      SkipRoom(crc, ring, ring', at, s, txn, Slot(pos + k, |ring|), e, Sub(budget, k));
    }
  }

  /** A change that hits no descriptor stepped over, nor the one the scan ends on, leaves the stepping alone. */
  lemma {:induction false} SkipKept(ring: Disk, pos: nat, e: nat, budget: nat, x: nat, b: Block)
    requires pos < |ring| && x < |ring| && !Met(ring, pos, e, budget, x) && x != Skip(ring, pos, e, budget).pos
    ensures Skip(ring[x := b], pos, e, budget) == Skip(ring, pos, e, budget)
    decreases budget
  {
    var k := Hop(ring, pos, e);
    if x != pos { HopKept(ring, pos, e, x, b); }
    if budget > 0 && k > 0 { SkipKept(ring, Slot(pos + k, |ring|), e, Sub(budget, k), x, b); }
  }

  lemma HopKept(ring: Disk, pos: nat, e: nat, x: nat, b: Block)
    requires pos < |ring| && x < |ring| && x != pos
    ensures Hop(ring[x := b], pos, e) == Hop(ring, pos, e)
  {
  }

  // ─── the records behind which the superblock is ────────────────────────────

  predicate Within(ring: Disk, q: nat, x: nat)
    requires q < |ring| && x < |ring|
  {
    Dist(q, x, |ring|) < SpanLen(ring, q)
  }

  ghost predicate SameSpan(ring: Disk, ring': Disk, q: nat)
    requires |ring'| == |ring| && q < |ring|
  {
    forall x :: 0 <= x < |ring| && Within(ring, q, x) ==> ring'[x] == ring[x]
  }

  /** The checksum of record `q` tells its data from anything that the new record makes of it. */
  ghost predicate Tells(crc: Checksum, ring: Disk, at: nat, rec: seq<Block>, q: nat)
    requires at < |ring| && q < |ring|
  {
    ring[q].Desc? ==> TellsApart(crc, ring, at, rec, q, Data(ring, q, |ring[q].targets|))
  }

  /** ... for each of `k` records from `pos`. */
  ghost predicate AllTell(crc: Checksum, ring: Disk, at: nat, rec: seq<Block>, pos: nat, k: nat)
    requires at < |ring| && pos < |ring|
    decreases k
  {
    k > 0 ==> Tells(crc, ring, at, rec, pos) && AllTell(crc, ring, at, rec, Next(ring, pos), k - 1)
  }

  lemma {:induction false} SpanData(ring: Disk, ring': Disk, q: nat, n: nat)
    requires |ring'| == |ring| && q < |ring| && ring[q].Desc? && n == |ring[q].targets| && n + 2 <= |ring|
    ensures SameSpan(ring, ring', q) <==>
      ring'[q] == ring[q] && Data(ring', q, n) == Data(ring, q, n) && At(ring', q + 1 + n) == At(ring, q + 1 + n)
  {
    if SameSpan(ring, ring', q) {
      WithinAt(ring, q, 0);
      WithinAt(ring, q, n + 1);
      assert q + (n + 1) == q + 1 + n;
      forall i | 0 <= i < n ensures Data(ring', q, n)[i] == Data(ring, q, n)[i] {
        WithinAt(ring, q, i + 1);
        DataAt(ring, q, n, i);
        DataAt(ring', q, n, i);
        assert q + (i + 1) == q + 1 + i;
      }
    }
    if ring'[q] == ring[q] && Data(ring', q, n) == Data(ring, q, n) && At(ring', q + 1 + n) == At(ring, q + 1 + n) {
      forall x | 0 <= x < |ring| && Within(ring, q, x) ensures ring'[x] == ring[x] {
        SpanBlock(ring, ring', q, n, x);
      }
    }
  }

  lemma WithinAt(ring: Disk, q: nat, i: nat)
    requires q < |ring| && i < SpanLen(ring, q) <= |ring|
    ensures Within(ring, q, Slot(q + i, |ring|))
  {
    assert Dist(q, Slot(q + i, |ring|), |ring|) == i;
  }

  lemma {:induction false} SpanBlock(ring: Disk, ring': Disk, q: nat, n: nat, x: nat)
    requires |ring'| == |ring| && q < |ring| && n + 2 <= |ring| && x < |ring| && Dist(q, x, |ring|) < n + 2
    requires ring'[q] == ring[q] && Data(ring', q, n) == Data(ring, q, n) && At(ring', q + 1 + n) == At(ring, q + 1 + n)
    ensures ring'[x] == ring[x]
  {
    var i := Dist(q, x, |ring|);
    assert x == Slot(q + i, |ring|);
    if 0 < i <= n {
      DataAt(ring, q, n, i - 1);
      DataAt(ring', q, n, i - 1);
      assert q + i == q + 1 + (i - 1);
    } else if i > 0 {
      assert q + i == q + 1 + n;
    }
  }

  /** A record that the new one has changed at all stops the scan. */
  lemma ChangedHalts(crc: Checksum, ring: Disk, ring': Disk, at: nat, s: nat, txn: Txn, e: nat, q: nat)
    requires Plain(txn) && Partly(ring, ring', at, Record(crc, txn, s)) && e < s && q < |ring|
    requires LiveAt(crc, ring, q, e) && Tells(crc, ring, at, Record(crc, txn, s), q) && !SameSpan(ring, ring', q)
    ensures Halts(crc, ring', q, e)
  {
    NewBlocks(crc, ring, ring', at, s, txn, e, q);
    if ring'[q] == ring[q] && Complete(crc, ring', q) {
      StillSame(crc, ring, ring', at, s, txn, e, q, |ring[q].targets|);
    }
  }

  lemma StillSame(crc: Checksum, ring: Disk, ring': Disk, at: nat, s: nat, txn: Txn, e: nat, q: nat, n: nat)
    requires Plain(txn) && Partly(ring, ring', at, Record(crc, txn, s)) && e < s && q < |ring|
    requires LiveAt(crc, ring, q, e) && Tells(crc, ring, at, Record(crc, txn, s), q)
    requires ring'[q] == ring[q] && LiveAt(crc, ring', q, e) && n == |ring[q].targets|
    ensures SameSpan(ring, ring', q)
  {
    LiveBlocks(crc, ring, q, e);
    LiveBlocks(crc, ring', q, e);
    NewBlocks(crc, ring, ring', at, s, txn, e, Slot(q + 1 + n, |ring|));
    PartlyMixed(ring, ring', at, Record(crc, txn, s), q, n);
    assert Data(ring', q, n) == Data(ring, q, n);
    SpanData(ring, ring', q, n);
  }

  lemma SameLive(crc: Checksum, ring: Disk, ring': Disk, q: nat, e: nat)
    requires |ring'| == |ring| && q < |ring| && LiveAt(crc, ring, q, e) && SameSpan(ring, ring', q)
    ensures LiveAt(crc, ring', q, e) && ring'[q] == ring[q] && PutsAt(ring', q) == PutsAt(ring, q)
  {
    LiveBlocks(crc, ring, q, e);
    SpanData(ring, ring', q, |ring[q].targets|);
  }

  /** Slot `x` belongs to record `j` of those from `pos`, and to none before it. */
  ghost predicate Hits(ring: Disk, pos: nat, j: nat, x: nat)
    requires pos < |ring| && x < |ring|
    decreases j
  {
    if j == 0 then Within(ring, pos, x)
    else !Within(ring, pos, x) && Hits(ring, Next(ring, pos), j - 1, x)
  }

  // ─── replaying them ────────────────────────────────────────────────────────

  /** From `pos` on lie `k` records that a scan replays one after the other. */
  ghost predicate LiveRun(crc: Checksum, ring: Disk, fs: nat, pos: nat, e: nat, budget: nat, k: nat)
    requires pos < |ring|
    decreases k
  {
    k > 0 ==>
      && budget > 0 && LiveAt(crc, ring, pos, e) && InBounds(ring[pos].targets, fs) == |ring[pos].targets|
      && LiveRun(crc, ring, fs, Next(ring, pos), e + 1, Sub(budget, SpanLen(ring, pos)), k - 1)
  }

  lemma {:induction false} RunOf(crc: Checksum, ring: Disk, fs: nat, pos: nat, e: nat, budget: nat, k: nat)
    requires pos < |ring|
    requires Replay(crc, ring, fs, pos, e, budget).ok && Replay(crc, ring, fs, pos, e, budget).replayed >= k
    ensures LiveRun(crc, ring, fs, pos, e, budget, k)
    decreases k
  {
    if k > 0 { RunOf(crc, ring, fs, Next(ring, pos), e + 1, Sub(budget, SpanLen(ring, pos)), k - 1); }
  }

  lemma PrependsLater(a: Scanned, one: seq<Put>, b: Scanned, puts: seq<Put>, k: nat, c: Scanned)
    requires Prepends(a, one, 1, b) && Prepends(b, puts, k, c)
    ensures Prepends(a, one + puts, k + 1, c)
  {
    assert one + (puts + c.puts) == one + puts + c.puts;
  }

  /** The first `k` records from `pos` are replayed whole, and the scan goes on behind them, expecting `s`. */
  ghost predicate RunsTo(crc: Checksum, ring: Disk, fs: nat, pos: nat, e: nat, budget: nat, k: nat, s: nat)
    requires 0 < |ring|
  {
    Prepends(Replay(crc, ring, fs, pos, e, budget), FirstPuts(ring, pos, k), k,
             Replay(crc, ring, fs, Along(ring, pos, k), s, Spare(ring, pos, budget, k)))
  }

  lemma RunsNone(crc: Checksum, ring: Disk, fs: nat, pos: nat, e: nat, budget: nat)
    requires 0 < |ring|
    ensures RunsTo(crc, ring, fs, pos, e, budget, 0, e)
  {
    assert [] + Replay(crc, ring, fs, pos, e, budget).puts == Replay(crc, ring, fs, pos, e, budget).puts;
  }

  lemma RunsLonger(crc: Checksum, ring: Disk, fs: nat, pos: nat, e: nat, budget: nat, k: nat, s: nat, next: nat,
                   left: nat)
    requires pos < |ring| && next == Next(ring, pos) && left == Sub(budget, SpanLen(ring, pos))
    requires Prepends(Replay(crc, ring, fs, pos, e, budget), PutsAt(ring, pos), 1,
                      Replay(crc, ring, fs, next, e + 1, left))
    requires RunsTo(crc, ring, fs, next, e + 1, left, k, s)
    ensures RunsTo(crc, ring, fs, pos, e, budget, k + 1, s)
  {
    var last := Replay(crc, ring, fs, Along(ring, next, k), s, Spare(ring, next, left, k));
    PrependsLater(Replay(crc, ring, fs, pos, e, budget), PutsAt(ring, pos), Replay(crc, ring, fs, next, e + 1, left),
                  FirstPuts(ring, next, k), k, last);
  }

  lemma {:induction false} RunReplayed(crc: Checksum, ring: Disk, fs: nat, pos: nat, e: nat, budget: nat, k: nat,
                                       s: nat)
    requires pos < |ring| && e + k == s && LiveRun(crc, ring, fs, pos, e, budget, k)
    ensures RunsTo(crc, ring, fs, pos, e, budget, k, s)
    decreases k
  {
    if k == 0 {
      RunsNone(crc, ring, fs, pos, e, budget);
    } else {
      var next, left := Next(ring, pos), Sub(budget, SpanLen(ring, pos));
      ReplayStep(crc, ring, fs, pos, e, budget);
      RunReplayed(crc, ring, fs, next, e + 1, left, k - 1, s);
      RunsLonger(crc, ring, fs, pos, e, budget, k - 1, s, next, left);
    }
  }

  /** A member of the run, and what follows from it. */
  lemma {:induction false} RunAt(crc: Checksum, ring: Disk, fs: nat, at: nat, rec: seq<Block>, pos: nat, e: nat,
                                 budget: nat, k: nat, j: nat)
    requires at < |ring| && pos < |ring| && LiveRun(crc, ring, fs, pos, e, budget, k)
    requires AllTell(crc, ring, at, rec, pos, k) && j < k
    ensures Along(ring, pos, j) < |ring| && LiveAt(crc, ring, Along(ring, pos, j), e + j)
    ensures Tells(crc, ring, at, rec, Along(ring, pos, j)) && LiveRun(crc, ring, fs, pos, e, budget, j)
    decreases j
  {
    if j > 0 { RunAt(crc, ring, fs, at, rec, Next(ring, pos), e + 1, Sub(budget, SpanLen(ring, pos)), k - 1, j - 1); }
  }

  // ─── one record after another, old ring and new ────────────────────────────

  /** The first `j` records from `pos` are as they were. */
  ghost predicate AllSame(ring: Disk, ring': Disk, pos: nat, j: nat)
    requires |ring'| == |ring| && pos < |ring|
    decreases j
  {
    j > 0 ==> SameSpan(ring, ring', pos) && AllSame(ring, ring', Next(ring, pos), j - 1)
  }

  lemma SameNext(crc: Checksum, ring: Disk, ring': Disk, q: nat, e: nat)
    requires |ring'| == |ring| && q < |ring| && LiveAt(crc, ring, q, e) && SameSpan(ring, ring', q)
    ensures Next(ring', q) == Next(ring, q) && SpanLen(ring', q) == SpanLen(ring, q)
  {
    SameLive(crc, ring, ring', q, e);
  }

  lemma {:induction false} SameRun(crc: Checksum, ring: Disk, ring': Disk, fs: nat, pos: nat, e: nat, budget: nat,
                                   j: nat)
    requires |ring'| == |ring| && pos < |ring| && LiveRun(crc, ring, fs, pos, e, budget, j)
    requires AllSame(ring, ring', pos, j)
    ensures LiveRun(crc, ring', fs, pos, e, budget, j)
    decreases j
  {
    if j > 0 {
      SameLive(crc, ring, ring', pos, e);
      SameNext(crc, ring, ring', pos, e);
      SameRun(crc, ring, ring', fs, Next(ring, pos), e + 1, Sub(budget, SpanLen(ring, pos)), j - 1);
    }
  }

  lemma {:induction false} SameWalk(crc: Checksum, ring: Disk, ring': Disk, fs: nat, pos: nat, e: nat, budget: nat,
                                    j: nat)
    requires |ring'| == |ring| && pos < |ring| && LiveRun(crc, ring, fs, pos, e, budget, j)
    requires AllSame(ring, ring', pos, j)
    ensures Along(ring', pos, j) == Along(ring, pos, j) && FirstPuts(ring', pos, j) == FirstPuts(ring, pos, j)
    ensures Spare(ring', pos, budget, j) == Spare(ring, pos, budget, j)
    decreases j
  {
    if j > 0 {
      SameLive(crc, ring, ring', pos, e);
      SameNext(crc, ring, ring', pos, e);
      SameWalk(crc, ring, ring', fs, Next(ring, pos), e + 1, Sub(budget, SpanLen(ring, pos)), j - 1);
    }
  }

  /** How many of `k` records are as they were, and a changed block of the next one. */
  lemma {:induction false} FirstBreak(ring: Disk, ring': Disk, pos: nat, k: nat) returns (j: nat, x: nat)
    requires |ring'| == |ring| && pos < |ring|
    ensures j <= k && x < |ring| && AllSame(ring, ring', pos, j)
    ensures j < k ==> ring'[x] != ring[x] && Hits(ring, pos, j, x)
    ensures j < k ==> Along(ring, pos, j) < |ring| && Within(ring, Along(ring, pos, j), x)
    decreases k
  {
    if k == 0 {
      j, x := 0, 0;
    } else if SameSpan(ring, ring', pos) {
      j, x := FirstBreak(ring, ring', Next(ring, pos), k - 1);
      j := j + 1;
    } else {
      j := 0;
      x :| 0 <= x < |ring| && Within(ring, pos, x) && ring'[x] != ring[x];
    }
  }

  // ─── the whole scan ────────────────────────────────────────────────────────

  /** Where the scan stops stepping over. */
  ghost function Start(ring: Disk, tail: nat, e: nat): nat
    requires 0 < |ring|
  {
    Skip(ring, tail, e, |ring|).pos
  }

  /** What `k` records leave of the scan's budget. */
  ghost function Left(ring: Disk, tail: nat, e: nat, k: nat): nat
    requires 0 < |ring|
  {
    Spare(ring, Start(ring, tail, e), Skip(ring, tail, e, |ring|).budget, k)
  }

  /** Block `i` of `rec`, written from `at`, falls on record `j` of the `k` and on nothing the scan reads before it. */
  ghost predicate Breaks(ring: Disk, tail: nat, e: nat, k: nat, at: nat, rec: seq<Block>, j: nat, i: nat) {
    && at < |ring| && tail < |ring| && Start(ring, tail, e) < |ring| && 0 < j < k && i < |rec|
    && var x := Slot(at + i, |ring|);
       rec[i] != ring[x] && !Met(ring, tail, e, |ring|, x) && Hits(ring, Start(ring, tail, e), j, x)
  }

  /** The scan replays the first `j` records and cannot go on. */
  ghost predicate Shortened(crc: Checksum, ring: Disk, ring': Disk, fs: nat, tail: nat, e: nat, j: nat)
    requires 0 < |ring'| == |ring|
  {
    StopsAt(crc, ring', e, FirstPuts(ring, Start(ring, tail, e), j), j, Scan(crc, ring', fs, tail, e))
  }

  ghost predicate StopsAt(crc: Checksum, ring: Disk, e: nat, puts: seq<Put>, j: nat, r: Scanned) {
    r == Scanned(puts, j, r.pos, true) && r.pos < |ring| && Halts(crc, ring, r.pos, e + j)
  }

  /** The scan replays all `k` records and goes on at `at`, expecting `s`. */
  ghost predicate Continued(crc: Checksum, ring: Disk, ring': Disk, fs: nat, tail: nat, e: nat, k: nat, at: nat, s: nat)
    requires 0 < |ring'| == |ring|
  {
    Prepends(Scan(crc, ring', fs, tail, e), FirstPuts(ring, Start(ring, tail, e), k), k,
             Replay(crc, ring', fs, at, s, Left(ring, tail, e, k)))
  }

  lemma {:induction false} ReplayNone(crc: Checksum, ring: Disk, fs: nat, pos: nat, e: nat, budget: nat)
    requires 0 < |ring| && Replay(crc, ring, fs, pos, e, budget).ok
    requires Replay(crc, ring, fs, pos, e, budget).replayed == 0
    ensures Replay(crc, ring, fs, pos, e, budget) == Scanned([], 0, pos, true)
  {
  }

  /** What a scan that replays `k` records consists of. */
  lemma {:induction false} ScanParts(crc: Checksum, ring: Disk, fs: nat, tail: nat, e: nat, k: nat)
    requires tail < |ring| && Scan(crc, ring, fs, tail, e).ok && Scan(crc, ring, fs, tail, e).replayed == k
    ensures Start(ring, tail, e) < |ring|
    ensures LiveRun(crc, ring, fs, Start(ring, tail, e), e, Skip(ring, tail, e, |ring|).budget, k)
    ensures Scan(crc, ring, fs, tail, e)
         == Scanned(FirstPuts(ring, Start(ring, tail, e), k), k, Along(ring, Start(ring, tail, e), k), true)
  {
    var start, budget := Start(ring, tail, e), Skip(ring, tail, e, |ring|).budget;
    SkipLeft(ring, tail, e, |ring|);
    RunOf(crc, ring, fs, start, e, budget, k);
    RunReplayed(crc, ring, fs, start, e, budget, k, e + k);
    RunOnly(crc, ring, fs, start, e, budget, k, e + k);
  }

  lemma {:induction false} RunOnly(crc: Checksum, ring: Disk, fs: nat, pos: nat, e: nat, budget: nat, k: nat, s: nat)
    requires 0 < |ring| && RunsTo(crc, ring, fs, pos, e, budget, k, s)
    requires Replay(crc, ring, fs, pos, e, budget).ok && Replay(crc, ring, fs, pos, e, budget).replayed == k
    ensures Replay(crc, ring, fs, pos, e, budget) == Scanned(FirstPuts(ring, pos, k), k, Along(ring, pos, k), true)
  {
    ReplayNone(crc, ring, fs, Along(ring, pos, k), s, Spare(ring, pos, budget, k));
    assert FirstPuts(ring, pos, k) + [] == FirstPuts(ring, pos, k);
  }

  lemma {:induction false} WallStops(crc: Checksum, ring: Disk, fs: nat, pos: nat, e: nat, budget: nat)
    requires pos < |ring| && Wall(ring, pos, e)
    ensures StopsAt(crc, ring, e, [], 0, Replay(crc, ring, fs, pos, e, budget))
  {
  }

  lemma {:induction false} BrokenStops(crc: Checksum, ring: Disk, fs: nat, pos: nat, e: nat, budget: nat, j: nat,
                                       s: nat)
    requires 0 < |ring| && e + j == s && RunsTo(crc, ring, fs, pos, e, budget, j, s)
    requires Along(ring, pos, j) < |ring| && Halts(crc, ring, Along(ring, pos, j), s)
    ensures StopsAt(crc, ring, e, FirstPuts(ring, pos, j), j, Replay(crc, ring, fs, pos, e, budget))
  {
    ReplayDead(crc, ring, fs, Along(ring, pos, j), s, Spare(ring, pos, budget, j));
    assert FirstPuts(ring, pos, j) + [] == FirstPuts(ring, pos, j);
  }

  /** The first `j` of a run of records are as they were. */
  lemma {:induction false} RunKept(crc: Checksum, ring: Disk, ring': Disk, fs: nat, pos: nat, e: nat, budget: nat,
                                   j: nat, s: nat)
    requires e + j == s && |ring'| == |ring| && pos < |ring| && LiveRun(crc, ring, fs, pos, e, budget, j)
    requires AllSame(ring, ring', pos, j)
    ensures RunsTo(crc, ring', fs, pos, e, budget, j, s)
    ensures Along(ring', pos, j) == Along(ring, pos, j) && FirstPuts(ring', pos, j) == FirstPuts(ring, pos, j)
    ensures Spare(ring', pos, budget, j) == Spare(ring, pos, budget, j)
  {
    SameRun(crc, ring, ring', fs, pos, e, budget, j);
    SameWalk(crc, ring, ring', fs, pos, e, budget, j);
    RunReplayed(crc, ring', fs, pos, e, budget, j, s);
  }

  /** The replay stops at the first record that has changed. */
  lemma {:induction false} RunBroken(crc: Checksum, ring: Disk, ring': Disk, fs: nat, at: nat, s: nat, txn: Txn,
                                     pos: nat, e: nat, budget: nat, k: nat, j: nat, x: nat)
    requires Plain(txn) && Partly(ring, ring', at, Record(crc, txn, s)) && pos < |ring| && e + k <= s && j < k
    requires LiveRun(crc, ring, fs, pos, e, budget, k) && AllTell(crc, ring, at, Record(crc, txn, s), pos, k)
    requires AllSame(ring, ring', pos, j) && Along(ring, pos, j) < |ring|
    requires x < |ring| && Within(ring, Along(ring, pos, j), x) && ring'[x] != ring[x]
    ensures StopsAt(crc, ring', e, FirstPuts(ring, pos, j), j, Replay(crc, ring', fs, pos, e, budget))
  {
    RunAt(crc, ring, fs, at, Record(crc, txn, s), pos, e, budget, k, j);
    ChangedHalts(crc, ring, ring', at, s, txn, e + j, Along(ring, pos, j));
    RunKept(crc, ring, ring', fs, pos, e, budget, j, e + j);
    BrokenStops(crc, ring', fs, pos, e, budget, j, e + j);
  }

  /**
   * A scan from a superblock that is `k` records behind, over a ring to which part of the next record
   * has come: it replays the `k` records and goes on to the new one, or stops after `j` of them, and
   * then for `j > 0` some single block of the new record explains it.
   */
  lemma ScanCut(crc: Checksum, ring: Disk, ring': Disk, fs: nat, at: nat, s: nat, txn: Txn, tail: nat, e: nat, k: nat)
    returns (j: nat, i: nat)
    requires Plain(txn) && Partly(ring, ring', at, Record(crc, txn, s)) && tail < |ring| && 0 < k && e + k == s
    requires Scan(crc, ring, fs, tail, e).ok && Scan(crc, ring, fs, tail, e).replayed == k
    requires Start(ring, tail, e) < |ring| && AllTell(crc, ring, at, Record(crc, txn, s), Start(ring, tail, e), k)
    ensures j <= k && (j < k ==> Shortened(crc, ring, ring', fs, tail, e, j))
    ensures 0 < j < k ==> Breaks(ring, tail, e, k, at, Record(crc, txn, s), j, i)
    ensures j == k ==> Continued(crc, ring, ring', fs, tail, e, k, Along(ring, Start(ring, tail, e), k), s)
  {
    var start, budget := Start(ring, tail, e), Skip(ring, tail, e, |ring|).budget;
    ScanParts(crc, ring, fs, tail, e, k);
    j, i := 0, 0;
    var same := SkipCut(crc, ring, ring', at, s, txn, tail, e, |ring|);
    if same {
      var x;
      j, x := FirstBreak(ring, ring', start, k);
      if j < k {
        RunBroken(crc, ring, ring', fs, at, s, txn, start, e, budget, k, j, x);
        i := BreakIndex(ring, ring', tail, e, k, at, Record(crc, txn, s), j, x);
      } else {
        RunKept(crc, ring, ring', fs, start, e, budget, k, s);
      }
    } else {
      var c := Skip(ring', tail, e, |ring|);
      NewBlocks(crc, ring, ring', at, s, txn, e, c.pos);
      WallStops(crc, ring', fs, c.pos, e, c.budget);
    }
  }

  lemma BreakIndex(ring: Disk, ring': Disk, tail: nat, e: nat, k: nat, at: nat, rec: seq<Block>, j: nat, x: nat)
    returns (i: nat)
    requires Partly(ring, ring', at, rec) && tail < |ring| && Start(ring, tail, e) < |ring| && x < |ring| && j < k
    requires ring'[x] != ring[x] && Hits(ring, Start(ring, tail, e), j, x) && MetKept(ring, ring', tail, e, |ring|)
    ensures 0 < j ==> Breaks(ring, tail, e, k, at, rec, j, i)
  {
    i := Dist(at, x, |ring|);
    assert May(ring, at, rec, x, ring'[x]);
    assert Slot(at + i, |ring|) == x;
  }

  // ─── one block is enough ───────────────────────────────────────────────────

  lemma {:induction false} HitsAlone(ring: Disk, b: Block, pos: nat, j: nat, x: nat)
    requires pos < |ring| && x < |ring| && Hits(ring, pos, j, x)
    ensures AllSame(ring, ring[x := b], pos, j)
    ensures Along(ring, pos, j) < |ring| && Within(ring, Along(ring, pos, j), x)
    decreases j
  {
    if j > 0 { HitsAlone(ring, b, Next(ring, pos), j - 1, x); }
  }

  lemma OnePartly(ring: Disk, at: nat, rec: seq<Block>, i: nat)
    requires at < |ring| && i < |rec| <= |ring|
    ensures Partly(ring, ring[Slot(at + i, |ring|) := rec[i]], at, rec)
  {
    var x := Slot(at + i, |ring|);
    var ring' := ring[x := rec[i]];
    assert Dist(at, x, |ring|) == i;
    forall q | 0 <= q < |ring| ensures May(ring, at, rec, q, ring'[q]) {
    }
  }

  /** That single block, arriving alone, stops the scan after `j` records. */
  lemma {:induction false} ScanBroken(crc: Checksum, ring: Disk, fs: nat, at: nat, s: nat, txn: Txn, tail: nat, e: nat,
                                      k: nat, j: nat, i: nat)
    requires Plain(txn) && |txn| + 2 <= |ring| && e + k == s && Breaks(ring, tail, e, k, at, Record(crc, txn, s), j, i)
    requires Scan(crc, ring, fs, tail, e).ok && Scan(crc, ring, fs, tail, e).replayed == k
    requires AllTell(crc, ring, at, Record(crc, txn, s), Start(ring, tail, e), k)
    ensures Shortened(crc, ring, ring[Slot(at + i, |ring|) := Record(crc, txn, s)[i]], fs, tail, e, j)
  {
    var start, budget, x := Start(ring, tail, e), Skip(ring, tail, e, |ring|).budget, Slot(at + i, |ring|);
    var b := Record(crc, txn, s)[i];
    ScanParts(crc, ring, fs, tail, e, k);
    OnePartly(ring, at, Record(crc, txn, s), i);
    HitsAlone(ring, b, start, j, x);
    RunBroken(crc, ring, ring[x := b], fs, at, s, txn, start, e, budget, k, j, x);
    FirstKept(crc, ring, fs, start, e, budget, k, x);
    SkipKept(ring, tail, e, |ring|, x, b);
  }

  lemma {:induction false} FirstKept(crc: Checksum, ring: Disk, fs: nat, pos: nat, e: nat, budget: nat, k: nat, x: nat)
    requires pos < |ring| && x < |ring| && k > 0 && LiveRun(crc, ring, fs, pos, e, budget, k) && !Within(ring, pos, x)
    ensures x != pos
  {
    assert Dist(pos, pos, |ring|) == 0;
  }
}
