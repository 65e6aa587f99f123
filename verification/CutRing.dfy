/** What recovery makes of a ring to which part of the next record has come, whatever the superblock it starts from. */
module CutRing {
  import opened Disks
  import opened Ring
  import opened TornRing
  import opened BehindRing

  ghost function Outcome(fs: Disk, txn: Txn, applied: bool): Disk {
    if applied then Apply(fs, txn) else fs
  }

  // ─── what can go wrong ─────────────────────────────────────────────────────

  /** Puts that leave the filesystem neither as it was nor with the transaction applied. */
  ghost predicate Neither(fs: Disk, txn: Txn, puts: seq<Put>) {
    Apply(fs, puts) != fs && Apply(fs, puts) != Apply(fs, txn)
  }

  /** These blocks, coming alive at the head, are not the transaction. */
  ghost predicate Misleads(fs: Disk, txn: Txn, targets: seq<nat>, data: seq<Block>) {
    |targets| == |data| && (InBounds(targets, |fs|) < |targets| || Neither(fs, txn, Puts(targets, data)))
  }

  /** A cut can bring something else than the transaction alive at the head. */
  ghost predicate Misdirects(crc: Checksum, ring: Disk, at: nat, s: nat, fs: Disk, txn: Txn) {
    exists targets, data ::
      Slips(crc, ring, at, s, Record(crc, txn, s), targets, data) && Misleads(fs, txn, targets, data)
  }

  /**
   * A block of the new record falls on a record that the superblock does not acknowledge, other than
   * the first, and the records before that one are not the whole story.
   */
  ghost predicate Regresses(crc: Checksum, ring: Disk, tail: nat, e: nat, at: nat, s: nat, fs: Disk, txn: Txn)
    requires 0 < |ring|
  {
    exists j: nat, i: nat ::
      && Breaks(ring, tail, e, Sub(s, e), at, Record(crc, txn, s), j, i)
      && Neither(fs, txn, FirstPuts(ring, Start(ring, tail, e), j))
  }

  /** The unacknowledged records have checksums that tell them from their mixtures with the new record. */
  ghost predicate Told(crc: Checksum, ring: Disk, tail: nat, e: nat, at: nat, s: nat, txn: Txn)
    requires 0 < |ring|
  {
    && at < |ring| && Start(ring, tail, e) < |ring|
    && AllTell(crc, ring, at, Record(crc, txn, s), Start(ring, tail, e), Sub(s, e))
  }

  /** The scan gets to the head before its lap of the ring is over. */
  ghost predicate Roomy(ring: Disk, tail: nat, e: nat, head: nat, s: nat)
    requires 0 < |ring|
  {
    tail == head || Left(ring, tail, e, Sub(s, e)) > 0
  }

  /** The scan replays what is missing between `e` and `s`, to no effect, and ends at the head. */
  ghost predicate Behind(crc: Checksum, ring: Disk, fs: Disk, tail: nat, e: nat, head: nat, s: nat) {
    && tail < |ring| && e <= s
    && var r := Scan(crc, ring, |fs|, tail, e);
       r.ok && r.replayed == Sub(s, e) && r.pos == head && Apply(fs, r.puts) == fs
  }

  // ─── nothing to replay ─────────────────────────────────────────────────────

  lemma {:induction false} DeadReplay(crc: Checksum, ring: Disk, fs: nat, pos: nat, e: nat, budget: nat)
    requires Dead(crc, ring, pos, e)
    ensures Replay(crc, ring, fs, pos, e, budget) == Scanned([], 0, pos, true)
  {
    DeadHere(crc, ring, pos, e);
    ReplayDead(crc, ring, fs, pos, e, budget);
  }

  /** The records live by the current superblock lead to the head. */
  ghost predicate Leads(ring: Disk, tail: nat, len: nat, head: nat, s: nat) {
    tail < |ring| && len < |ring| && Path(ring, tail, len, s) && head == Slot(tail + len, |ring|)
  }

  /** A current superblock: the path leads to the head, and nothing is alive there. */
  lemma PathSettles(crc: Checksum, ring: Disk, fs: Disk, tail: nat, len: nat, head: nat, s: nat)
    requires Leads(ring, tail, len, head, s)
    requires Dead(crc, ring, head, s)
    ensures Settles(crc, ring, fs, tail, s, fs) && Scan(crc, ring, |fs|, tail, s).replayed == 0
  {
    PathSkip(ring, tail, len, head, s, |ring|, |ring| - len);
    DeadSkip(crc, ring, head, s, |ring| - len);
    var c := Skip(ring, tail, s, |ring|);
    DeadReplay(crc, ring, |fs|, c.pos, s, c.budget);
  }

  lemma BehindSettles(crc: Checksum, ring: Disk, fs: Disk, tail: nat, e: nat, head: nat, s: nat)
    requires Behind(crc, ring, fs, tail, e, head, s) && Dead(crc, ring, head, s)
    ensures Settles(crc, ring, fs, tail, e, fs)
  {
  }

  // ─── the head ──────────────────────────────────────────────────────────────

  /** A scan that goes on to what is alive at the head. */
  ghost predicate Reaches(crc: Checksum, ring: Disk, fs: Disk, tail: nat, e: nat, head: nat, s: nat, puts: seq<Put>,
                          k: nat, budget: nat)
    requires 0 < |ring|
  {
    && e + k == s && budget > 0 && Apply(fs, puts) == fs
    && Prepends(Scan(crc, ring, |fs|, tail, e), puts, k, Replay(crc, ring, |fs|, head, s, budget))
  }

  /** Its blocks are what counts. */
  ghost predicate Adopts(crc: Checksum, ring: Disk, fs: Disk, tail: nat, e: nat, targets: seq<nat>, data: seq<Block>)
    requires 0 < |ring| && |targets| == |data|
  {
    if InBounds(targets, |fs|) < |targets| then !Scan(crc, ring, |fs|, tail, e).ok
    else Settles(crc, ring, fs, tail, e, Apply(fs, Puts(targets, data)))
  }

  lemma {:induction false} HeadAdopted(crc: Checksum, ring: Disk, fs: Disk, tail: nat, e: nat, head: nat, s: nat,
                                       puts: seq<Put>, k: nat, budget: nat)
    requires Tidy(ring, s, head) && LiveAt(crc, ring, head, s)
    requires Reaches(crc, ring, fs, tail, e, head, s, puts, k, budget)
    ensures Adopts(crc, ring, fs, tail, e, ring[head].targets, Data(ring, head, |ring[head].targets|))
  {
    var t := ring[head].targets;
    var last := Replay(crc, ring, |fs|, head, s, budget);
    HeadReplay(crc, ring, |fs|, head, s, budget);
    if InBounds(t, |fs|) == |t| {
      TidyNext(crc, ring, s, head);
      OneMore(crc, ring, fs, e, k, puts, PutsAt(ring, head), last, Scan(crc, ring, |fs|, tail, e));
    }
  }

  lemma {:induction false} OneMore(crc: Checksum, ring: Disk, fs: Disk, e: nat, k: nat, puts: seq<Put>, more: seq<Put>,
                                   last: Scanned, r: Scanned)
    requires Apply(fs, puts) == fs && Prepends(r, puts, k, last)
    requires last == Scanned(more, 1, last.pos, true) && last.pos < |ring| && NoneNumbered(crc, ring, e + k + 1)
    ensures SettlesBy(crc, ring, fs, e, Apply(fs, more), r)
  {
    ApplyConcat(fs, puts, more);
  }

  /** The next record on its way to a tidy ring. */
  ghost predicate Arrives(crc: Checksum, ring: Disk, ring': Disk, head: nat, s: nat, fs: Disk, txn: Txn) {
    && Tidy(ring, s, head) && Loggable(txn, |ring|, |fs|) && Partly(ring, ring', head, Record(crc, txn, s))
  }

  /** All or nothing of the transaction. */
  ghost predicate AllOrNone(crc: Checksum, ring: Disk, fs: Disk, tail: nat, e: nat, txn: Txn)
    requires 0 < |ring|
  {
    Settles(crc, ring, fs, tail, e, fs) || Settles(crc, ring, fs, tail, e, Apply(fs, txn))
  }

  lemma HeadAtomic(crc: Checksum, ring: Disk, ring': Disk, fs: Disk, tail: nat, e: nat, head: nat, s: nat, txn: Txn,
                   puts: seq<Put>, k: nat, budget: nat)
    requires Arrives(crc, ring, ring', head, s, fs, txn) && !Misdirects(crc, ring, head, s, fs, txn)
    requires LiveAt(crc, ring', head, s) && Reaches(crc, ring', fs, tail, e, head, s, puts, k, budget)
    ensures AllOrNone(crc, ring', fs, tail, e, txn)
  {
    var t := ring'[head].targets;
    var data := Data(ring', head, |t|);
    TidyPartly(crc, ring, ring', s, head, txn);
    HeadAdopted(crc, ring', fs, tail, e, head, s, puts, k, budget);
    LiveSlips(crc, ring, ring', head, s, Record(crc, txn, s));
    NotMisled(crc, ring, head, s, fs, txn, t, data);
  }

  lemma NotMisled(crc: Checksum, ring: Disk, at: nat, s: nat, fs: Disk, txn: Txn, targets: seq<nat>, data: seq<Block>)
    requires !Misdirects(crc, ring, at, s, fs, txn) && Slips(crc, ring, at, s, Record(crc, txn, s), targets, data)
    ensures InBounds(targets, |fs|) == |targets| && !Neither(fs, txn, Puts(targets, data))
  {
    assert !Misleads(fs, txn, targets, data);
  }

  /** The head is not alive, and the superblock's number is the current one. */
  lemma QuietAtomic(crc: Checksum, ring: Disk, ring': Disk, fs: Disk, tail: nat, head: nat, s: nat, txn: Txn)
    requires Arrives(crc, ring, ring', head, s, fs, txn) && !LiveAt(crc, ring', head, s) && tail < |ring|
    ensures AllOrNone(crc, ring', fs, tail, s, txn)
  {
    TidyPartly(crc, ring, ring', s, head, txn);
    TidyDead(crc, ring', s, head);
    DeadSettles(crc, ring', fs, tail, s);
  }

  // ─── from the current superblock ───────────────────────────────────────────

  lemma NothingFirst(r: Scanned)
    ensures Prepends(r, [], 0, r)
  {
  }

  /** A scan expecting `s` follows the path to a record numbered `s`. */
  lemma {:induction false} HeadScan(crc: Checksum, ring: Disk, fs: nat, tail: nat, len: nat, head: nat, s: nat,
                                    left: nat)
    requires Leads(ring, tail, len, head, s) && len + left == |ring|
    requires LiveAt(crc, ring, head, s)
    ensures Scan(crc, ring, fs, tail, s) == Replay(crc, ring, fs, head, s, left)
  {
    PathSkip(ring, tail, len, head, s, |ring|, left);
    SkipNone(ring, head, s, left);
  }

  /** The new record leaves the live ones alone. */
  lemma PathUncut(ring: Disk, ring': Disk, tail: nat, len: nat, head: nat, rec: seq<Block>, s: nat)
    requires Leads(ring, tail, len, head, s) && len + |rec| <= |ring| && Partly(ring, ring', head, rec)
    ensures Leads(ring', tail, len, head, s)
  {
    forall q | 0 <= q < |ring| && Dist(tail, q, |ring|) < len ensures ring'[q] == ring[q] {
      assert May(ring, head, rec, q, ring'[q]);
    }
    PathKept(ring, ring', tail, len, s, s);
  }

  lemma NowReaches(crc: Checksum, ring: Disk, fs: Disk, tail: nat, len: nat, head: nat, s: nat, left: nat)
    requires Leads(ring, tail, len, head, s) && len + left == |ring|
    requires LiveAt(crc, ring, head, s)
    ensures Reaches(crc, ring, fs, tail, s, head, s, [], 0, left)
  {
    HeadScan(crc, ring, |fs|, tail, len, head, s, left);
    NothingFirst(Scan(crc, ring, |fs|, tail, s));
  }

  lemma NowUncut(crc: Checksum, ring: Disk, ring': Disk, fs: Disk, tail: nat, len: nat, head: nat, s: nat, txn: Txn,
                 left: nat)
    requires Leads(ring, tail, len, head, s) && len + left == |ring| && |txn| + 2 <= left
    requires Partly(ring, ring', head, Record(crc, txn, s)) && LiveAt(crc, ring', head, s)
    ensures Reaches(crc, ring', fs, tail, s, head, s, [], 0, left)
  {
    PathUncut(ring, ring', tail, len, head, Record(crc, txn, s), s);
    NowReaches(crc, ring', fs, tail, len, head, s, left);
  }

  lemma NowAtomic(crc: Checksum, ring: Disk, ring': Disk, fs: Disk, tail: nat, len: nat, head: nat, s: nat, txn: Txn)
    requires Arrives(crc, ring, ring', head, s, fs, txn) && !Misdirects(crc, ring, head, s, fs, txn)
    requires Leads(ring, tail, len, head, s) && len + |txn| + 2 <= |ring|
    ensures AllOrNone(crc, ring', fs, tail, s, txn)
  {
    if LiveAt(crc, ring', head, s) {
      var left := |ring| - len;
      NowUncut(crc, ring, ring', fs, tail, len, head, s, txn, left);
      HeadAtomic(crc, ring, ring', fs, tail, s, head, s, txn, [], 0, left);
    } else {
      QuietAtomic(crc, ring, ring', fs, tail, head, s, txn);
    }
  }

  // ─── from one with the current number and another tail ─────────────────────

  lemma {:induction false} SkipEnds(ring: Disk, pos: nat, e: nat, budget: nat)
    requires pos < |ring| && Skip(ring, pos, e, budget).budget > 0
    ensures var c := Skip(ring, pos, e, budget); c.pos < |ring| && Hop(ring, c.pos, e) == 0
    decreases budget
  {
    var k := Hop(ring, pos, e);
    if budget > 0 && k > 0 { SkipEnds(ring, Slot(pos + k, |ring|), e, Sub(budget, k)); }
  }

  lemma {:induction false} AsideRoom(crc: Checksum, ring: Disk, ring': Disk, fs: Disk, tail: nat, head: nat, s: nat,
                                     txn: Txn)
    requires Arrives(crc, ring, ring', head, s, fs, txn) && tail < |ring| && Roomy(ring, tail, s, head, s)
    requires LiveAt(crc, ring', head, s)
    ensures Skip(ring', tail, s, |ring|).budget > 0
  {
    if tail == head {
      SkipNone(ring', head, s, |ring|);
    } else {
      SkipRoom(crc, ring, ring', head, s, txn, tail, s, |ring|);
    }
  }

  lemma {:induction false} StoppedSettles(crc: Checksum, ring: Disk, fs: Disk, tail: nat, e: nat, pos: nat, budget: nat)
    requires tail < |ring| && Skip(ring, tail, e, |ring|) == Cursor(pos, budget) && pos < |ring|
    requires Hop(ring, pos, e) == 0 && !LiveAt(crc, ring, pos, e)
    ensures Settles(crc, ring, fs, tail, e, fs)
  {
    ReplayDead(crc, ring, |fs|, pos, e, budget);
  }

  lemma AsideAtomic(crc: Checksum, ring: Disk, ring': Disk, fs: Disk, tail: nat, head: nat, s: nat, txn: Txn)
    requires Arrives(crc, ring, ring', head, s, fs, txn) && !Misdirects(crc, ring, head, s, fs, txn)
    requires tail < |ring| && Roomy(ring, tail, s, head, s)
    ensures AllOrNone(crc, ring', fs, tail, s, txn)
  {
    if LiveAt(crc, ring', head, s) {
      AsideRoom(crc, ring, ring', fs, tail, head, s, txn);
      SkipEnds(ring', tail, s, |ring|);
      var c := Skip(ring', tail, s, |ring|);
      if c.pos == head {
        NothingFirst(Scan(crc, ring', |fs|, tail, s));
        HeadAtomic(crc, ring, ring', fs, tail, s, head, s, txn, [], 0, c.budget);
      } else {
        TidyPartly(crc, ring, ring', s, head, txn);
        StoppedSettles(crc, ring', fs, tail, s, c.pos, c.budget);
      }
    } else {
      QuietAtomic(crc, ring, ring', fs, tail, head, s, txn);
    }
  }

  // ─── from one that misses records ──────────────────────────────────────────

  lemma {:induction false} ShortSettles(crc: Checksum, ring: Disk, ring': Disk, fs: Disk, tail: nat, e: nat, j: nat)
    requires 0 < |ring'| == |ring| && Shortened(crc, ring, ring', |fs|, tail, e, j)
    ensures Settles(crc, ring', fs, tail, e, Apply(fs, FirstPuts(ring, Start(ring, tail, e), j)))
  {
  }

  /** A scan that replays anything cannot have started at the new descriptor. */
  lemma AwayFromTail(crc: Checksum, ring: Disk, fs: nat, tail: nat, e: nat, head: nat, s: nat)
    requires tail < |ring| && head < |ring| && e < s && LiveAt(crc, ring, head, s)
    requires Scan(crc, ring, fs, tail, e).replayed > 0
    ensures tail != head
  {
    if Hop(ring, tail, e) == 0 { SkipNone(ring, tail, e, |ring|); }
  }

  lemma {:induction false} PastReaches(crc: Checksum, ring: Disk, ring': Disk, fs: Disk, tail: nat, e: nat, head: nat,
                                       s: nat, k: nat)
    requires 0 < |ring'| == |ring| && tail < |ring| && head < |ring| && 0 < k && e + k == s
    requires Roomy(ring, tail, e, head, s)
    requires Continued(crc, ring, ring', |fs|, tail, e, k, head, s)
    requires Apply(fs, FirstPuts(ring, Start(ring, tail, e), k)) == fs
    requires LiveAt(crc, ring', head, s)
    ensures Reaches(crc, ring', fs, tail, e, head, s, FirstPuts(ring, Start(ring, tail, e), k),
                    k, Left(ring, tail, e, k))
  {
    AwayFromTail(crc, ring', |fs|, tail, e, head, s);
  }

  lemma {:induction false} PastQuiet(crc: Checksum, ring: Disk, ring': Disk, fs: Disk, tail: nat, e: nat, head: nat,
                                     s: nat, k: nat)
    requires 0 < |ring'| == |ring| && head < |ring| && e + k == s && NoneNumbered(crc, ring', s)
    requires Continued(crc, ring, ring', |fs|, tail, e, k, head, s)
    requires Apply(fs, FirstPuts(ring, Start(ring, tail, e), k)) == fs
    ensures Settles(crc, ring', fs, tail, e, fs)
  {
    var puts, left := FirstPuts(ring, Start(ring, tail, e), k), Left(ring, tail, e, k);
    DeadReplay(crc, ring', |fs|, head, s, left);
    PastNothing(crc, ring', fs, e, k, s, puts, head, Scan(crc, ring', |fs|, tail, e));
  }

  lemma {:induction false} PastNothing(crc: Checksum, ring: Disk, fs: Disk, e: nat, k: nat, s: nat, puts: seq<Put>,
                                       head: nat, r: Scanned)
    requires e + k == s && head < |ring| && Prepends(r, puts, k, Scanned([], 0, head, true))
    requires Apply(fs, puts) == fs && NoneNumbered(crc, ring, s)
    ensures SettlesBy(crc, ring, fs, e, fs, r)
  {
    assert puts + [] == puts;
  }

  lemma {:induction false} PastAtomic(crc: Checksum, ring: Disk, ring': Disk, fs: Disk, tail: nat, e: nat, head: nat,
                                      s: nat, txn: Txn, k: nat)
    requires Arrives(crc, ring, ring', head, s, fs, txn) && !Misdirects(crc, ring, head, s, fs, txn)
    requires tail < |ring| && 0 < k && e + k == s && Roomy(ring, tail, e, head, s)
    requires Continued(crc, ring, ring', |fs|, tail, e, k, head, s)
    requires Apply(fs, FirstPuts(ring, Start(ring, tail, e), k)) == fs
    ensures AllOrNone(crc, ring', fs, tail, e, txn)
  {
    if LiveAt(crc, ring', head, s) {
      PastReaches(crc, ring, ring', fs, tail, e, head, s, k);
      HeadAtomic(crc, ring, ring', fs, tail, e, head, s, txn, FirstPuts(ring, Start(ring, tail, e), k),
                 k, Left(ring, tail, e, k));
    } else {
      TidyPartly(crc, ring, ring', s, head, txn);
      TidyDead(crc, ring', s, head);
      PastQuiet(crc, ring, ring', fs, tail, e, head, s, k);
    }
  }

  lemma OldAtomic(crc: Checksum, ring: Disk, ring': Disk, fs: Disk, tail: nat, e: nat, head: nat, s: nat, txn: Txn)
    requires Arrives(crc, ring, ring', head, s, fs, txn) && !Misdirects(crc, ring, head, s, fs, txn)
    requires e < s && Behind(crc, ring, fs, tail, e, head, s) && Roomy(ring, tail, e, head, s)
    requires Told(crc, ring, tail, e, head, s, txn) && !Regresses(crc, ring, tail, e, head, s, fs, txn)
    ensures AllOrNone(crc, ring', fs, tail, e, txn)
  {
    var k := Sub(s, e);
    ScanParts(crc, ring, |fs|, tail, e, k);
    var j, i := ScanCut(crc, ring, ring', |fs|, head, s, txn, tail, e, k);
    if j < k {
      ShortSettles(crc, ring, ring', fs, tail, e, j);
      if j > 0 { NotRegressing(crc, ring, tail, e, head, s, fs, txn, j, i); }
    } else {
      PastAtomic(crc, ring, ring', fs, tail, e, head, s, txn, k);
    }
  }

  lemma {:induction false} NotRegressing(crc: Checksum, ring: Disk, tail: nat, e: nat, at: nat, s: nat, fs: Disk,
                                         txn: Txn, j: nat, i: nat)
    requires 0 < |ring| && !Regresses(crc, ring, tail, e, at, s, fs, txn)
    requires Breaks(ring, tail, e, Sub(s, e), at, Record(crc, txn, s), j, i)
    ensures !Neither(fs, txn, FirstPuts(ring, Start(ring, tail, e), j))
  {
  }

  /** At most one unacknowledged record: nothing to cut short. */
  lemma OneBehindSafe(crc: Checksum, ring: Disk, tail: nat, e: nat, at: nat, s: nat, fs: Disk, txn: Txn)
    requires 0 < |ring| && s <= e + 1
    ensures !Regresses(crc, ring, tail, e, at, s, fs, txn)
  {
  }

  /** Block `i` of what is written from `at` falls on record `j` of those from `pos`. */
  ghost predicate FallsOn(ring: Disk, pos: nat, j: nat, at: nat, i: nat)
    requires 0 < |ring|
  {
    Along(ring, pos, j) < |ring| && Within(ring, Along(ring, pos, j), Slot(at + i, |ring|))
  }

  /** A record that leaves every unacknowledged record but the first alone cuts nothing short. */
  lemma ApartSafe(crc: Checksum, ring: Disk, tail: nat, e: nat, at: nat, s: nat, fs: Disk, txn: Txn)
    requires at < |ring| && Start(ring, tail, e) < |ring|
    requires forall j: nat, i: nat :: 0 < j < Sub(s, e) && i < |txn| + 2 ==>
      !FallsOn(ring, Start(ring, tail, e), j, at, i)
    ensures !Regresses(crc, ring, tail, e, at, s, fs, txn)
  {
    var rec, start := Record(crc, txn, s), Start(ring, tail, e);
    forall j: nat, i: nat ensures !Breaks(ring, tail, e, Sub(s, e), at, rec, j, i) {
      if Breaks(ring, tail, e, Sub(s, e), at, rec, j, i) {
        HitsAlone(ring, rec[i], start, j, Slot(at + i, |ring|));
        assert FallsOn(ring, start, j, at, i);
      }
    }
  }

  // ─── the condition is exact ────────────────────────────────────────────────

  lemma SlipAdopted(crc: Checksum, ring: Disk, fs: Disk, tail: nat, len: nat, head: nat, s: nat, txn: Txn,
                    targets: seq<nat>, data: seq<Block>)
    requires Tidy(ring, s, head) && Plain(txn) && Leads(ring, tail, len, head, s) && len + |txn| + 2 <= |ring|
    requires Slips(crc, ring, head, s, Record(crc, txn, s), targets, data)
    ensures Adopts(crc, Slipped(crc, ring, head, s, targets, data), fs, tail, s, targets, data)
  {
    var rec, ring' := Record(crc, txn, s), Slipped(crc, ring, head, s, targets, data);
    SlippedPartly(crc, ring, head, s, rec, targets, data);
    SlippedLive(crc, ring, head, s, rec, targets, data);
    NowAdopted(crc, ring, ring', fs, tail, len, head, s, txn, |ring| - len);
  }

  lemma {:induction false} NowAdopted(crc: Checksum, ring: Disk, ring': Disk, fs: Disk, tail: nat, len: nat, head: nat,
                                      s: nat, txn: Txn, left: nat)
    requires Tidy(ring, s, head) && Plain(txn) && Leads(ring, tail, len, head, s) && len + left == |ring|
    requires |txn| + 2 <= left
    requires Partly(ring, ring', head, Record(crc, txn, s)) && LiveAt(crc, ring', head, s)
    ensures Adopts(crc, ring', fs, tail, s, ring'[head].targets, Data(ring', head, |ring'[head].targets|))
  {
    TidyPartly(crc, ring, ring', s, head, txn);
    NowUncut(crc, ring, ring', fs, tail, len, head, s, txn, left);
    HeadAdopted(crc, ring', fs, tail, s, head, s, [], 0, left);
  }

  /** What slips in leaves a ring on which recovery from the current superblock goes wrong. */
  lemma SlipMisleads(crc: Checksum, ring: Disk, fs: Disk, tail: nat, len: nat, head: nat, s: nat, txn: Txn,
                     targets: seq<nat>, data: seq<Block>)
    requires Tidy(ring, s, head) && Plain(txn) && Leads(ring, tail, len, head, s) && len + |txn| + 2 <= |ring|
    requires Slips(crc, ring, head, s, Record(crc, txn, s), targets, data) && Misleads(fs, txn, targets, data)
    ensures Partly(ring, Slipped(crc, ring, head, s, targets, data), head, Record(crc, txn, s))
    ensures !AllOrNone(crc, Slipped(crc, ring, head, s, targets, data), fs, tail, s, txn)
  {
    SlippedPartly(crc, ring, head, s, Record(crc, txn, s), targets, data);
    SlipAdopted(crc, ring, fs, tail, len, head, s, txn, targets, data);
    Misled(crc, Slipped(crc, ring, head, s, targets, data), fs, tail, s, txn, targets, data);
  }

  lemma Misled(crc: Checksum, ring: Disk, fs: Disk, tail: nat, e: nat, txn: Txn, targets: seq<nat>, data: seq<Block>)
    requires 0 < |ring| && Misleads(fs, txn, targets, data) && Adopts(crc, ring, fs, tail, e, targets, data)
    ensures !AllOrNone(crc, ring, fs, tail, e, txn)
  {
  }

  /** One block of the new record on the ring, and recovery from the superblock that is behind stops short. */
  lemma BreakMisleads(crc: Checksum, ring: Disk, fs: Disk, tail: nat, e: nat, head: nat, s: nat, txn: Txn, j: nat,
                      i: nat)
    returns (ring': Disk)
    requires Loggable(txn, |ring|, |fs|) && e < s && Behind(crc, ring, fs, tail, e, head, s)
    requires Told(crc, ring, tail, e, head, s, txn)
    requires Breaks(ring, tail, e, Sub(s, e), head, Record(crc, txn, s), j, i)
    requires Neither(fs, txn, FirstPuts(ring, Start(ring, tail, e), j))
    ensures Partly(ring, ring', head, Record(crc, txn, s)) && !AllOrNone(crc, ring', fs, tail, e, txn)
  {
    ring' := ring[Slot(head + i, |ring|) := Record(crc, txn, s)[i]];
    OnePartly(ring, head, Record(crc, txn, s), i);
    ScanBroken(crc, ring, |fs|, head, s, txn, tail, e, Sub(s, e), j, i);
    ShortElse(crc, ring, ring', fs, tail, e, txn, j);
  }

  lemma {:induction false} ShortElse(crc: Checksum, ring: Disk, ring': Disk, fs: Disk, tail: nat, e: nat, txn: Txn,
                                     j: nat)
    requires 0 < |ring'| == |ring| && Shortened(crc, ring, ring', |fs|, tail, e, j)
    requires Neither(fs, txn, FirstPuts(ring, Start(ring, tail, e), j))
    ensures !AllOrNone(crc, ring', fs, tail, e, txn)
  {
    ShortSettles(crc, ring, ring', fs, tail, e, j);
    SettledElse(crc, ring', fs, tail, e, txn, Apply(fs, FirstPuts(ring, Start(ring, tail, e), j)));
  }

  lemma {:induction false} SettledElse(crc: Checksum, ring: Disk, fs: Disk, tail: nat, e: nat, txn: Txn, after: Disk)
    requires 0 < |ring| && Settles(crc, ring, fs, tail, e, after) && after != fs && after != Apply(fs, txn)
    ensures !AllOrNone(crc, ring, fs, tail, e, txn)
  {
  }
}
