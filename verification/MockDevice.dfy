/** The test block device: a byte image, a volatile write cache, crash injection and power loss. */
module MockDevice {
  const SECTOR: nat := 512
  const FS_BLOCK: nat := 4096

  type Bytes = seq<bv8>

  datatype Result<T> = Ok(value: T) | Err

  datatype Option<T> = Some(value: T) | None

  datatype Op = WriteOp(block: nat) | FlushOp

  // A write that landed in the cache.
  datatype Cached = Cached(start: nat, bytes: Bytes)

  // The fields of `MockInner`.
  datatype Mock = Mock(data: Bytes, crashAfter: Option<nat>, writeCount: nat, flushes: nat, trace: Option<seq<Op>>,
                       volatile: bool, stable: Bytes, cache: seq<Cached>)

  // What a driver of the device can do to it.
  datatype Call = Write(block: nat, buf: Bytes) | Flush

  function Splice(base: Bytes, c: Cached): (r: Bytes)
    ensures |r| == |base|
    ensures forall i :: 0 <= i < |base| && c.start + |c.bytes| <= |base| ==>
      r[i] == if c.start <= i < c.start + |c.bytes| then c.bytes[i - c.start] else base[i]
  {
    if c.start + |c.bytes| > |base| then base else base[..c.start] + c.bytes + base[c.start + |c.bytes|..]
  }

  /** `base` with the cached writes copied over it, oldest first. */
  function Overlay(base: Bytes, cache: seq<Cached>): (r: Bytes)
    ensures |r| == |base|
    decreases |cache|
  {
    if cache == [] then base else Overlay(Splice(base, cache[0]), cache[1..])
  }

  predicate InRange(size: nat, block: nat, buf: Bytes) {
    buf != [] && |buf| % SECTOR == 0 && block * SECTOR + |buf| <= size
  }

  function Traced(trace: Option<seq<Op>>, op: Op): Option<seq<Op>> {
    if trace.Some? then Some(trace.value + [op]) else None
  }

  /** This write is dropped by the armed limit. */
  predicate Drops(m: Mock) {
    m.crashAfter.Some? && m.writeCount + 1 > m.crashAfter.value
  }

  function Step(m: Mock, call: Call): (r: Mock)
    ensures |r.data| == |m.data|
  {
    match call
    case Write(block, buf) =>
      if !InRange(|m.data|, block, buf) then m
      else
        var c := Cached(block * SECTOR, buf);
        var counted := m.(writeCount := m.writeCount + 1, trace := Traced(m.trace, WriteOp(block)));
        if Drops(m) then counted
        else counted.(data := Splice(m.data, c), cache := if m.volatile then m.cache + [c] else m.cache)
    case Flush =>
      var counted := m.(flushes := m.flushes + 1, trace := Traced(m.trace, FlushOp));
      if m.volatile then counted.(stable := m.data, cache := []) else counted
  }

  function Run(m: Mock, calls: seq<Call>): (r: Mock)
    ensures |r.data| == |m.data|
    decreases |calls|
  {
    if calls == [] then m else Run(Step(m, calls[0]), calls[1..])
  }

  function Armed(m: Mock, n: nat): Mock {
    m.(crashAfter := Some(n), writeCount := 0)
  }

  function Volatile(m: Mock): Mock {
    m.(volatile := true, stable := m.data, cache := [])
  }

  /** The newest `keep` cached writes. */
  function Kept(cache: seq<Cached>, keep: nat): seq<Cached> {
    var n := if keep < |cache| then keep else |cache|;
    cache[|cache| - n..]
  }

  function AfterLoss(m: Mock, keep: nat): Mock {
    var lost := m.(crashAfter := None, writeCount := 0);
    if m.volatile then lost.(data := Overlay(m.stable, Kept(m.cache, keep)), cache := []) else lost
  }

  class MockBlockDevice {
    var data: Bytes
    var crashAfter: Option<nat>
    var writeCount: nat
    var flushes: nat
    var trace: Option<seq<Op>>
    var volatile: bool
    var stable: Bytes
    var cache: seq<Cached>

    ghost function State(): Mock
      reads this
    {
      Mock(data, crashAfter, writeCount, flushes, trace, volatile, stable, cache)
    }

    constructor (sectors: nat)
      ensures |data| == sectors * SECTOR && (forall i :: 0 <= i < |data| ==> data[i] == 0)
      ensures State() == Mock(data, None, 0, 0, None, false, [], [])
    {
      data := seq(sectors * SECTOR, i => 0);
      crashAfter, writeCount, flushes, trace := None, 0, 0, None;
      volatile, stable, cache := false, [], [];
    }

    method SetCrashAfter(n: nat)
      modifies this
      ensures State() == Armed(old(State()), n)
    {
      crashAfter, writeCount := Some(n), 0;
    }

    method EnableVolatileCache()
      modifies this
      ensures State() == Volatile(old(State()))
    {
      volatile, stable, cache := true, data, [];
    }

    method ReadBlock(block: nat, len: nat) returns (r: Result<Bytes>)
      ensures r.Ok? <==> 0 < len && len % SECTOR == 0 && block * SECTOR + len <= |data|
      ensures r.Ok? ==> |r.value| == len && forall i :: 0 <= i < len ==> r.value[i] == data[block * SECTOR + i]
    {
      if len == 0 || len % SECTOR != 0 { return Err; }
      var start := block * SECTOR;
      if start + len > |data| { return Err; }
      return Ok(data[start..start + len]);
    }

    method CopyOver(c: Cached)
      requires c.start + |c.bytes| <= |data|
      modifies `data
      ensures data == Splice(old(data), c)
    {
      data := data[..c.start] + c.bytes + data[c.start + |c.bytes|..];
    }

    method WriteBlock(block: nat, buf: Bytes) returns (r: Result<nat>)
      modifies this
      ensures State() == Step(old(State()), Write(block, buf))
      ensures r == if buf != [] && |buf| % 512 == 0 && block * 512 + |buf| <= old(|data|) then Ok(|buf|) else Err
    {
      if buf == [] || |buf| % SECTOR != 0 { return Err; }
      var start := block * SECTOR;
      var end := start + |buf|;
      if end > |data| { return Err; }
      writeCount := writeCount + 1;
      var dropWrite := crashAfter.Some? && writeCount > crashAfter.value;
      if trace.Some? { trace := Some(trace.value + [WriteOp(block)]); }
      if !dropWrite {
        CopyOver(Cached(start, buf));
        if volatile { cache := cache + [Cached(start, buf)]; }
      }
      return Ok(|buf|);
    }

    method FlushCache()
      modifies this
      ensures State() == Step(old(State()), Flush)
    {
      flushes := flushes + 1;
      if trace.Some? { trace := Some(trace.value + [FlushOp]); }
      if volatile { stable, cache := data, []; }
    }

    /** Back to the stable image, then the writes that survived, oldest first. */
    method Restore(kept: seq<Cached>)
      requires forall i :: 0 <= i < |kept| ==> kept[i].start + |kept[i].bytes| <= |stable|
      modifies `data
      ensures data == Overlay(stable, kept)
    {
      data := stable;
      for i := 0 to |kept|
        invariant data == Overlay(stable, kept[..i])
      {
        OverlayStep(stable, kept, i);
        CopyOver(kept[i]);
      }
      assert kept[..|kept|] == kept;
    }

    method PowerLoss(keep: nat)
      requires volatile ==> Covered(State())
      modifies this
      ensures State() == AfterLoss(old(State()), keep)
      ensures crashAfter == None && writeCount == 0 && (volatile ==> cache == []) && (!volatile ==> data == old(data))
      ensures volatile == old(volatile) && stable == old(stable) && flushes == old(flushes) && trace == old(trace)
    {
      if volatile {
        var n := if keep < |cache| then keep else |cache|;
        Restore(cache[|cache| - n..]);
        cache := [];
      }
      crashAfter, writeCount := None, 0;
    }
  }

  // ─── overlays ──────────────────────────────────────────────────────────────

  lemma {:induction false} OverlaySnoc(base: Bytes, cache: seq<Cached>, c: Cached)
    ensures Overlay(base, cache + [c]) == Splice(Overlay(base, cache), c)
    decreases |cache|
  {
    if cache == [] {
      assert [c][1..] == [];
    } else {
      assert (cache + [c])[1..] == cache[1..] + [c];
      OverlaySnoc(Splice(base, cache[0]), cache[1..], c);
    }
  }

  lemma {:induction false} OverlayStep(base: Bytes, cache: seq<Cached>, i: nat)
    requires i < |cache|
    ensures Overlay(base, cache[..i + 1]) == Splice(Overlay(base, cache[..i]), cache[i])
  {
    OverlaySnoc(base, cache[..i], cache[i]);
    assert cache[..i + 1] == cache[..i] + [cache[i]];
  }

  /** Write `c` covers byte `i`. */
  predicate Covers(c: Cached, i: nat) {
    c.start <= i < c.start + |c.bytes|
  }

  /** Write `j` is the newest of the cache over byte `i`. */
  ghost predicate Newest(cache: seq<Cached>, i: nat, j: nat) {
    j < |cache| && Covers(cache[j], i) && Untouched(cache[j + 1..], i)
  }

  ghost predicate Untouched(cache: seq<Cached>, i: nat) {
    forall k :: 0 <= k < |cache| ==> !Covers(cache[k], i)
  }

  lemma {:induction false} OverlayUntouched(base: Bytes, cache: seq<Cached>, i: nat)
    requires i < |base| && Untouched(cache, i)
    ensures Overlay(base, cache)[i] == base[i]
    decreases |cache|
  {
    if cache != [] {
      OverlayUntouched(Splice(base, cache[0]), cache[1..], i);
    }
  }

  lemma {:induction false} OverlayNewest(base: Bytes, cache: seq<Cached>, i: nat, j: nat)
    requires i < |base| && Newest(cache, i, j) && cache[j].start + |cache[j].bytes| <= |base|
    ensures Overlay(base, cache)[i] == cache[j].bytes[i - cache[j].start]
    decreases |cache|
  {
    if j == 0 {
      OverlayUntouched(Splice(base, cache[0]), cache[1..], i);
    } else {
      assert cache[1..][j..] == cache[j + 1..];
      OverlayNewest(Splice(base, cache[0]), cache[1..], i, j - 1);
    }
  }

  /** Where none of the newest `keep` cached writes lies, power loss leaves the stable byte. */
  lemma LossUntouched(m: Mock, keep: nat, i: nat)
    requires m.volatile && Covered(m) && i < |m.data|
    requires forall k :: 0 <= k < |m.cache| && |m.cache| - keep <= k ==> !Covers(m.cache[k], i)
    ensures AfterLoss(m, keep).data[i] == m.stable[i]
  {
    OverlayUntouched(m.stable, Kept(m.cache, keep), i);
  }

  /** Elsewhere it leaves the byte of the newest write over it, once that write is kept. */
  lemma LossNewest(m: Mock, keep: nat, i: nat, j: nat)
    requires m.volatile && Covered(m) && i < |m.data| && Newest(m.cache, i, j) && |m.cache| - keep <= j
    ensures AfterLoss(m, keep).data[i] == m.cache[j].bytes[i - m.cache[j].start]
  {
    var kept := Kept(m.cache, keep);
    var d := |m.cache| - |kept|;
    assert kept[j - d] == m.cache[j] && kept[j - d + 1..] == m.cache[j + 1..];
    OverlayNewest(m.stable, kept, i, j - d);
  }

  /** A write field by field: what is refused, what is dropped, and where the bytes go. */
  lemma WriteFields(m: Mock, block: nat, buf: Bytes)
    ensures var r, start := Step(m, Write(block, buf)), block * 512;
      if buf == [] || |buf| % 512 != 0 || start + |buf| > |m.data| then r == m
      else
        && r == m.(data := r.data, cache := r.cache, trace := r.trace, writeCount := m.writeCount + 1)
        && r.trace == (if m.trace.Some? then Some(m.trace.value + [WriteOp(block)]) else None)
        && if m.crashAfter.Some? && m.crashAfter.value <= m.writeCount then r.data == m.data && r.cache == m.cache
           else
             && (forall i :: 0 <= i < |m.data| ==>
                   r.data[i] == if 0 <= i - start < |buf| then buf[i - start] else m.data[i])
             && r.cache == if m.volatile then m.cache + [Cached(start, buf)] else m.cache
  {
  }

  lemma FlushFields(m: Mock)
    ensures var r := Step(m, Flush);
      && r == m.(flushes := m.flushes + 1, trace := r.trace, stable := r.stable, cache := r.cache)
      && r.trace == (if m.trace.Some? then Some(m.trace.value + [FlushOp]) else None)
      && if m.volatile then r.stable == m.data && r.cache == [] else r.stable == m.stable && r.cache == m.cache
  {
  }

  // ─── the cache invariant ───────────────────────────────────────────────────

  /** Every cached write lies inside the image. */
  ghost predicate Covered(m: Mock) {
    |m.stable| == |m.data| && forall c :: c in m.cache ==> c.start + |c.bytes| <= |m.data|
  }

  /** What a reader sees is the last stable image with the cached writes over it, in order. */
  ghost predicate Coherent(m: Mock) {
    m.volatile ==> Covered(m) && m.data == Overlay(m.stable, m.cache)
  }

  lemma StepCoherent(m: Mock, call: Call)
    requires Coherent(m)
    ensures Coherent(Step(m, call)) && Step(m, call).volatile == m.volatile
  {
    if call.Write? {
      OverlaySnoc(m.stable, m.cache, Cached(call.block * SECTOR, call.buf));
    }
  }

  /** Any run of writes and flushes keeps the image equal to the stable one overlaid by the cache. */
  lemma {:induction false} RunCoherent(m: Mock, calls: seq<Call>)
    requires Coherent(m)
    ensures Coherent(Run(m, calls)) && Run(m, calls).volatile == m.volatile
    decreases |calls|
  {
    if calls != [] {
      StepCoherent(m, calls[0]);
      RunCoherent(Step(m, calls[0]), calls[1..]);
    }
  }

  /** From `enable_volatile_cache` on: losing the cache leaves the stable image, keeping it all the current one. */
  lemma {:induction false} LossExtremes(m: Mock, calls: seq<Call>, keep: nat)
    ensures var now := Run(Volatile(m), calls);
            && AfterLoss(now, 0).data == now.stable
            && (keep >= |now.cache| ==> AfterLoss(now, keep).data == now.data)
  {
    RunCoherent(Volatile(m), calls);
    assert Kept(Run(Volatile(m), calls).cache, 0) == [];
  }

  /**
   * A power loss clears the cache but never updates the stable image: what it kept is lost again by
   * the next one, and the invariant survives exactly when the kept writes change nothing.
   */
  lemma LossTwice(m: Mock, keep: nat, keep': nat)
    requires m.volatile && Coherent(m)
    ensures AfterLoss(AfterLoss(m, keep), keep').data == m.stable
    ensures Coherent(AfterLoss(m, keep)) <==> Overlay(m.stable, Kept(m.cache, keep)) == m.stable
  {
  }

  // ─── crash injection ───────────────────────────────────────────────────────

  predicate Lands(size: nat, call: Call) {
    call.Write? && InRange(size, call.block, call.buf)
  }

  /** The writes of a run that reach the device at all, in order. */
  function Landing(size: nat, calls: seq<Call>): (r: seq<Cached>)
    ensures |r| <= |calls|
    decreases |calls|
  {
    if calls == [] then []
    else
      var rest := Landing(size, calls[1..]);
      if Lands(size, calls[0])
      then [Cached(calls[0].block * SECTOR, calls[0].buf)] + rest else rest
  }

  function Take(s: seq<Cached>, n: nat): seq<Cached> {
    if n < |s| then s[..n] else s
  }

  /** How many writes may still land. */
  ghost function Room(m: Mock, n: nat): nat {
    if m.writeCount < n then n - m.writeCount else 0
  }

  /** Under an armed limit, exactly the first writes up to it land; the rest are counted and dropped. */
  lemma {:induction false} LimitLands(m: Mock, n: nat, calls: seq<Call>)
    requires m.crashAfter == Some(n)
    ensures var now := Run(m, calls);
            && now.data == Overlay(m.data, Take(Landing(|m.data|, calls), Room(m, n)))
            && now.writeCount == m.writeCount + |Landing(|m.data|, calls)|
            && now.crashAfter == Some(n)
    decreases |calls|
  {
    if calls != [] {
      LimitLands(Step(m, calls[0]), n, calls[1..]);
      TakeStep(|m.data|, calls, Room(m, n));
    }
  }

  /** The landing writes, one call at a time. */
  lemma {:induction false} TakeStep(size: nat, calls: seq<Call>, left: nat)
    requires calls != []
    ensures var all, rest := Landing(size, calls), Landing(size, calls[1..]);
            if Lands(size, calls[0]) && left > 0
            then Take(all, left) == [Cached(calls[0].block * SECTOR, calls[0].buf)] + Take(rest, left - 1)
            else Take(all, left) == Take(rest, left)
  {
    var all, rest := Landing(size, calls), Landing(size, calls[1..]);
    if !Lands(size, calls[0]) {
      assert all == rest;
    }
  }

  /** `set_crash_after(n)`: of any run, exactly the first `n` in-range writes land. */
  lemma {:induction false} ArmedLands(m: Mock, n: nat, calls: seq<Call>)
    ensures Run(Armed(m, n), calls).data == Overlay(m.data, Take(Landing(|m.data|, calls), n))
  {
    LimitLands(Armed(m, n), n, calls);
  }

  lemma {:induction false} RunConcat(m: Mock, p: seq<Call>, q: seq<Call>)
    ensures Run(m, p + q) == Run(Run(m, p), q)
    decreases |p|
  {
    if p == [] {
      assert p + q == q;
    } else {
      assert (p + q)[1..] == p[1..] + q;
      RunConcat(Step(m, p[0]), p[1..], q);
    }
  }

  /** Past the limit no write enters the cache again. */
  lemma {:induction false} ExhaustedStays(m: Mock, n: nat, calls: seq<Call>)
    requires m.volatile && m.cache == [] && m.stable == m.data && m.crashAfter == Some(n) && n <= m.writeCount
    ensures var now := Run(m, calls); now.volatile && now.cache == [] && now.stable == now.data == m.data
    decreases |calls|
  {
    if calls != [] {
      ExhaustedStays(Step(m, calls[0]), n, calls[1..]);
    }
  }

  /**
   * A flush that runs after the armed limit is exhausted makes the injected cut total: whatever
   * follows, power loss leaves the image of the first `n` writes, however much of the cache it keeps.
   */
  lemma {:induction false} FlushAfterLimit(m: Mock, n: nat, before: seq<Call>, after: seq<Call>, keep: nat)
    requires m.volatile && |Landing(|m.data|, before)| >= n
    ensures AfterLoss(Run(Armed(m, n), before + [Flush] + after), keep).data
         == Overlay(m.data, Take(Landing(|m.data|, before), n))
  {
    var start := Armed(m, n);
    LimitLands(start, n, before);
    RunVolatile(start, before);
    var flushed := Step(Run(start, before), Flush);
    assert before + [Flush] + after == before + ([Flush] + after);
    RunConcat(start, before, [Flush] + after);
    assert ([Flush] + after)[1..] == after;
    ExhaustedStays(flushed, n, after);
    assert Kept([], keep) == [];
  }

  lemma {:induction false} RunVolatile(m: Mock, calls: seq<Call>)
    ensures Run(m, calls).volatile == m.volatile
    decreases |calls|
  {
    if calls != [] {
      RunVolatile(Step(m, calls[0]), calls[1..]);
    }
  }

  // ─── block by block ────────────────────────────────────────────────────────

  function BlockOf(data: Bytes, b: nat): Bytes
    requires (b + 1) * FS_BLOCK <= |data|
  {
    data[b * FS_BLOCK..(b + 1) * FS_BLOCK]
  }

  /** Every cached write is one whole filesystem block, as the journal writes them. */
  ghost predicate Aligned(cache: seq<Cached>) {
    forall c :: c in cache ==> |c.bytes| == FS_BLOCK && c.start % FS_BLOCK == 0
  }

  lemma SpliceBlock(base: Bytes, c: Cached, b: nat)
    requires |c.bytes| == FS_BLOCK && c.start % FS_BLOCK == 0 && (b + 1) * FS_BLOCK <= |base|
    ensures BlockOf(Splice(base, c), b) == if c.start == b * FS_BLOCK then c.bytes else BlockOf(base, b)
  {
    var k := c.start / FS_BLOCK;
    assert c.start == k * FS_BLOCK;
    var r := Splice(base, c);
    if c.start == b * FS_BLOCK {
      assert r[b * FS_BLOCK..(b + 1) * FS_BLOCK] == c.bytes;
    } else {
      assert c.start + FS_BLOCK <= b * FS_BLOCK || (b + 1) * FS_BLOCK <= c.start;
      assert BlockOf(r, b) == BlockOf(base, b);
    }
  }

  lemma {:induction false} OverlayBlock(base: Bytes, cache: seq<Cached>, b: nat)
    requires Aligned(cache) && (b + 1) * FS_BLOCK <= |base|
    ensures var r := BlockOf(Overlay(base, cache), b);
            r == BlockOf(base, b) || Cached(b * FS_BLOCK, r) in cache
    decreases |cache|
  {
    if cache != [] {
      assert cache[0] in cache && forall c :: c in cache[1..] ==> c in cache;
      SpliceBlock(base, cache[0], b);
      OverlayBlock(Splice(base, cache[0]), cache[1..], b);
    }
  }

  /**
   * After any power loss, each filesystem block holds its stable contents or one of the cached
   * writes to it: the suffixes the mock keeps are among the cuts a reordering cache allows.
   */
  lemma LossIsTorn(m: Mock, keep: nat, b: nat)
    requires m.volatile && Covered(m) && (b + 1) * 4096 <= |m.data|
    requires forall c :: c in m.cache ==> |c.bytes| == 4096 && c.start % 4096 == 0
    ensures var r := AfterLoss(m, keep).data[b * 4096..(b + 1) * 4096];
            r == m.stable[b * 4096..(b + 1) * 4096] || Cached(b * 4096, r) in m.cache
  {
    var kept := Kept(m.cache, keep);
    assert forall c :: c in kept ==> c in m.cache;
    OverlayBlock(m.stable, kept, b);
  }
}
