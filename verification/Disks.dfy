/** Block images, block writes and the two ways a power cut can leave a volatile write cache. */
module Disks {

  // A 4 KiB block by what it decodes to. `Raw` is a block that carries none of the journal magics.
  datatype Block =
    | Super(head: nat, tail: nat, nextSeq: nat, logBlocks: nat, fsBlocks: nat)
    | Desc(seqNo: nat, targets: seq<nat>)
    | Commit(seqNo: nat, checksum: nat)
    | Raw(bytes: seq<int>)

  type Disk = seq<Block>

  datatype Put = Put(addr: nat, block: Block)

  datatype Op = Write(put: Put) | Flush

  // The medium as of the last barrier, and the acknowledged writes since, oldest first.
  datatype Dev = Dev(stable: Disk, cache: seq<Put>)

  function Apply(d: Disk, puts: seq<Put>): (r: Disk)
    ensures |r| == |d|
    decreases |puts|
  {
    if puts == [] then d
    else Apply(if puts[0].addr < |d| then d[puts[0].addr := puts[0].block] else d, puts[1..])
  }

  function View(dev: Dev): Disk {
    Apply(dev.stable, dev.cache)
  }

  function Step(dev: Dev, op: Op): Dev {
    match op
    case Write(put) => Dev(dev.stable, dev.cache + [put])
    case Flush => Dev(View(dev), [])
  }

  function Exec(dev: Dev, ops: seq<Op>): Dev
    decreases |ops|
  {
    if ops == [] then dev else Exec(Step(dev, ops[0]), ops[1..])
  }

  function Writes(puts: seq<Put>): (ops: seq<Op>)
    ensures |ops| == |puts|
    ensures forall i :: 0 <= i < |puts| ==> ops[i] == Write(puts[i])
  {
    seq(|puts|, i requires 0 <= i < |puts| => Write(puts[i]))
  }

  // ─── what a power cut leaves ───────────────────────────────────────────────

  /** An in-order cache: some prefix of the unflushed writes reached the medium. */
  ghost predicate Ordered(dev: Dev, image: Disk) {
    exists k :: 0 <= k <= |dev.cache| && image == Apply(dev.stable, dev.cache[..k])
  }

  /** A reordering cache: every block holds its stable content or any unflushed write to it. */
  ghost predicate Torn(dev: Dev, image: Disk) {
    && |image| == |dev.stable|
    && forall a :: 0 <= a < |image| ==> image[a] == dev.stable[a] || Put(a, image[a]) in dev.cache
  }

  // ─── writes, address by address ────────────────────────────────────────────

  ghost predicate Touches(puts: seq<Put>, a: nat) {
    exists i :: 0 <= i < |puts| && puts[i].addr == a
  }

  function Final(puts: seq<Put>, a: nat, was: Block): Block
    decreases |puts|
  {
    if puts == [] then was
    else Final(puts[1..], a, if puts[0].addr == a then puts[0].block else was)
  }

  lemma {:induction false} ApplyAt(d: Disk, puts: seq<Put>, a: nat)
    requires a < |d|
    ensures Apply(d, puts)[a] == Final(puts, a, d[a])
    decreases |puts|
  {
    if puts != [] {
      ApplyAt(if puts[0].addr < |d| then d[puts[0].addr := puts[0].block] else d, puts[1..], a);
    }
  }

  lemma {:induction false} FinalTouched(puts: seq<Put>, a: nat, was: Block, other: Block)
    ensures Touches(puts, a) ==> Final(puts, a, was) == Final(puts, a, other)
    ensures !Touches(puts, a) ==> Final(puts, a, was) == was
    ensures Final(puts, a, was) == was || Put(a, Final(puts, a, was)) in puts
    decreases |puts|
  {
    if puts != [] {
      var rest := puts[1..];
      FinalTouched(rest, a, if puts[0].addr == a then puts[0].block else was,
                   if puts[0].addr == a then puts[0].block else other);
      assert puts == [puts[0]] + rest;
      if Touches(rest, a) {
        var i :| 0 <= i < |rest| && rest[i].addr == a;
        assert puts[i + 1].addr == a;
      }
      if Touches(puts, a) && puts[0].addr != a {
        var i :| 0 <= i < |puts| && puts[i].addr == a;
        assert rest[i - 1].addr == a;
      }
    }
  }

  /** Writing `puts` forgets whatever the touched blocks held before. */
  lemma {:induction false} ApplyForgets(d: Disk, e: Disk, puts: seq<Put>)
    requires |d| == |e|
    requires forall a :: 0 <= a < |d| ==> d[a] == e[a] || Touches(puts, a)
    ensures Apply(d, puts) == Apply(e, puts)
  {
    forall a | 0 <= a < |d| ensures Apply(d, puts)[a] == Apply(e, puts)[a] {
      ApplyAt(d, puts, a);
      ApplyAt(e, puts, a);
      FinalTouched(puts, a, d[a], e[a]);
    }
  }

  lemma {:induction false} ApplyConcat(d: Disk, p: seq<Put>, q: seq<Put>)
    ensures Apply(d, p + q) == Apply(Apply(d, p), q)
    decreases |p|
  {
    if p == [] {
      assert p + q == q;
    } else {
      assert (p + q)[1..] == p[1..] + q;
      ApplyConcat(if p[0].addr < |d| then d[p[0].addr := p[0].block] else d, p[1..], q);
    }
  }

  lemma {:induction false} ApplyTwice(d: Disk, puts: seq<Put>)
    ensures Apply(Apply(d, puts), puts) == Apply(d, puts)
  {
    forall a | 0 <= a < |d| ensures Apply(d, puts)[a] == d[a] || Touches(puts, a) {
      ApplyAt(d, puts, a);
      FinalTouched(puts, a, d[a], d[a]);
    }
    ApplyForgets(Apply(d, puts), d, puts);
  }

  /** A prefix of the image only sees the writes below its end. */
  lemma {:induction false} ApplyLow(d: Disk, puts: seq<Put>, n: nat)
    requires n <= |d|
    requires forall p :: p in puts ==> p.addr < n
    ensures Apply(d, puts)[..n] == Apply(d[..n], puts)
    ensures Apply(d, puts)[n..] == d[n..]
    decreases |puts|
  {
    if puts != [] {
      var p := puts[0];
      assert p in puts;
      assert forall q :: q in puts[1..] ==> q in puts;
      assert d[p.addr := p.block][..n] == d[..n][p.addr := p.block];
      assert d[p.addr := p.block][n..] == d[n..];
      ApplyLow(d[p.addr := p.block], puts[1..], n);
    }
  }

  // ─── running operations ────────────────────────────────────────────────────

  lemma {:induction false} ExecConcat(dev: Dev, p: seq<Op>, q: seq<Op>)
    ensures Exec(dev, p + q) == Exec(Exec(dev, p), q)
    decreases |p|
  {
    if p == [] {
      assert p + q == q;
    } else {
      assert (p + q)[1..] == p[1..] + q;
      ExecConcat(Step(dev, p[0]), p[1..], q);
    }
  }

  lemma {:induction false} ExecWrites(dev: Dev, puts: seq<Put>)
    ensures Exec(dev, Writes(puts)) == Dev(dev.stable, dev.cache + puts)
    decreases |puts|
  {
    if puts == [] {
      assert dev.cache + puts == dev.cache;
    } else {
      assert Writes(puts)[1..] == Writes(puts[1..]);
      ExecWrites(Step(dev, Write(puts[0])), puts[1..]);
      assert dev.cache + [puts[0]] + puts[1..] == dev.cache + puts;
    }
  }

  lemma {:induction false} ExecOne(dev: Dev, op: Op)
    ensures Exec(dev, [op]) == Step(dev, op)
  {
    assert [op][1..] == [];
  }

  lemma {:induction false} ExecTwo(dev: Dev, p: Op, q: Op)
    ensures Exec(dev, [p, q]) == Step(Step(dev, p), q)
  {
    assert [p, q][1..] == [q];
    ExecOne(Step(dev, p), q);
  }

  lemma {:induction false} ApplyOne(d: Disk, put: Put)
    ensures Apply(d, [put]) == if put.addr < |d| then d[put.addr := put.block] else d
  {
    assert [put][1..] == [];
  }

  /** The state after `n` operations of `p + q` lies inside `p` or, `p` done, inside `q`. */
  lemma {:induction false} ExecPrefix(dev: Dev, p: seq<Op>, q: seq<Op>, n: nat)
    requires n <= |p + q|
    ensures n <= |p| ==> Exec(dev, (p + q)[..n]) == Exec(dev, p[..n])
    ensures n >= |p| ==> Exec(dev, (p + q)[..n]) == Exec(Exec(dev, p), q[..n - |p|])
  {
    if n <= |p| {
      assert (p + q)[..n] == p[..n];
    }
    if n >= |p| {
      assert (p + q)[..n] == p + q[..n - |p|];
      ExecConcat(dev, p, q[..n - |p|]);
    }
  }

  lemma {:induction false} ExecWritesPrefix(dev: Dev, puts: seq<Put>, n: nat)
    requires n <= |puts|
    ensures Exec(dev, Writes(puts)[..n]) == Dev(dev.stable, dev.cache + puts[..n])
  {
    assert Writes(puts)[..n] == Writes(puts[..n]);
    ExecWrites(dev, puts[..n]);
  }

  // ─── the two kinds of cut compared ─────────────────────────────────────────

  /** Any subsequence of the cache that survives leaves a torn image; the in-order cut is one. */
  lemma OrderedIsTorn(dev: Dev, image: Disk)
    requires Ordered(dev, image)
    ensures Torn(dev, image)
  {
    var k :| 0 <= k <= |dev.cache| && image == Apply(dev.stable, dev.cache[..k]);
    forall a | 0 <= a < |image| ensures image[a] == dev.stable[a] || Put(a, image[a]) in dev.cache {
      ApplyAt(dev.stable, dev.cache[..k], a);
      FinalTouched(dev.cache[..k], a, dev.stable[a], dev.stable[a]);
    }
  }

  /** The mock keeps an arbitrary suffix of the cache: also one torn image among many. */
  lemma SuffixIsTorn(dev: Dev, keep: nat)
    requires keep <= |dev.cache|
    ensures Torn(dev, Apply(dev.stable, dev.cache[|dev.cache| - keep..]))
  {
    var kept := dev.cache[|dev.cache| - keep..];
    var image := Apply(dev.stable, kept);
    forall a | 0 <= a < |image| ensures image[a] == dev.stable[a] || Put(a, image[a]) in dev.cache {
      ApplyAt(dev.stable, kept, a);
      FinalTouched(kept, a, dev.stable[a], dev.stable[a]);
    }
  }

  lemma TornNone(d: Disk, image: Disk)
    requires Torn(Dev(d, []), image)
    ensures image == d
  {
  }

  lemma TornOne(d: Disk, put: Put, image: Disk)
    requires Torn(Dev(d, [put]), image) && put.addr < |d|
    ensures image == d || image == d[put.addr := put.block]
  {
    forall a | 0 <= a < |d| && a != put.addr ensures image[a] == d[a] {
    }
    if image[put.addr] == d[put.addr] {
      assert image == d;
    } else {
      assert image == d[put.addr := put.block];
    }
  }

  lemma TornLow(d: Disk, puts: seq<Put>, n: nat, k: nat, image: Disk)
    requires n <= |puts| && k <= |d| && Torn(Dev(d, puts[..n]), image) && forall p :: p in puts ==> p.addr < k
    ensures |image| == |d| && image[k..] == d[k..]
    ensures forall a :: 0 <= a < |d| ==> image[a] == d[a] || Put(a, image[a]) in puts
  {
    forall a | 0 <= a < |d| ensures image[a] == d[a] || (a < k && Put(a, image[a]) in puts) {
      if image[a] != d[a] {
        assert Put(a, image[a]) in puts[..n];
      }
    }
  }

  /** What a cut can leave of `more` once `cache` is durable, it can also leave while `cache` is not. */
  lemma {:induction false} TornMore(d: Disk, cache: seq<Put>, more: seq<Put>, image: Disk)
    requires Torn(Dev(Apply(d, cache), more), image)
    ensures Torn(Dev(d, cache + more), image)
  {
    forall a | 0 <= a < |image| ensures image[a] == d[a] || Put(a, image[a]) in cache + more {
      ApplyAt(d, cache, a);
      FinalTouched(cache, a, d[a], d[a]);
    }
  }

  /** Everything in the cache may survive. */
  lemma TornAll(dev: Dev)
    ensures Torn(dev, View(dev))
  {
    TornMore(dev.stable, dev.cache, [], View(dev));
    assert dev.cache + [] == dev.cache;
  }

  /** Operations that include a barrier end up the same whether or not the cache was durable. */
  lemma {:induction false} FlushForgets(dev: Dev, ops: seq<Op>)
    requires Flush in ops
    ensures Exec(dev, ops) == Exec(Dev(View(dev), []), ops)
    decreases |ops|
  {
    var solid := Dev(View(dev), []);
    if ops[0].Write? {
      var rest, put := ops[1..], ops[0].put;
      assert ops == [ops[0]] + rest;
      FlushForgets(Dev(dev.stable, dev.cache + [put]), rest);
      FlushForgets(Dev(View(dev), [] + [put]), rest);
      ApplyConcat(dev.stable, dev.cache, [put]);
      assert [] + [put] == [put];
    }
  }
}
