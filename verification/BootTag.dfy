/** Patching a per-run tag over the placeholder that a staged ELF64 image carries in a loaded segment. */
module BootTag {
  type byte = b: int | 0 <= b < 256
  type Bytes = seq<byte>

  const TAG_LEN: nat := 28
  const CAPITAL_P: byte := 80

  // "PAGH-BOOTID-"
  const PREFIX: Bytes := [80, 65, 71, 72, 45, 66, 79, 79, 84, 73, 68, 45]

  // The prefix and sixteen zero digits.
  const PLACEHOLDER: Bytes :=
    [80, 65, 71, 72, 45, 66, 79, 79, 84, 73, 68, 45,
     48, 48, 48, 48, 48, 48, 48, 48, 48, 48, 48, 48, 48, 48, 48, 48]

  datatype Result<T> = Ok(value: T) | Err(error: Error)

  datatype Error = ShortHeader | NotElf | NoProgramHeaders | TruncatedTable | WrongLength | UnexpectedBytes

  // Half-open file-offset range of a segment.
  datatype Range = Range(lo: nat, hi: nat)

  datatype Outcome = Patched(off: nat) | NoPlaceholder | NotExactlyOne(loaded: nat) | Refused(error: Error)

  // ─── occurrences ───────────────────────────────────────────────────────────

  predicate OccursAt(data: Bytes, i: int) {
    0 <= i && i + TAG_LEN <= |data| && data[i..i + TAG_LEN] == PLACEHOLDER
  }

  ghost function Occurrences(data: Bytes): set<int> {
    set i | 0 <= i <= |data| && OccursAt(data, i)
  }

  lemma PlaceholderP(k: nat)
    requires 0 < k < TAG_LEN
    ensures |PLACEHOLDER| == TAG_LEN && PLACEHOLDER[0] == CAPITAL_P && PLACEHOLDER[k] != CAPITAL_P
  {
  }

  /** Two occurrences of the placeholder never overlap. */
  lemma NoOverlap(data: Bytes, i: int, j: int)
    requires OccursAt(data, i) && OccursAt(data, j) && i < j
    ensures i + TAG_LEN <= j
  {
    if j < i + TAG_LEN { Clash(data, i, j); }
  }

  lemma Clash(data: Bytes, i: int, j: int)
    requires OccursAt(data, i) && i < j < i + TAG_LEN
    ensures !OccursAt(data, j)
  {
    assert data[i..i + TAG_LEN][j - i] == data[j];
    PlaceholderP(j - i);
    NotP(data, j);
  }

  lemma NotP(data: Bytes, j: int)
    requires 0 <= j < |data| && data[j] != CAPITAL_P
    ensures !OccursAt(data, j)
  {
    if j + TAG_LEN <= |data| {
      assert data[j..j + TAG_LEN][0] == data[j];
    }
  }

  /** `bytes.find`: the first occurrence from `start` on, or -1. */
  method Find(data: Bytes, start: nat) returns (r: int)
    ensures r == -1 || (start <= r && OccursAt(data, r))
    ensures forall k :: start <= k && (r == -1 || k < r) ==> !OccursAt(data, k)
  {
    r := start;
    while r + TAG_LEN <= |data|
      invariant start <= r
      invariant forall k :: start <= k < r ==> !OccursAt(data, k)
    {
      if data[r..r + TAG_LEN] == PLACEHOLDER { return; }
      r := r + 1;
    }
    r := -1;
  }

  ghost predicate Ascending(s: seq<nat>) {
    forall i, j :: 0 <= i < j < |s| ==> s[i] < s[j]
  }

  lemma AscendingSnoc(s: seq<nat>, x: nat)
    requires Ascending(s) && forall k :: k in s ==> k < x
    ensures Ascending(s + [x])
  {
    forall i, j | 0 <= i < j < |s| + 1 ensures (s + [x])[i] < (s + [x])[j] {
      assert s[i] in s;
    }
  }

  /** The search loop: every occurrence, in order, each once. */
  method FindAll(data: Bytes) returns (offsets: seq<nat>)
    ensures Ascending(offsets)
    ensures forall k :: k in offsets <==> OccursAt(data, k)
  {
    offsets := [];
    var start := 0;
    while true
      invariant start <= |data| + 1 && Ascending(offsets)
      invariant forall k :: k in offsets <==> k < start && OccursAt(data, k)
      decreases |data| + 1 - start
    {
      var i := Find(data, start);
      if i < 0 { break; }
      AscendingSnoc(offsets, i);
      offsets := offsets + [i];
      start := i + 1;
    }
  }

  // ─── program headers ───────────────────────────────────────────────────────

  /** Little-endian unsigned integer of `n` bytes at `off`. */
  function LittleEndian(data: Bytes, off: nat, n: nat): nat
    requires off + n <= |data|
    decreases n
  {
    if n == 0 then 0 else data[off] + 256 * LittleEndian(data, off + 1, n - 1)
  }

  lemma {:induction false} LittleEndianMore(data: Bytes, off: nat, n: nat)
    requires 0 < n && off + n <= |data|
    ensures LittleEndian(data, off, n) == data[off] + 0x100 * LittleEndian(data, off + 1, n - 1)
  {
  }

  /** Two bytes, the low one first. */
  ghost predicate Holds2(data: Bytes, at: nat, v: nat) {
    at + 2 <= |data| && v == (data[at] as int) + 0x100 * (data[at + 1] as int)
  }

  /** Four bytes. */
  ghost predicate Holds4(data: Bytes, at: nat, v: nat) {
    && at + 4 <= |data|
    && v == (data[at] as int) + 0x100 * (data[at + 1] as int) + 0x1_0000 * (data[at + 2] as int)
            + 0x100_0000 * (data[at + 3] as int)
  }

  /** Eight bytes. */
  ghost predicate Holds8(data: Bytes, at: nat, v: nat) {
    && at + 8 <= |data|
    && v == (data[at] as int) + 0x100 * (data[at + 1] as int) + 0x1_0000 * (data[at + 2] as int)
            + 0x100_0000 * (data[at + 3] as int) + 0x1_0000_0000 * (data[at + 4] as int)
            + 0x100_0000_0000 * (data[at + 5] as int) + 0x1_0000_0000_0000 * (data[at + 6] as int)
            + 0x100_0000_0000_0000 * (data[at + 7] as int)
  }

  lemma {:induction false} Read2(data: Bytes, at: nat, v: nat)
    requires at + 2 <= |data|
    ensures LittleEndian(data, at, 2) == v <==> Holds2(data, at, v)
  {
    LittleEndianMore(data, at, 2);
    LittleEndianMore(data, at + 1, 1);
    assert LittleEndian(data, at + 2, 0) == 0;
  }

  lemma {:induction false} Read4(data: Bytes, at: nat, v: nat)
    requires at + 4 <= |data|
    ensures LittleEndian(data, at, 4) == v <==> Holds4(data, at, v)
  {
    LittleEndianMore(data, at, 4);
    LittleEndianMore(data, at + 1, 3);
    Read2(data, at + 2, LittleEndian(data, at + 2, 2));
  }

  /** The reader's number is the one that the bytes say, the low byte first. */
  lemma {:induction false} Read8(data: Bytes, at: nat, v: nat)
    requires at + 8 <= |data|
    ensures LittleEndian(data, at, 8) == v <==> Holds8(data, at, v)
  {
    LittleEndianMore(data, at, 8);
    LittleEndianMore(data, at + 1, 7);
    LittleEndianMore(data, at + 2, 6);
    LittleEndianMore(data, at + 3, 5);
    Read4(data, at + 4, LittleEndian(data, at + 4, 4));
  }

  datatype Table = Table(off: nat, size: nat, count: nat)

  function TableOf(data: Bytes): Result<Table> {
    if |data| >= 6 && (data[..4] != [127, 69, 76, 70] || data[4] != 2 || data[5] != 1) then Err(NotElf)
    else if |data| < 58 then Err(ShortHeader)
    else
      var t := Table(LittleEndian(data, 0x20, 8), LittleEndian(data, 0x36, 2), LittleEndian(data, 0x38, 2));
      if t.off == 0 || t.size == 0 || t.count == 0 then Err(NoProgramHeaders) else Ok(t)
  }

  function HeaderAt(t: Table, i: nat): nat {
    t.off + i * t.size
  }

  /** Header `i` lies inside the file. */
  predicate Present(data: Bytes, t: Table, i: nat) {
    HeaderAt(t, i) + 56 <= |data|
  }

  predicate IsLoad(data: Bytes, t: Table, i: nat)
    requires Present(data, t, i)
  {
    LittleEndian(data, HeaderAt(t, i), 4) == 1
  }

  function RangeAt(data: Bytes, t: Table, i: nat): Range
    requires Present(data, t, i)
  {
    var lo := LittleEndian(data, HeaderAt(t, i) + 8, 8);
    Range(lo, lo + LittleEndian(data, HeaderAt(t, i) + 0x20, 8))
  }

  /** The file ranges of the PT_LOAD headers before header `n`, in table order. */
  ghost function LoadsBefore(data: Bytes, t: Table, n: nat): seq<Range>
    requires forall i :: 0 <= i < n ==> Present(data, t, i)
    decreases n
  {
    if n == 0 then []
    else LoadsBefore(data, t, n - 1) + if IsLoad(data, t, n - 1) then [RangeAt(data, t, n - 1)] else []
  }

  ghost predicate WholeTable(data: Bytes, t: Table) {
    forall i :: 0 <= i < t.count ==> Present(data, t, i)
  }

  method LoadRanges(data: Bytes) returns (r: Result<seq<Range>>)
    requires |data| >= TAG_LEN
    ensures var t := TableOf(data);
            r == if t.Err? then Err(t.error)
                 else if WholeTable(data, t.value) then Ok(LoadsBefore(data, t.value, t.value.count))
                 else Err(TruncatedTable)
    ensures r == Err(NotElf) <==> !(data[..4] == [0x7F, 0x45, 0x4C, 0x46] && data[4] == 2 && data[5] == 1)
    ensures r == Err(ShortHeader) ==> |data| < 58
    ensures r == Err(NoProgramHeaders) ==>
      |data| >= 58 && (Holds8(data, 0x20, 0) || Holds2(data, 0x36, 0) || Holds2(data, 0x38, 0))
  {
    if data[..4] != [127, 69, 76, 70] || data[4] != 2 || data[5] != 1 { return Err(NotElf); }
    if |data| < 58 { return Err(ShortHeader); }
    var phoff, phentsize := LittleEndian(data, 0x20, 8), LittleEndian(data, 0x36, 2);
    var phnum := LittleEndian(data, 0x38, 2);
    Read8(data, 0x20, 0);
    Read2(data, 0x36, 0);
    Read2(data, 0x38, 0);
    if phoff == 0 || phentsize == 0 || phnum == 0 { return Err(NoProgramHeaders); }
    r := ReadTable(data, Table(phoff, phentsize, phnum));
  }

  // ─── headers laid out in a file ────────────────────────────────────────────

  // What matters of a program header: its type, and the file range it maps.
  datatype Header = Header(kind: nat, off: nat, size: nat)

  /** The type at 0, the file offset at 8 and the size in the file at 0x20 (ELF-64, section "Program Header"). */
  ghost predicate HeaderIn(data: Bytes, at: nat, h: Header) {
    at + 56 <= |data| && Holds4(data, at, h.kind) && Holds8(data, at + 8, h.off) && Holds8(data, at + 0x20, h.size)
  }

  /** A 64-bit little-endian ELF file with these program headers, `size` bytes apart from `off` on. */
  ghost predicate LaidOut(data: Bytes, off: nat, size: nat, headers: seq<Header>) {
    && |data| >= 64 && off > 0 && size > 0 && headers != []
    && data[0] == 0x7F && data[1] == 0x45 && data[2] == 0x4C && data[3] == 0x46 && data[4] == 2 && data[5] == 1
    && Holds8(data, 0x20, off) && Holds2(data, 0x36, size) && Holds2(data, 0x38, |headers|)
    && forall i :: 0 <= i < |headers| ==> HeaderIn(data, off + i * size, headers[i])
  }

  /** The file ranges of the headers of type 1, in order. */
  function LoadsOf(headers: seq<Header>): seq<Range> {
    if headers == [] then []
    else
      var n := |headers| - 1;
      LoadsOf(headers[..n]) +
        if headers[n].kind == 1 then [Range(headers[n].off, headers[n].off + headers[n].size)] else []
  }

  lemma {:induction false} HeaderRead(data: Bytes, t: Table, i: nat, h: Header)
    requires HeaderIn(data, t.off + i * t.size, h)
    ensures ReadAs(data, t, i, h)
  {
    var at := HeaderAt(t, i);
    Read4(data, at, h.kind);
    Read8(data, at + 8, h.off);
    Read8(data, at + 0x20, h.size);
  }

  /** What the reader makes of header `i`. */
  ghost predicate ReadAs(data: Bytes, t: Table, i: nat, h: Header) {
    && Present(data, t, i) && (IsLoad(data, t, i) <==> h.kind == 1)
    && RangeAt(data, t, i) == Range(h.off, h.off + h.size)
  }

  lemma {:induction false} LoadsRead(data: Bytes, t: Table, headers: seq<Header>, n: nat)
    requires n <= |headers| && forall i :: 0 <= i < n ==> ReadAs(data, t, i, headers[i])
    ensures forall i :: 0 <= i < n ==> Present(data, t, i)
    ensures LoadsBefore(data, t, n) == LoadsOf(headers[..n])
    decreases n
  {
    if n > 0 {
      LoadsRead(data, t, headers, n - 1);
      LoadsMore(headers, n);
      assert ReadAs(data, t, n - 1, headers[n - 1]);
    }
  }

  lemma {:induction false} LoadsMore(headers: seq<Header>, n: nat)
    requires 0 < n <= |headers|
    ensures var h := headers[n - 1];
            var last := if h.kind == 1 then [Range(h.off, h.off + h.size)] else [];
            LoadsOf(headers[..n]) == LoadsOf(headers[..n - 1]) + last
  {
    assert headers[..n][..n - 1] == headers[..n - 1];
  }

  /** What was laid out is what is read: the table, and the ranges of its PT_LOAD headers in order. */
  lemma {:induction false} LaidOutRead(data: Bytes, off: nat, size: nat, headers: seq<Header>)
    requires LaidOut(data, off, size, headers)
    ensures TableOf(data) == Ok(Table(off, size, |headers|)) && Readable(data)
    ensures LoadsBefore(data, Table(off, size, |headers|), |headers|) == LoadsOf(headers)
  {
    Read8(data, 0x20, off);
    Read2(data, 0x36, size);
    Read2(data, 0x38, |headers|);
    assert data[..4] == [127, 69, 76, 70];
    var t := Table(off, size, |headers|);
    forall i | 0 <= i < |headers| ensures ReadAs(data, t, i, headers[i]) {
      HeaderRead(data, t, i, headers[i]);
    }
    LoadsRead(data, t, headers, |headers|);
    assert headers[..|headers|] == headers;
  }

  /** The file range of some header of type 1 holds the window at `at`. */
  ghost predicate InHeader(headers: seq<Header>, at: nat) {
    exists i :: 0 <= i < |headers| && headers[i].kind == 1
                && headers[i].off <= at && at + 28 <= headers[i].off + headers[i].size
  }

  lemma MappedRead(data: Bytes, t: Table, headers: seq<Header>, at: nat)
    requires t.count == |headers| && WholeTable(data, t)
    requires forall i :: 0 <= i < |headers| ==> ReadAs(data, t, i, headers[i])
    ensures Mapped(data, t, at) <==> InHeader(headers, at)
  {
    if Mapped(data, t, at) {
      var i :| 0 <= i < t.count && IsLoad(data, t, i)
               && RangeAt(data, t, i).lo <= at && at + TAG_LEN <= RangeAt(data, t, i).hi;
      assert ReadAs(data, t, i, headers[i]);
    }
    if InHeader(headers, at) {
      var i :| 0 <= i < |headers| && headers[i].kind == 1
               && headers[i].off <= at && at + 28 <= headers[i].off + headers[i].size;
      assert ReadAs(data, t, i, headers[i]);
    }
  }

  /** A placeholder counts as loaded exactly when it lies inside the file range of a header of type 1. */
  lemma {:induction false} LaidOutLoaded(data: Bytes, off: nat, size: nat, headers: seq<Header>, at: nat)
    requires LaidOut(data, off, size, headers)
    ensures Readable(data) && (Loaded(data, at) <==> OccursAt(data, at) && InHeader(headers, at))
  {
    var t := Table(off, size, |headers|);
    LaidOutRead(data, off, size, headers);
    forall i | 0 <= i < |headers| ensures ReadAs(data, t, i, headers[i]) {
      HeaderRead(data, t, i, headers[i]);
    }
    MappedRead(data, t, headers, at);
  }

  method ReadTable(data: Bytes, t: Table) returns (r: Result<seq<Range>>)
    ensures r == if WholeTable(data, t) then Ok(LoadsBefore(data, t, t.count)) else Err(TruncatedTable)
  {
    var ranges: seq<Range> := [];
    for i := 0 to t.count
      invariant forall k :: 0 <= k < i ==> Present(data, t, k)
      invariant ranges == LoadsBefore(data, t, i)
    {
      var off := t.off + i * t.size;
      assert off == HeaderAt(t, i);
      if off + 56 > |data| {
        assert !Present(data, t, i);
        return Err(TruncatedTable);
      }
      if LittleEndian(data, off, 4) == 1 {
        var lo := LittleEndian(data, off + 8, 8);
        ranges := ranges + [Range(lo, lo + LittleEndian(data, off + 0x20, 8))];
      }
    }
    return Ok(ranges);
  }

  /** A window of the file that a PT_LOAD header maps as a whole. */
  ghost predicate Mapped(data: Bytes, t: Table, off: nat)
    requires WholeTable(data, t)
  {
    exists i :: 0 <= i < t.count && IsLoad(data, t, i)
                && RangeAt(data, t, i).lo <= off && off + TAG_LEN <= RangeAt(data, t, i).hi
  }

  ghost predicate InSome(ranges: seq<Range>, off: nat) {
    exists k :: 0 <= k < |ranges| && ranges[k].lo <= off && off + TAG_LEN <= ranges[k].hi
  }

  lemma {:induction false} InSomeMapped(data: Bytes, t: Table, n: nat, off: nat)
    requires forall i :: 0 <= i < n ==> Present(data, t, i)
    ensures InSome(LoadsBefore(data, t, n), off) <==>
      exists i :: 0 <= i < n && IsLoad(data, t, i)
                  && RangeAt(data, t, i).lo <= off && off + TAG_LEN <= RangeAt(data, t, i).hi
    decreases n
  {
    if n > 0 {
      InSomeMapped(data, t, n - 1, off);
      var before, all := LoadsBefore(data, t, n - 1), LoadsBefore(data, t, n);
      if InSome(before, off) {
        var k :| 0 <= k < |before| && before[k].lo <= off && off + TAG_LEN <= before[k].hi;
        assert all[k] == before[k];
      }
      if IsLoad(data, t, n - 1) { assert all[|before|] == RangeAt(data, t, n - 1); }
      if InSome(all, off) {
        var k :| 0 <= k < |all| && all[k].lo <= off && off + TAG_LEN <= all[k].hi;
        if k < |before| { assert before[k] == all[k]; }
      }
    }
  }

  method Within(ranges: seq<Range>, off: nat) returns (any: bool)
    ensures any <==> InSome(ranges, off)
  {
    for k := 0 to |ranges|
      invariant forall j :: 0 <= j < k ==> !(ranges[j].lo <= off && off + TAG_LEN <= ranges[j].hi)
    {
      if ranges[k].lo <= off && off + TAG_LEN <= ranges[k].hi { return true; }
    }
    return false;
  }

  // ─── the patch ─────────────────────────────────────────────────────────────

  function Spliced(data: Bytes, off: nat, tag: Bytes): Bytes
    requires off + TAG_LEN <= |data|
  {
    data[..off] + tag + data[off + TAG_LEN..]
  }

  method Differing(a: Bytes, b: Bytes) returns (diff: seq<nat>)
    requires |a| == |b|
    ensures Ascending(diff) && forall i :: i in diff <==> 0 <= i < |a| && a[i] != b[i]
  {
    diff := [];
    for i := 0 to |a|
      invariant Ascending(diff) && forall k :: k in diff <==> 0 <= k < i && a[k] != b[k]
    {
      AscendingSnoc(diff, i);
      if a[i] != b[i] { diff := diff + [i]; }
    }
  }

  lemma {:induction false} AscendingBounded(s: seq<nat>, lo: nat, hi: nat)
    requires Ascending(s) && lo <= hi && forall k :: k in s ==> lo <= k < hi
    ensures |s| <= hi - lo
    decreases |s|
  {
    if s != [] {
      var n := |s| - 1;
      forall k | k in s[..n] ensures lo <= k < s[n] {
        var i :| 0 <= i < n && s[i] == k;
        assert s[i] in s;
      }
      assert s[n] in s;
      AscendingBounded(s[..n], lo, s[n]);
    }
  }

  method Selected(offsets: seq<nat>, ranges: seq<Range>) returns (loaded: seq<nat>)
    requires Ascending(offsets)
    ensures Ascending(loaded) && forall k :: k in loaded <==> k in offsets && InSome(ranges, k)
  {
    loaded := [];
    for i := 0 to |offsets|
      invariant Ascending(loaded) && forall k :: k in loaded <==> k in offsets[..i] && InSome(ranges, k)
    {
      var inside := Within(ranges, offsets[i]);
      forall k | k in loaded ensures k < offsets[i] {
        var j :| 0 <= j < i && offsets[j] == k;
      }
      AscendingSnoc(loaded, offsets[i]);
      if inside { loaded := loaded + [offsets[i]]; }
      assert offsets[..i + 1] == offsets[..i] + [offsets[i]];
    }
    assert offsets[..|offsets|] == offsets;
  }

  class StagedElf {
    var data: Bytes

    constructor (bytes: Bytes)
      ensures data == bytes
    {
      data := bytes;
    }
  }

  /** The placeholder occurs at `off` inside a loaded segment. */
  ghost predicate Loaded(data: Bytes, off: nat)
    requires TableOf(data).Ok? && WholeTable(data, TableOf(data).value)
  {
    OccursAt(data, off) && Mapped(data, TableOf(data).value, off)
  }

  ghost predicate Readable(data: Bytes) {
    TableOf(data).Ok? && WholeTable(data, TableOf(data).value)
  }

  /** The loaded occurrences. */
  ghost function LoadedSet(data: Bytes): set<nat>
    requires Readable(data)
  {
    set off: nat | off <= |data| && Loaded(data, off)
  }

  /** Exactly one loaded placeholder, and it is at `off`. */
  ghost predicate Sole(data: Bytes, off: nat) {
    && TableOf(data).Ok? && WholeTable(data, TableOf(data).value)
    && Loaded(data, off) && forall k: nat :: Loaded(data, k) ==> k == off
  }

  ghost predicate NoSole(data: Bytes) {
    forall off: nat :: !Sole(data, off)
  }

  /** Why the program headers could not be read. */
  ghost predicate HeaderError(data: Bytes, error: Error) {
    match TableOf(data)
    case Err(e) => error == e
    case Ok(t) => error == TruncatedTable && !WholeTable(data, t)
  }

  /** `patch_boot_tag`. */
  method PatchBootTag(elf: StagedElf, tag: Bytes) returns (r: Outcome)
    modifies elf
    ensures r.Patched? ==> Sole(old(elf.data), r.off) && elf.data == Spliced(old(elf.data), r.off, tag)
    ensures r.Patched? ==> |tag| == TAG_LEN && tag != PLACEHOLDER
    ensures !r.Patched? ==> elf.data == old(elf.data)
    ensures !r.Patched? ==> |tag| != TAG_LEN || tag == PLACEHOLDER || NoSole(elf.data)
    ensures r == Refused(WrongLength) <==> |tag| != TAG_LEN
    ensures r == NoPlaceholder <==> |tag| == TAG_LEN && forall k :: !OccursAt(old(elf.data), k)
    ensures r.Refused? && r.error !in {WrongLength, UnexpectedBytes} ==> HeaderError(old(elf.data), r.error)
    ensures r == Refused(UnexpectedBytes) ==> tag == PLACEHOLDER
    ensures r.NotExactlyOne? <==>
      && |tag| == TAG_LEN && (exists k :: OccursAt(old(elf.data), k))
      && Readable(old(elf.data)) && |LoadedSet(old(elf.data))| != 1
    ensures r.NotExactlyOne? ==> r.loaded == |LoadedSet(old(elf.data))|
  {
    var data := elf.data;
    var offsets := FindAll(data);
    if |tag| != TAG_LEN { return Refused(WrongLength); }
    if offsets == [] {
      NoneSole(data);
      return NoPlaceholder;
    }
    assert OccursAt(data, offsets[0]) by { assert offsets[0] in offsets; }
    r := Locate(data, offsets);
    if r.Patched? {
      var patched := data[..r.off] + tag + data[r.off + TAG_LEN..];
      r := Checked(data, patched, r.off, tag);
      if r.Patched? { elf.data := patched; }
    }
  }

  /** The one loaded occurrence. */
  method Locate(data: Bytes, offsets: seq<nat>) returns (r: Outcome)
    requires |data| >= TAG_LEN && Ascending(offsets) && forall k :: k in offsets <==> OccursAt(data, k)
    ensures r != NoPlaceholder
    ensures r.Patched? ==> Sole(data, r.off) && OccursAt(data, r.off)
    ensures !r.Patched? ==> NoSole(data)
    ensures r.Refused? ==> HeaderError(data, r.error) && r.error !in {WrongLength, UnexpectedBytes}
    ensures r.NotExactlyOne? <==> Readable(data) && |LoadedSet(data)| != 1
    ensures r.NotExactlyOne? ==> r.loaded == |LoadedSet(data)|
  {
    var loads := LoadRanges(data);
    if loads.Err? {
      NoTable(data);
      return Refused(loads.error);
    }
    var loaded := Selected(offsets, loads.value);
    LoadedBy(data, loaded, offsets, loads.value);
    SoleOrNot(data, loaded);
    CountLoaded(data, loaded);
    if |loaded| != 1 { return NotExactlyOne(|loaded|); }
    return Patched(loaded[0]);
  }

  lemma NoTable(data: Bytes)
    requires TableOf(data).Err? || !WholeTable(data, TableOf(data).value)
    ensures NoSole(data)
  {
  }

  lemma NoneSole(data: Bytes)
    requires forall k :: !OccursAt(data, k)
    ensures NoSole(data)
  {
  }

  /** The audit before the file is written: only bytes of the window differ, and at least one does. */
  method Checked(data: Bytes, patched: Bytes, off: nat, tag: Bytes) returns (r: Outcome)
    requires OccursAt(data, off) && |tag| == TAG_LEN && patched == Spliced(data, off, tag)
    ensures r == if tag != PLACEHOLDER then Patched(off) else Refused(UnexpectedBytes)
  {
    SplicedFrame(data, off, tag);
    var diff := Differing(data, patched);
    var outside := exists i :: i in diff && !(off <= i < off + TAG_LEN);
    AscendingBounded(diff, off, off + TAG_LEN);
    if diff == [] || outside || |diff| > TAG_LEN {
      SameWindow(data, patched, off, tag);
      return Refused(UnexpectedBytes);
    }
    assert data[diff[0]] != patched[diff[0]] by { assert diff[0] in diff; }
    SplicedSelf(data, off);
    return Patched(off);
  }

  lemma SplicedSelf(data: Bytes, off: nat)
    requires OccursAt(data, off)
    ensures Spliced(data, off, PLACEHOLDER) == data
  {
    assert data == data[..off] + data[off..off + TAG_LEN] + data[off + TAG_LEN..];
  }

  lemma SameWindow(data: Bytes, patched: Bytes, off: nat, tag: Bytes)
    requires OccursAt(data, off) && |tag| == TAG_LEN && patched == Spliced(data, off, tag)
    requires forall i :: 0 <= i < |data| ==> data[i] == patched[i]
    ensures tag == PLACEHOLDER
  {
    SplicedFrame(data, off, tag);
    assert data == patched;
  }

  /** The offsets kept are the loaded occurrences. */
  lemma {:induction false} LoadedBy(data: Bytes, loaded: seq<nat>, offsets: seq<nat>, ranges: seq<Range>)
    requires TableOf(data).Ok? && WholeTable(data, TableOf(data).value)
    requires ranges == LoadsBefore(data, TableOf(data).value, TableOf(data).value.count)
    requires forall k :: k in offsets <==> OccursAt(data, k)
    requires forall k :: k in loaded <==> k in offsets && InSome(ranges, k)
    ensures forall k: nat :: k in loaded <==> Loaded(data, k)
  {
    forall k: nat ensures k in loaded <==> Loaded(data, k) {
      InSomeMapped(data, TableOf(data).value, TableOf(data).value.count, k);
    }
  }

  lemma CountLoaded(data: Bytes, loaded: seq<nat>)
    requires Readable(data) && Ascending(loaded) && forall k: nat :: k in loaded <==> Loaded(data, k)
    ensures |LoadedSet(data)| == |loaded|
  {
    CountAscending(loaded);
    assert LoadedSet(data) == Elements(loaded);
  }

  ghost function Elements(s: seq<nat>): set<nat> {
    set k | k in s
  }

  lemma {:induction false} CountAscending(s: seq<nat>)
    requires Ascending(s)
    ensures |Elements(s)| == |s|
    decreases |s|
  {
    if s == [] {
      assert Elements(s) == {};
    } else {
      var n := |s| - 1;
      CountAscending(s[..n]);
      assert s == s[..n] + [s[n]];
      assert s[n] !in Elements(s[..n]);
      assert Elements(s) == Elements(s[..n]) + {s[n]};
    }
  }

  lemma SoleOrNot(data: Bytes, loaded: seq<nat>)
    requires TableOf(data).Ok? && WholeTable(data, TableOf(data).value) && Ascending(loaded)
    requires forall k: nat :: k in loaded <==> Loaded(data, k)
    ensures |loaded| == 1 ==> Sole(data, loaded[0]) && OccursAt(data, loaded[0])
    ensures |loaded| != 1 ==> NoSole(data)
  {
    if |loaded| > 1 {
      assert loaded[0] in loaded && loaded[1] in loaded;
      assert loaded[0] < loaded[1];
    }
    if |loaded| == 1 { assert loaded[0] in loaded; }
  }

  // ─── what a successful patch does to the image ─────────────────────────────

  /** Only the window changes. */
  lemma SplicedFrame(data: Bytes, off: nat, tag: Bytes)
    requires off + TAG_LEN <= |data| && |tag| == TAG_LEN
    ensures |Spliced(data, off, tag)| == |data|
    ensures forall i :: 0 <= i < |data| && !(off <= i < off + TAG_LEN) ==> Spliced(data, off, tag)[i] == data[i]
    ensures Spliced(data, off, tag)[off..off + TAG_LEN] == tag
  {
  }

  /** A window clear of the patch reads the same. */
  lemma FarOccurrence(data: Bytes, off: nat, tag: Bytes, j: nat)
    requires off + TAG_LEN <= |data| && |tag| == TAG_LEN && (j + TAG_LEN <= off || off + TAG_LEN <= j)
    ensures OccursAt(Spliced(data, off, tag), j) <==> OccursAt(data, j)
  {
    var patched := Spliced(data, off, tag);
    if j + TAG_LEN <= |data| {
      assert patched[j..j + TAG_LEN] == data[j..j + TAG_LEN];
    }
  }

  /** The tag without its first `d` bytes and the `d` bytes behind the window are a placeholder. */
  ghost predicate RunsOut(data: Bytes, off: nat, tag: Bytes, d: nat)
    requires off + TAG_LEN <= |data| && |tag| == TAG_LEN
  {
    0 < d < TAG_LEN && off + TAG_LEN + d <= |data| && tag[d..] + data[off + TAG_LEN..off + TAG_LEN + d] == PLACEHOLDER
  }

  /** The `d` bytes before the window and the tag without its last `d` bytes are a placeholder. */
  ghost predicate RunsIn(data: Bytes, off: nat, tag: Bytes, d: nat)
    requires off + TAG_LEN <= |data| && |tag| == TAG_LEN
  {
    0 < d < TAG_LEN && d <= off && data[off - d..off] + tag[..TAG_LEN - d] == PLACEHOLDER
  }

  /** The tag forms a placeholder with its neighbourhood. */
  ghost predicate Straddles(data: Bytes, off: nat, tag: Bytes)
    requires off + TAG_LEN <= |data| && |tag| == TAG_LEN
  {
    exists d: nat :: RunsOut(data, off, tag, d) || RunsIn(data, off, tag, d)
  }

  lemma RunsOutAt(data: Bytes, off: nat, tag: Bytes, d: nat)
    requires off + TAG_LEN <= |data| && |tag| == TAG_LEN && 0 < d < TAG_LEN
    ensures OccursAt(Spliced(data, off, tag), off + d) <==> RunsOut(data, off, tag, d)
  {
    var patched := Spliced(data, off, tag);
    if off + TAG_LEN + d <= |data| {
      assert patched[off + d..off + d + TAG_LEN] == tag[d..] + data[off + TAG_LEN..off + TAG_LEN + d];
    }
  }

  lemma RunsInAt(data: Bytes, off: nat, tag: Bytes, d: nat)
    requires off + TAG_LEN <= |data| && |tag| == TAG_LEN && 0 < d < TAG_LEN && d <= off
    ensures OccursAt(Spliced(data, off, tag), off - d) <==> RunsIn(data, off, tag, d)
  {
    var patched := Spliced(data, off, tag);
    assert patched[off - d..off - d + TAG_LEN] == data[off - d..off] + tag[..TAG_LEN - d];
  }

  /** It shows as an occurrence in the patched image that begins inside the window or runs into it. */
  lemma StraddlesIff(data: Bytes, off: nat, tag: Bytes)
    requires off + TAG_LEN <= |data| && |tag| == TAG_LEN
    ensures Straddles(data, off, tag) <==>
      exists j :: off - TAG_LEN < j < off + TAG_LEN && j != off && OccursAt(Spliced(data, off, tag), j)
  {
    var patched := Spliced(data, off, tag);
    if d: nat :| RunsOut(data, off, tag, d) || RunsIn(data, off, tag, d) {
      if RunsOut(data, off, tag, d) {
        RunsOutAt(data, off, tag, d);
        assert OccursAt(patched, off + d);
      } else {
        RunsInAt(data, off, tag, d);
        assert OccursAt(patched, off - d);
      }
    }
    if j :| off - TAG_LEN < j < off + TAG_LEN && j != off && OccursAt(patched, j) {
      if j > off {
        RunsOutAt(data, off, tag, j - off);
        assert RunsOut(data, off, tag, j - off);
      } else {
        RunsInAt(data, off, tag, off - j);
        assert RunsIn(data, off, tag, off - j);
      }
    }
  }

  /**
   * The patch removes exactly the occurrence at `off` and creates no other, if and only if the tag is
   * not the placeholder and nothing the tag forms with its neighbourhood is one.
   */
  lemma RemovesOneIff(data: Bytes, off: nat, tag: Bytes)
    requires OccursAt(data, off) && |tag| == TAG_LEN
    ensures Occurrences(Spliced(data, off, tag)) == Occurrences(data) - {off} <==>
            tag != PLACEHOLDER && !Straddles(data, off, tag)
  {
    var patched := Spliced(data, off, tag);
    SplicedFrame(data, off, tag);
    StraddlesIff(data, off, tag);
    if tag != PLACEHOLDER && !Straddles(data, off, tag) {
      forall j ensures j in Occurrences(patched) <==> j in Occurrences(data) && j != off {
        SameElsewhere(data, off, tag, j);
      }
    }
    if Occurrences(patched) == Occurrences(data) - {off} {
      assert off !in Occurrences(patched);
      if Straddles(data, off, tag) {
        var j :| off - TAG_LEN < j < off + TAG_LEN && j != off && OccursAt(patched, j);
        assert j in Occurrences(patched);
        assert OccursAt(data, j);
        if j < off { NoOverlap(data, j, off); } else { NoOverlap(data, off, j); }
      }
    }
  }

  lemma SameElsewhere(data: Bytes, off: nat, tag: Bytes, j: int)
    requires OccursAt(data, off) && |tag| == TAG_LEN && tag != PLACEHOLDER && !Straddles(data, off, tag)
    ensures OccursAt(Spliced(data, off, tag), j) <==> OccursAt(data, j) && j != off
  {
    SplicedFrame(data, off, tag);
    StraddlesIff(data, off, tag);
    if 0 <= j && (j + TAG_LEN <= off || off + TAG_LEN <= j) {
      FarOccurrence(data, off, tag, j);
    } else if j != off && OccursAt(data, j) {
      if j < off { NoOverlap(data, j, off); } else { NoOverlap(data, off, j); }
    }
  }

  lemma NotPlaceholderAt(data: Bytes, j: nat, k: nat)
    requires k < TAG_LEN && j + k < |data| && data[j + k] != PLACEHOLDER[k]
    ensures !OccursAt(data, j)
  {
    if j + TAG_LEN <= |data| {
      assert data[j..j + TAG_LEN][k] == data[j + k];
    }
  }

  // ─── the tags of the harness ───────────────────────────────────────────────

  predicate Digit(b: byte) { 48 <= b < 58 }
  predicate LowerHex(b: byte) { Digit(b) || 97 <= b < 103 }

  function Decimal4(n: nat): (r: Bytes)
    requires n < 10000
    ensures |r| == 4 && forall k :: 0 <= k < 4 ==> Digit(r[k])
  {
    [48 + n / 1000, 48 + n / 100 % 10, 48 + n / 10 % 10, 48 + n % 10]
  }

  /** `make_boot_tag`: the prefix, twelve digits of the build hash, four of the process id. */
  function BootTag(sha: Bytes, pid: nat): Bytes
    requires |sha| >= 12
  {
    PREFIX + sha[..12] + Decimal4(pid % 10000)
  }

  lemma DecimalWorth(n: nat)
    requires n < 10000
    ensures var r := Decimal4(n);
            1000 * (r[0] as int - 48) + 100 * (r[1] as int - 48) + 10 * (r[2] as int - 48) + (r[3] as int - 48) == n
  {
    TenTimes(n);
    TenTimes(n / 10);
    TenTimes(n / 100);
    assert n / 10 / 10 == n / 100 && n / 100 / 10 == n / 1000;
  }

  lemma TenTimes(n: nat)
    ensures n == 10 * (n / 10) + n % 10
  {
  }

  /** The text of the tag: the prefix, twelve digits of the build hash, and the process id in four decimal digits. */
  lemma TagText(sha: Bytes, pid: nat)
    requires |sha| >= 12
    ensures var tag := BootTag(sha, pid);
            && |tag| == 28 && (forall i :: 0 <= i < 12 ==> tag[i] == "PAGH-BOOTID-"[i] as int)
            && tag[12..24] == sha[..12] && (forall i :: 24 <= i < 28 ==> 48 <= tag[i] <= 57)
            && 1000 * (tag[24] as int - 48) + 100 * (tag[25] as int - 48) + 10 * (tag[26] as int - 48)
               + (tag[27] as int - 48) == pid % 10000
  {
    var tag := BootTag(sha, pid);
    DecimalWorth(pid % 10000);
    assert tag[24..] == Decimal4(pid % 10000);
    assert tag[24] == tag[24..][0] && tag[25] == tag[24..][1] && tag[26] == tag[24..][2] && tag[27] == tag[24..][3];
    assert forall i :: 24 <= i < 28 ==> tag[i] == tag[24..][i - 24];
  }

  /** The placeholder is the prefix and sixteen zero digits. */
  lemma PlaceholderText()
    ensures |PLACEHOLDER| == 28 && forall i :: 0 <= i < 28 ==>
      PLACEHOLDER[i] == "PAGH-BOOTID-0000000000000000"[i] as int
  {
  }

  lemma TagShape(sha: Bytes, pid: nat, k: nat)
    requires |sha| >= 12 && (forall i :: 0 <= i < |sha| ==> LowerHex(sha[i])) && 0 < k < TAG_LEN
    ensures var tag := BootTag(sha, pid); |tag| == TAG_LEN && tag[0] == CAPITAL_P && tag[k] != CAPITAL_P
  {
    var tag := BootTag(sha, pid);
    if k < 12 {
      assert tag[k] == PREFIX[k];
    } else if k < 24 {
      assert tag[k] == sha[k - 12];
    } else {
      assert tag[k] == Decimal4(pid % 10000)[k - 24];
    }
  }

  /** Twelve zero digits of the commit, and process id 0 modulo 10000. */
  ghost predicate AllZeros(sha: Bytes, pid: nat)
    requires |sha| >= 12
  {
    (forall i :: 0 <= i < 12 ==> sha[i] == 48) && pid % 10000 == 0
  }

  lemma TagIsPlaceholder(sha: Bytes, pid: nat)
    requires |sha| >= 12
    ensures BootTag(sha, pid) == PLACEHOLDER <==> AllZeros(sha, pid)
  {
    var tag, n := BootTag(sha, pid), pid % 10000;
    if tag == PLACEHOLDER {
      forall i | 0 <= i < 12 ensures sha[i] == 48 {
        assert tag[12 + i] == sha[i];
      }
      assert tag[24..] == Decimal4(n);
      assert tag[24] == 48 && tag[25] == 48 && tag[26] == 48 && tag[27] == 48;
    }
  }

  /** The tag of the harness forms no placeholder with its surroundings. */
  lemma HarnessApart(data: Bytes, off: nat, sha: Bytes, pid: nat)
    requires OccursAt(data, off) && |sha| >= 12 && forall i :: 0 <= i < |sha| ==> LowerHex(sha[i])
    ensures |BootTag(sha, pid)| == TAG_LEN && !Straddles(data, off, BootTag(sha, pid))
  {
    var tag := BootTag(sha, pid);
    TagShape(sha, pid, 1);
    var patched := Spliced(data, off, tag);
    SplicedFrame(data, off, tag);
    forall j | off - TAG_LEN < j < off + TAG_LEN && j != off ensures !OccursAt(patched, j) {
      if off < j {
        TagShape(sha, pid, j - off);
        assert patched[off..off + TAG_LEN][j - off] == patched[j];
        NotP(patched, j);
      } else if 0 <= j {
        PlaceholderP(off - j);
        assert patched[off..off + TAG_LEN][0] == patched[off];
        NotPlaceholderAt(patched, j, off - j);
      }
    }
    StraddlesIff(data, off, tag);
  }

  /**
   * Patching a harness tag over a placeholder removes that occurrence and creates none, unless the tag
   * is all zeros.
   */
  lemma HarnessTagRemovesOne(data: Bytes, off: nat, sha: Bytes, pid: nat)
    requires OccursAt(data, off) && |sha| >= 12 && forall i :: 0 <= i < |sha| ==> LowerHex(sha[i])
    ensures |BootTag(sha, pid)| == TAG_LEN
    ensures Occurrences(Spliced(data, off, BootTag(sha, pid))) == Occurrences(data) - {off} <==> !AllZeros(sha, pid)
  {
    HarnessApart(data, off, sha, pid);
    TagIsPlaceholder(sha, pid);
    RemovesOneIff(data, off, BootTag(sha, pid));
  }

  /** Some other tag of the right length can form a new placeholder with the bytes behind the window. */
  lemma OddTagCreatesOne(zeros: Bytes, tag: Bytes, data: Bytes)
    requires zeros == [48, 48, 48, 48, 48, 48, 48, 48, 48, 48, 48, 48, 48, 48, 48, 48]
    requires tag == zeros + PREFIX && data == PLACEHOLDER + zeros
    ensures |tag| == TAG_LEN && OccursAt(data, 0) && OccursAt(Spliced(data, 0, tag), 16) && !OccursAt(data, 16)
  {
    Zeros(zeros);
    OddSplice(zeros, tag, data);
    assert data[16] == 48;
    NotP(data, 16);
  }

  lemma Zeros(zeros: Bytes)
    requires zeros == [48, 48, 48, 48, 48, 48, 48, 48, 48, 48, 48, 48, 48, 48, 48, 48]
    ensures PREFIX + zeros == PLACEHOLDER && |zeros| == 16 && |PREFIX| == 12
  {
  }

  lemma OddSplice(zeros: Bytes, tag: Bytes, data: Bytes)
    requires |zeros| == 16 && |PREFIX| == 12 && PREFIX + zeros == PLACEHOLDER && tag == zeros + PREFIX
    requires data == PLACEHOLDER + zeros
    ensures |tag| == TAG_LEN && OccursAt(data, 0) && OccursAt(Spliced(data, 0, tag), 16)
  {
    assert data[0..TAG_LEN] == PLACEHOLDER;
    assert Spliced(data, 0, tag) == zeros + (PREFIX + zeros);
  }
}
