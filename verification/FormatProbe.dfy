/** Which devices may be formatted: the boot-area probe and the decision of `init_fs`. */
module FormatProbe {
  type byte = b: int | 0 <= b < 256
  type Bytes = seq<byte>

  const SECTOR: nat := 512
  const CHUNK: nat := 4096
  const SECTORS_PER_CHUNK: nat := 8
  const LIMIT: nat := 1048576
  const CHUNKS: nat := 256
  const MIN_PROBE: nat := 1026

  // "PAGH-FORMAT"
  const MARKER: Bytes := [80, 65, 71, 72, 45, 70, 79, 82, 77, 65, 84]

  // "EFI PART"
  const GPT_SIGNATURE: Bytes := [69, 70, 73, 32, 80, 65, 82, 84]

  datatype Layout = Ext2 | PartitionTable | Blank | Foreign

  datatype Refusal = ExistingFilesystem | HasPartitionTable | Ext2Like | ForeignData

  datatype Option<T> = Some(value: T) | None

  predicate Zero(buf: Bytes) {
    forall i :: 0 <= i < |buf| ==> buf[i] == 0
  }

  predicate StartsWith(buf: Bytes, mark: Bytes) {
    |mark| <= |buf| && buf[..|mark|] == mark
  }

  predicate IsExt2(buf: Bytes) {
    |buf| >= MIN_PROBE && buf[1024..1026] == [0x53, 0xEF]
  }

  predicate IsPartitionTable(buf: Bytes) {
    (|buf| >= 520 && buf[512..520] == GPT_SIGNATURE) || (|buf| >= 512 && buf[510..512] == [0x55, 0xAA])
  }

  /** What the first filesystem block looks like; too short a block is never blank. */
  function Classify(buf: Bytes): Layout {
    if |buf| < MIN_PROBE then Foreign
    else if IsExt2(buf) then Ext2
    else if IsPartitionTable(buf) then PartitionTable
    else if Zero(buf) then Blank
    else Foreign
  }

  /** The marker is the text "PAGH-FORMAT". */
  lemma MarkerBytes(buf: Bytes)
    ensures StartsWith(buf, MARKER) <==> |buf| >= 11 && forall i :: 0 <= i < 11 ==> buf[i] == "PAGH-FORMAT"[i] as int
  {
    if |buf| >= 11 {
      assert forall i :: 0 <= i < 11 ==> buf[..11][i] == buf[i] && MARKER[i] == "PAGH-FORMAT"[i] as int;
    }
  }

  /** The layouts by the bytes they are told by. */
  lemma LayoutBytes(buf: Bytes)
    ensures Classify(buf) == Ext2 <==> |buf| >= 1026 && buf[1024] == 0x53 && buf[1025] == 0xEF
    ensures Classify(buf) == PartitionTable <==>
      && |buf| >= 1026 && !(buf[1024] == 0x53 && buf[1025] == 0xEF)
      && ((forall i :: 0 <= i < 8 ==> buf[512 + i] == "EFI PART"[i] as int) || (buf[510] == 0x55 && buf[511] == 0xAA))
    ensures Classify(buf) == Blank <==> |buf| >= 1026 && forall i :: 0 <= i < |buf| ==> buf[i] == 0
  {
    if |buf| >= 1026 {
      SignatureBytes(buf);
      assert buf[512 + 0] == 0 ==> buf[512 + 0] != "EFI PART"[0] as int;
    }
  }

  lemma SignatureBytes(buf: Bytes)
    requires |buf| >= 1026
    ensures IsExt2(buf) <==> buf[1024] == 0x53 && buf[1025] == 0xEF
    ensures IsPartitionTable(buf) <==>
      (forall i :: 0 <= i < 8 ==> buf[512 + i] == "EFI PART"[i] as int) || (buf[510] == 0x55 && buf[511] == 0xAA)
  {
    assert buf[1024..1026] == [buf[1024], buf[1025]] && buf[510..512] == [buf[510], buf[511]];
    assert forall i :: 0 <= i < 8 ==> buf[512..520][i] == buf[512 + i] && GPT_SIGNATURE[i] == "EFI PART"[i] as int;
    assert buf[512..520] == GPT_SIGNATURE <==> forall i :: 0 <= i < 8 ==> buf[512..520][i] == GPT_SIGNATURE[i];
  }

  // ─── the incremental classifier ────────────────────────────────────────────

  class Probe {
    var layout: Layout
    var provisionalBlank: bool
    var marked: bool

    constructor (first: Bytes)
      ensures layout == Classify(first) && provisionalBlank == (layout == Blank) && marked == StartsWith(first, MARKER)
      ensures marked <==> |first| >= 11 && forall i :: 0 <= i < 11 ==> first[i] == "PAGH-FORMAT"[i] as int
      ensures layout == Ext2 <==> |first| >= 1026 && first[1024] == 0x53 && first[1025] == 0xEF
      ensures layout == PartitionTable <==>
        && |first| >= 1026 && !(first[1024] == 0x53 && first[1025] == 0xEF)
        && ((forall i :: 0 <= i < 8 ==> first[512 + i] == "EFI PART"[i] as int)
            || (first[510] == 0x55 && first[511] == 0xAA))
      ensures layout == Blank <==> |first| >= 1026 && forall i :: 0 <= i < |first| ==> first[i] == 0
    {
      MarkerBytes(first);
      LayoutBytes(first);
      layout := Classify(first);
      provisionalBlank := Classify(first) == Blank;
      marked := StartsWith(first, MARKER);
    }

    constructor Unreadable()
      ensures layout == Foreign && !provisionalBlank && !marked
    {
      layout, provisionalBlank, marked := Foreign, false, false;
    }

    method Feed(chunk: Bytes)
      modifies this
      ensures marked == old(marked)
      ensures if old(provisionalBlank) && !Zero(chunk) then layout == Foreign && !provisionalBlank
              else layout == old(layout) && provisionalBlank == old(provisionalBlank)
    {
      if provisionalBlank && !Zero(chunk) {
        layout, provisionalBlank := Foreign, false;
      }
    }
  }

  // A device: its bytes, and the sectors at which a read fails.
  datatype Device = Device(data: Bytes, faults: set<nat>)

  /** `read_block` of one chunk. */
  function ReadChunk(dev: Device, sector: nat): Option<Bytes> {
    if sector in dev.faults || sector * SECTOR + CHUNK > |dev.data| then None
    else Some(dev.data[sector * SECTOR..sector * SECTOR + CHUNK])
  }

  ghost predicate ReadsZero(dev: Device, k: nat) {
    var c := ReadChunk(dev, k * SECTORS_PER_CHUNK);
    c.Some? && Zero(c.value)
  }

  /** Every byte of the first MiB was read, and is zero. */
  ghost predicate WindowZero(dev: Device) {
    forall k :: 0 <= k < CHUNKS ==> ReadsZero(dev, k)
  }

  ghost predicate Marked(dev: Device) {
    ReadChunk(dev, 0).Some? && StartsWith(ReadChunk(dev, 0).value, MARKER)
  }

  /** The layout a complete reading of the window shows. */
  ghost function WindowLayout(dev: Device): Layout {
    var first := ReadChunk(dev, 0);
    if WindowZero(dev) then Blank
    else if first.Some? && (IsExt2(first.value) || IsPartitionTable(first.value)) then Classify(first.value)
    else Foreign
  }

  /** The first chunk of the device can be read. */
  ghost predicate Opens(dev: Device) {
    |dev.data| >= 4096 && 0 !in dev.faults
  }

  lemma FirstChunk(dev: Device)
    ensures ReadChunk(dev, 0).Some? <==> Opens(dev)
    ensures Opens(dev) ==> ReadChunk(dev, 0).value == dev.data[..4096]
  {
  }

  /** The opt-in, over the bytes of the device. */
  lemma MarkedIff(dev: Device)
    ensures Marked(dev) <==> Opens(dev) && forall i :: 0 <= i < 11 ==> dev.data[i] == "PAGH-FORMAT"[i] as int
  {
    FirstChunk(dev);
    if Opens(dev) {
      MarkerBytes(dev.data[..4096]);
      assert forall i :: 0 <= i < 11 ==> dev.data[..4096][i] == dev.data[i];
    }
  }

  /** Each of the first 1048576 bytes of a device with a blank window exists and is zero. */
  lemma WindowBytes(dev: Device, i: nat)
    requires WindowZero(dev) && i < 0x10_0000
    ensures i < |dev.data| && dev.data[i] == 0
  {
    var k := i / CHUNK;
    assert k < CHUNKS;
    assert ReadsZero(dev, k);
    var start := k * SECTORS_PER_CHUNK * SECTOR;
    assert start <= i < start + CHUNK;
    assert dev.data[start..start + CHUNK][i - start] == dev.data[i];
  }

  /** A blank window, over the bytes of the device: the first MiB, all of it readable, all of it zero. */
  lemma WindowZeroIff(dev: Device)
    ensures WindowZero(dev) <==>
      && |dev.data| >= 0x10_0000 && (forall k :: 0 <= k < 256 ==> 8 * k !in dev.faults)
      && forall i :: 0 <= i < 0x10_0000 ==> dev.data[i] == 0
  {
    if WindowZero(dev) {
      forall i: nat | i < 0x10_0000 ensures i < |dev.data| && dev.data[i] == 0 {
        WindowBytes(dev, i);
      }
      assert ReadsZero(dev, 255);
      forall k | 0 <= k < 256 ensures 8 * k !in dev.faults {
        assert ReadsZero(dev, k);
      }
    }
    if && |dev.data| >= 0x10_0000 && (forall k :: 0 <= k < 256 ==> 8 * k !in dev.faults)
       && forall i :: 0 <= i < 0x10_0000 ==> dev.data[i] == 0
    {
      forall k | 0 <= k < CHUNKS ensures ReadsZero(dev, k) {
        assert 8 * k !in dev.faults && k * SECTORS_PER_CHUNK * SECTOR + CHUNK <= 0x10_0000;
      }
    }
  }

  /** The layouts, over the bytes of the device. */
  lemma WindowLayoutIff(dev: Device)
    ensures WindowLayout(dev) == Ext2 <==> Opens(dev) && dev.data[1024] == 0x53 && dev.data[1025] == 0xEF
    ensures WindowLayout(dev) == PartitionTable <==>
      && Opens(dev) && !(dev.data[1024] == 0x53 && dev.data[1025] == 0xEF)
      && ((forall i :: 0 <= i < 8 ==> dev.data[512 + i] == "EFI PART"[i] as int)
          || (dev.data[510] == 0x55 && dev.data[511] == 0xAA))
    ensures WindowLayout(dev) == Blank <==> WindowZero(dev)
  {
    FirstChunk(dev);
    if Opens(dev) {
      var first := dev.data[..4096];
      LayoutBytes(first);
      assert forall x :: 510 <= x < 1026 ==> first[x] == dev.data[x];
      if WindowZero(dev) {
        assert ReadsZero(dev, 0);
        assert first[512 + 0] == 0 != "EFI PART"[0] as int;
      }
    }
  }

  /** The sectors read are the chunks from the start, in order, each once. */
  ghost predicate Contiguous(visited: seq<nat>) {
    |visited| <= CHUNKS && forall i :: 0 <= i < |visited| ==> visited[i] == i * SECTORS_PER_CHUNK
  }

  lemma ZeroIsBlank(buf: Bytes)
    requires |buf| == CHUNK
    ensures Zero(buf) <==> Classify(buf) == Blank
    ensures StartsWith(buf, MARKER) ==> !Zero(buf)
  {
    if Zero(buf) {
      assert buf[1024..1026][0] == 0 && buf[512..520][0] == 0 && buf[510..512][0] == 0;
      assert buf[..|MARKER|][0] == 0;
    }
  }

  /**
   * `probe_boot_area`: blank exactly when the whole window was read as zero; the reads are contiguous
   * from the start, and stop only at a failed read, at the first chunk that is not zero, or at the end.
   */
  method ProbeBootArea(dev: Device) returns (probe: Probe, ghost visited: seq<nat>)
    ensures fresh(probe) && Contiguous(visited) && visited != []
    ensures probe.layout == WindowLayout(dev)
    ensures probe.marked <==> Marked(dev)
    ensures probe.layout == Blank ==> |visited| == CHUNKS
    ensures probe.layout != Blank ==> !ReadsZero(dev, |visited| - 1)
    ensures forall k :: 0 <= k < |visited| - 1 ==> ReadsZero(dev, k)
  {
    var first := ReadChunk(dev, 0);
    visited := [0];
    assert visited[0] == 0 * SECTORS_PER_CHUNK;
    if first.None? {
      assert !ReadsZero(dev, 0);
      probe := new Probe.Unreadable();
      return;
    }
    ZeroIsBlank(first.value);
    probe := new Probe(first.value);
    assert ReadsZero(dev, 0) <==> Zero(first.value);
    var sector := SECTORS_PER_CHUNK;
    while probe.provisionalBlank && sector * SECTOR < LIMIT
      invariant fresh(probe) && Contiguous(visited) && |visited| >= 1 && sector == |visited| * SECTORS_PER_CHUNK
      invariant probe.provisionalBlank == (probe.layout == Blank)
      invariant probe.marked <==> Marked(dev)
      invariant probe.layout in {Blank, Foreign} || (|visited| == 1 && probe.layout == Classify(first.value))
      invariant |visited| > 1 ==> Classify(first.value) == Blank
      invariant |visited| == 1 ==> probe.layout == Classify(first.value)
      invariant probe.provisionalBlank <==> ReadsZero(dev, |visited| - 1)
      invariant forall k :: 0 <= k < |visited| - 1 ==> ReadsZero(dev, k)
      decreases CHUNKS - |visited|, probe.provisionalBlank
    {
      ghost var n := |visited|;
      var chunk := ReadChunk(dev, sector);
      visited := visited + [sector];
      assert ReadsZero(dev, n - 1);
      if chunk.None? {
        assert !ReadsZero(dev, n);
        assert !Marked(dev) by { assert ReadsZero(dev, 0); }
        probe := new Probe.Unreadable();
        return;
      }
      assert ReadsZero(dev, n) <==> Zero(chunk.value);
      probe.Feed(chunk.value);
      sector := sector + SECTORS_PER_CHUNK;
    }
  }

  // ─── the decision ──────────────────────────────────────────────────────────

  datatype Verdict = Allowed | Refused(refusal: Refusal)

  /** `format_allowed`: a parsable superblock refuses whatever else holds; then blank; then the opt-in. */
  function FormatAllowed(layout: Layout, hasValidSuperblock: bool, allowDestructive: bool): (v: Verdict)
    ensures v == Allowed <==> !hasValidSuperblock && (layout == Blank || allowDestructive)
    ensures v == Refused(ExistingFilesystem) <==> hasValidSuperblock
    ensures v == Refused(HasPartitionTable) ==> layout == PartitionTable
    ensures v == Refused(Ext2Like) ==> layout == Ext2
    ensures v == Refused(ForeignData) ==> layout == Foreign
  {
    if hasValidSuperblock then Refused(ExistingFilesystem)
    else if layout == Blank then Allowed
    else if allowDestructive then Allowed
    else match layout
      case PartitionTable => Refused(HasPartitionTable)
      case Ext2 => Refused(Ext2Like)
      case _ => Refused(ForeignData)
  }

  datatype Outcome =
    | NoDevice | MountedAsIs | LeftUntouched(refusal: Refusal)
    | FormatFailed | MountFailedAfterFormat | FormattedAndMounted

  predicate Formats(r: Outcome) {
    r == FormatFailed || r == MountFailedAfterFormat || r == FormattedAndMounted
  }

  /**
   * The mount-or-format decision of `init_fs`, with the answers of the drivers and of ext2 as inputs:
   * a device is formatted exactly when its mount failed, it has no valid superblock, and it carries the
   * opt-in marker or its whole window was read as zero.
   */
  method InitFs(device: Option<Device>, mounts: bool, hasValidSuperblock: bool, formatWorks: bool, mountsAfter: bool)
    returns (r: Outcome)
    ensures r == NoDevice <==> device.None?
    ensures r == MountedAsIs <==> device.Some? && mounts
    ensures Formats(r) <==>
      device.Some? && !mounts && !hasValidSuperblock && (Marked(device.value) || WindowZero(device.value))
    ensures device.Some? && !mounts && !hasValidSuperblock ==>
      var data, faults := device.value.data, device.value.faults;
      (Formats(r) <==>
        || (|data| >= 4096 && 0 !in faults && forall i :: 0 <= i < 11 ==> data[i] == "PAGH-FORMAT"[i] as int)
        || (|data| >= 0x10_0000 && (forall k :: 0 <= k < 256 ==> 8 * k !in faults)
            && forall i :: 0 <= i < 0x10_0000 ==> data[i] == 0))
    ensures r == LeftUntouched(Ext2Like) ==>
      Opens(device.value) && device.value.data[1024] == 0x53 && device.value.data[1025] == 0xEF
    ensures r == LeftUntouched(HasPartitionTable) ==>
      var data := device.value.data;
      && Opens(device.value) && !(data[1024] == 0x53 && data[1025] == 0xEF)
      && ((forall i :: 0 <= i < 8 ==> data[512 + i] == "EFI PART"[i] as int)
          || (data[510] == 0x55 && data[511] == 0xAA))
    ensures Formats(r) ==>
      r == if !formatWorks then FormatFailed else if mountsAfter then FormattedAndMounted else MountFailedAfterFormat
    ensures r == LeftUntouched(ExistingFilesystem) <==> device.Some? && !mounts && hasValidSuperblock
    ensures r.LeftUntouched? && r.refusal != ExistingFilesystem ==>
      r.refusal == (match WindowLayout(device.value)
                    case PartitionTable => HasPartitionTable case Ext2 => Ext2Like case _ => ForeignData)
  {
    if device.None? { return NoDevice; }
    if mounts { return MountedAsIs; }
    var probe, visited := ProbeBootArea(device.value);
    MarkedIff(device.value);
    WindowZeroIff(device.value);
    WindowLayoutIff(device.value);
    var verdict := FormatAllowed(probe.layout, hasValidSuperblock, probe.marked);
    match verdict {
      case Allowed =>
        if !formatWorks { return FormatFailed; }
        if mountsAfter { return FormattedAndMounted; }
        return MountFailedAfterFormat;
      case Refused(refusal) => return LeftUntouched(refusal);
    }
  }

  /** The window is the limit: a device that holds data only behind it is formatted all the same. */
  lemma BehindWindow(dev: Device, i: nat)
    requires i >= 0x10_0000 && i < |dev.data| && dev.faults == {} && forall k :: 0 <= k < |dev.data| && k != i ==>
      dev.data[k] == 0
    ensures WindowZero(dev)
  {
    forall k | 0 <= k < CHUNKS ensures ReadsZero(dev, k) {
      var c := ReadChunk(dev, k * SECTORS_PER_CHUNK);
      assert k * SECTORS_PER_CHUNK * SECTOR + CHUNK <= LIMIT;
    }
  }
}
