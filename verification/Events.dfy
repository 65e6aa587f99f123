/** Runs of a journal: commits that return, commits cut short, recoveries, and what they ought to amount to. */
module Events {
  import opened Disks
  import opened Ring
  import opened Journal
  import opened Recovery
  import opened CutRing
  import opened Crash
  import opened Atomicity
  import opened Histories

  // A commit that returned; or one cut short after `ops` operations with `image` left on the
  // medium, then recovery attempts each cut short, then a recovery of `last` that completed.
  datatype Event =
    | Returned(txn: Txn)
    | Interrupted(txn: Txn, ops: nat, image: Disk, tries: seq<Attempt>, last: Disk)

  /** The journal after a completed recovery: its superblock is still in the cache. */
  function Booted(a: Area, d: Disk): Sys
    requires Fits(a, d) && Sane(a, d[a.fsBlocks])
  {
    Sys(Exec(Dev(d, []), OpsOn(a, d)), PointersAfter(a, d))
  }

  /** One event's part: a returned commit does what its status says, an interrupted one all of that or nothing. */
  ghost function Effect(a: Area, fs: Disk, event: Event, applied: bool): Disk {
    if event.Returned? || applied then Committed(a, fs, event.txn) else fs
  }

  /** Committing the transactions of `events` in order, an interrupted one only if chosen. */
  ghost function Spec(a: Area, fs: Disk, events: seq<Event>, applied: seq<bool>): Disk
    requires |applied| == |events|
    decreases |events|
  {
    if events == [] then fs
    else
      var n := |events| - 1;
      Effect(a, Spec(a, fs, events[..n], applied[..n]), events[n], applied[n])
  }

  lemma {:induction false} SpecSnoc(a: Area, fs: Disk, events: seq<Event>, applied: seq<bool>, one: bool)
    requires events != [] && |applied| == |events| - 1
    ensures var n := |events| - 1;
            Spec(a, fs, events, applied + [one]) == Effect(a, Spec(a, fs, events[..n], applied), events[n], one)
  {
    assert (applied + [one])[..|applied|] == applied;
  }

  lemma OutcomeEffect(a: Area, fs: Disk, event: Event, applied: bool)
    requires event.Interrupted? && (CommitStatus(a, event.txn) != Done ==> !applied)
    ensures Outcome(fs, event.txn, applied) == Effect(a, fs, event, applied)
  {
  }

  lemma {:induction false} BootedDev(a: Area, d: Disk, fs: Disk)
    requires RecoversTo(a, d, fs)
    ensures Booted(a, d).dev == Dev(Apply(d, ScanOf(a, d).puts), [SuperPut(a, PointersAfter(a, d))])
    ensures Holds(a, Booted(a, d).dev.stable, d[a.fsBlocks], RingOf(a, d), fs)
  {
    RecoveryEnds(a, d);
    ReplayedRecovers(a, d, fs);
  }

  lemma ReplayedBehind(a: Area, d: Disk, fs: Disk)
    requires RecoversTo(a, d, fs)
    ensures var p := PointersAfter(a, d);
            Behind(a.crc, RingOf(a, d), fs, d[a.fsBlocks].tail, d[a.fsBlocks].nextSeq, p.head, p.nextSeq)
  {
    var r := ScanOf(a, d);
    ApplyTwice(FsOf(a, d), r.puts);
    assert |fs| == a.fsBlocks;
  }

  /** Every completed recovery leaves a journal at rest. */
  lemma BootedRests(a: Area, d: Disk, fs: Disk)
    requires RecoversTo(a, d, fs)
    ensures Rests(a, Booted(a, d).dev, Booted(a, d).p, fs)
  {
    BootedDev(a, d, fs);
    DeadAfter(a, d, fs);
    ReplayedBehind(a, d, fs);
  }
}
