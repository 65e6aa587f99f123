# Verified models of pagh OS

This project models the parts of pagh OS whose correctness rests on protocols and algorithms rather than on
hardware, and proves what their code and documentation promise:

- the write-ahead log (`src/fs/journal.rs`) over a block device with a volatile write cache, with power cuts
  at every operation, inside commits and inside recoveries;
- the mock block device of the kernel's own tests, with its cache, its crash injection and its power loss;
- the receive-ring ownership model of the network tests;
- the end-to-end harness's backup of the files it overwrites, killed after any file operation;
- the boot-tag patch of a staged ELF image;
- the DER reader and Name walker, the whitespace flattener, the console screen scan;
- the boot-area probe with the mount-or-format decision, and first-boot provisioning.

`dafny verify dfyconfig.toml` checks everything.

## How the journal is modelled

A disk is a sequence of 4 KiB blocks (`Disks.Block`); a block is a superblock, a descriptor, a commit block or
raw data. A device (`Disks.Dev`) is the medium as of the last barrier plus the writes since. Two kinds of power
cut are modelled: an *ordered* cut keeps a prefix of the unflushed writes, a *torn* cut leaves every block with
its old contents or with any unflushed write to it. The latter covers every suffix and subset of the cache,
the mock device's power loss included.

`Journal.Wal` is the journal object, with the loops of `commit` and `recover`. Its methods are proved to issue
exactly the operation sequences `CommitOps`, `RecoverOps` and `FormatPuts`, and to compute exactly `Scan`; the
crash theorems are about every prefix of those sequences.

The main results:

- `OrderedRuns.OrderedHistory`: on an ordered device, for every run of commits and power cuts (also inside
  recoveries), from a format that issues no barrier, the filesystem is what committing the same transactions in
  order makes. Every commit that returned is included, every interrupted one is applied wholly or not at all.
  No condition on the checksum.
- `Atomicity.CommitAtomicIff`: on a reordering device, from a journal at rest with any superblock still in the
  cache and any leftovers of earlier cuts on the ring, every cut in a commit is atomic *if and only if* two
  things hold. Nothing but the transaction can come alive at the head (`CutRing.Misdirects`: descriptor, data
  blocks and commit block, each one left over or new, with a commit block that vouches for just that data). And,
  unless the ring is reclaimed first, the record does not cut a chain of unacknowledged records short
  (`CutRing.Regresses`: one of its blocks falls on such a record other than the first, and replaying the records
  before it is neither the old nor the new filesystem).
- `Reboots.SurvivesIff` and `Reboots.FinishesIff`: for *every* journal that commits and recoveries can leave
  (`Crash.Held`), whatever is on its ring, a cut between calls changes nothing *if and only if* stepping on over old
  records from the head never meets a complete one with the next number (`Ring.Dead`), and a cut behind a record's
  barrier finishes exactly that transaction if and only if nothing is to be replayed behind the record.
  `Reboots.BootedIff` says the same after any recovery and any commits.
- `TornRuns.TornRunsRefine`: from a format over any disk, any number of reordering cuts, in commits, between them and
  in recoveries, the superblock that recovery leaves in the cache included: whole-run refinement whenever each cut
  meets the exact condition of its phase. Commits that return need no condition. Only where a cut falls on a record
  that is being written does the ring have to be tidy (no descriptor numbered ahead of the next record except where
  that record goes, and a lap of the ring that reaches the head).
- `ReusedRuns.ReusedRunsRefine`: the same on an ordered device, from a format over a ring that an earlier journal may
  have used, with no such restriction: the conditions are those of the two equivalences above, and that no leftover
  commit block completes a record early (`ReusedRuns.UnappliedIff`).
- `Histories.TornHistory`: without any earlier cut the condition follows from the checksum alone. Format without a
  barrier, any commits, a cut anywhere in one more, any recoveries cut short. A cut before the first barrier leaves
  a disk that opens if and only if the superblock survived (`Histories.FirstCut`, `Histories.FormatLost`).
- Each of these conditions can fail on runs from a blank disk. `SecondCut.ImagesToOldTargets` and
  `SecondCut.OldImagesAdopted` mix any two equally long transactions by two cuts, because the checksum does not cover
  the targets and a retried record carries the same number. `ChainCut.ChainCutShort` loses the superblock that a
  recovery wrote after replaying two records: the next record's blocks break the second one, and a further recovery
  replays the first one alone, over the second. `StaleCut.StaleReturns` loses it in the same way, with one block on
  the first record: recovery goes back to number 1, every cut so far has been atomic, and yet the next commit, which
  *returns*, is overwritten by the old second record at the next recovery, without a further cut.
  `SecondCut.SecondCutCounterexample`, `ChainCut.ChainCutCounterexample` and `StaleCut.StaleCounterexample` are
  concrete disks.
- `format` promises that no scan reaches the old ring content behind the slot it clears. That holds right after
  `format`, but not after commits: `Limits.ReformatResurrects` replays a record of the previous journal into the
  new filesystem, and `Limits.ReformatIff` says, for any disk and any list of commits, exactly when it happens. Nor
  does it hold if power fails between the two writes of `format` (`Reboots.FormatIff`).

What is assumed, and stated in the lemmas that need it: a 4 KiB block write is atomic; a logged image never
decodes as a journal block (`TornRing.Plain`); for reordering cuts, the checksum tells the lists of blocks that
can actually be read there apart (`CutRing.Told` for records that a cut may damage, `Histories.Vouched` for the
images of a new record; both are about this ring and this transaction, not about all lists); sequence numbers do
not overflow; device I/O does not fail.

## Where the code and its documentation disagree

- `src/fs/journal.rs:108-113` says that clearing position 0 is enough on `format`. See `Limits.ReformatIff`, and
  `Reboots.FormatIff` for a cut that loses just that write.
- `src/fs/journal.rs:328-333` says that old images can never be re-applied over newer data. `StaleCut.StaleReturns` is
  a run from a blank disk in which they are, over a commit that returned; `Reboots.SurvivesIff` is the exact condition.
- `src/fs/journal.rs:209-212` says that a record can never fill the ring exactly. The test `count + 2 > free`
  lets the ring become exactly full over several records, after which `head == tail` reads as empty
  (`Limits.FullLooksEmpty`). The proofs cover that case.
- `src/fs/journal.rs:402-413`: recovery returns with its superblock in the cache. See `ChainCut.ChainCutShort` and
  `StaleCut.StaleReturns`.
- `src/test.rs:3937-3938` says that recovery replays both records there. Under the code's rule the first one is
  acknowledged by the superblock and stepped over.
- `tools/check_agents_md.py:346-347` says that every flat character carries the line it came from. A joining
  space carries the line of the word behind it.
- `tools/font_check.py:518-522` says that dividing out the coverage recovers the colour. `Font.GreyScreen` is, for
  every cell height, a screen of one correctly drawn glyph that the scan refuses, and `Font.ExplainedIff` says
  exactly which drawn glyphs pass, for themselves or for another glyph of the asset: that glyph has ink just where
  the drawn ink is worth half a level in some channel, and in no channel does a rounding threshold of the blend
  separate the drawn level from the recovered one. `Font.ScreenIff` is the same for a whole screen. On black the
  darkest pixel itself always agrees (`Font.BlackDarkest`), on another background not even that
  (`Font.DarkOnLightRefused`).
- `src/test.rs:2491-2505`: what a power loss keeps never becomes stable, so a second power loss takes it back.
  See `MockDevice.LossTwice`.
- `src/provision.rs:52-57`: `seed` takes the release file, which it installs first, as the sign that everything
  was installed. `Seeding.HalfSeeded` is a first boot that fails behind that file and is never made up for;
  `Seeding.SeedRepeatedly` says, for any number of boots, exactly when everything ends up there.

## Model

| member | source | states |
|---|---|---|
| `Disks.OrderedIsTorn` | src/test.rs:2484-2505 | an ordered cut is one of the images a reordering cache allows |
| `Disks.SuffixIsTorn` | src/test.rs:2484-2505 | keeping any suffix of the cached writes is one of the images a reordering cache allows |
| `Ring.SlotIsMod` | src/fs/journal.rs:90-92 | the slot of a log position is the position modulo the ring size, for every position |
| `Journal.LogBlock` | src/fs/journal.rs:180-190 | the transaction means what writing the old one and then the padded block means, on every disk; targets stay distinct |
| `Journal.Open` | src/fs/journal.rs:135-154 | accepts exactly a superblock block with a non-empty log, and takes over its pointers |
| `Journal.Format` | src/fs/journal.rs:114-128 | the two writes of format, in order: an empty superblock numbered from 1, and 4096 zero bytes behind it; no other block changes |
| `Journal.BlockDevice.Store` | src/fs/journal.rs:81-86 | one write: the contents change at one block, the operation is recorded, contents and record stay in agreement |
| `Journal.BlockDevice.Flush` | src/drivers/mod.rs:46-60 | a barrier is recorded, contents unchanged |
| `Journal.Wal.constructor` | src/fs/journal.rs:144-153 | the journal object takes the persisted pointers |
| `Journal.Wal.PersistSuper` | src/fs/journal.rs:156-169 | writes a superblock with the current pointers and geometry, and nothing else |
| `Journal.Wal.Commit` | src/fs/journal.rs:200-308 | done exactly for the empty transaction or at most 254 blocks that leave three slots of the ring, every target inside the filesystem and every raw block 4096 bytes; out of space exactly when the size fails; then a reader sees the transaction applied, and the old filesystem otherwise; pointers and the exact operation sequence of every call |
| `Journal.CommitMoves` | src/fs/journal.rs:216-308 | after an accepted size the head is the old one plus the record modulo the ring, the number one higher, and the tail the old head exactly when the blocks in use and the record exceed the ring; a refused target moves only the tail |
| `Journal.Wal.Reclaim` | src/fs/journal.rs:216-240 | reclaims exactly when the record does not fit, and makes the new tail durable before anything else |
| `Journal.Wal.Validate` | src/fs/journal.rs:242-247 | true exactly when every target is below the end of the filesystem and every raw block has 4096 bytes |
| `Journal.Wal.Log` | src/fs/journal.rs:249-301 | record, barrier, checkpoint, barrier, in that order; a reader then sees the transaction applied |
| `Journal.Wal.WriteRecord` | src/fs/journal.rs:249-282 | descriptor, data and commit block land in consecutive slots of the wrapped ring |
| `Journal.Wal.Checkpoint` | src/fs/journal.rs:292-295 | every image to its target, in logging order; the filesystem becomes the transaction applied to it |
| `Journal.Wal.Recover` | src/fs/journal.rs:334-414 | replays exactly what the scan of the disk says, flushes if anything was replayed, then persists the emptied log; a recovery that replays nothing writes one superblock; a target outside stops it with an error |
| `Journal.Wal.ReplayLog` | src/fs/journal.rs:336-400 | the loop computes the scan function, writing exactly its blocks, in at most one lap |
| `Journal.Wal.Inspect` | src/fs/journal.rs:344-366 | one look at a slot stops, steps over an acknowledged record, or replays a live one |
| `Journal.Wal.Verify` | src/fs/journal.rs:368-399 | a record is replayed exactly when its commit block vouches for its data |
| `Journal.Wal.Rewrite` | src/fs/journal.rs:386-393 | the blocks before the first target outside are written, and only those |
| `Recovery.MixtureRecovers` | src/test.rs:2789-2794 | an image with any of the replayed blocks already rewritten recovers to the same filesystem |
| `Recovery.RecoveryRestarts` | src/test.rs:2789-2847 | a cut after any number of operations of a recovery leaves an image that recovers to the same filesystem |
| `Recovery.AttemptsRestart` | src/test.rs:2789-2847 | so does any number of recoveries each cut short |
| `Recovery.RecoveryCompletes` | src/test.rs:4128-4140 | a completed recovery leaves that filesystem, and a further one replays nothing |
| `TornRing.LiveSlips` | src/fs/journal.rs:368-384 | whatever a cut brings alive at the head is a descriptor, data and a commit block, each left over or new, the commit block vouching for that data |
| `TornRing.SlippedLive` | src/fs/journal.rs:368-384 | and every such combination is what some cut brings alive |
| `TornRing.ScanWhole` | src/fs/journal.rs:334-414 | once the record is durable, the path to it intact and no complete record with the next number right behind it, recovery replays exactly that transaction and stops there |
| `BehindRing.ScanCut` | src/fs/journal.rs:336-399 | from a superblock that misses k records, over any part of the next record: all k are replayed and the scan goes on, or it stops after j of them, and then one block of the new record explains it |
| `BehindRing.ScanBroken` | src/fs/journal.rs:336-399 | that one block, arriving alone, makes the scan stop there |
| `CutRing.NowAtomic` | src/fs/journal.rs:334-414 | a partly written record, from the current superblock: all or nothing unless something else slips in at the head |
| `CutRing.AsideAtomic` | src/fs/journal.rs:344-366 | the same from a superblock with the current number and another tail |
| `CutRing.OldAtomic` | src/fs/journal.rs:303-307 | the same from a superblock that misses any number of records, unless the new record cuts their chain short |
| `CutRing.SlipMisleads` | src/fs/journal.rs:386-393 | what slips in at the head and is not the transaction makes recovery end in neither state |
| `CutRing.BreakMisleads` | src/fs/journal.rs:336-399 | so does one block of the new record on a chain of unacknowledged records |
| `CutRing.ApartSafe` | src/fs/journal.rs:303-307 | a record that leaves every unacknowledged record but the first alone cuts no chain short |
| `Crash.RecordCut` | src/test.rs:3983-4019 | a cut before the record's barrier, whatever part of the cache survives, the superblock included: all or nothing under the exact condition |
| `Crash.RestsCut` | src/test.rs:4060-4088 | a cut between calls loses nothing, whether or not the last superblock survives |
| `Crash.ReclaimCut` | src/test.rs:4143-4202 | a cut while the reclaimed tail is on its way loses nothing, whichever of the two superblocks survives |
| `Commits.CheckpointCut` | src/test.rs:2677-2740 | a cut during the checkpoint: the transaction is finished by recovery |
| `Commits.AdvanceCut` | src/test.rs:4060-4088 | a cut around the head advance leaves the transaction applied, replayed or acknowledged |
| `Atomicity.CommitAtomic` | src/test.rs:3983-4042 | a cut after any number of operations of commit: all or nothing; all once the record's barrier is past; never for a refused transaction |
| `Atomicity.CommitReady` | src/fs/journal.rs:192-199 | a commit that returned is back at rest with exactly its transaction applied, ready for the next |
| `Atomicity.CommitHeld` | src/fs/journal.rs:192-199 | whatever an earlier recovery or journal left on the ring, a commit that returned has exactly its transaction applied, its record behind the live ones, and is at rest unless something is to be replayed behind it |
| `Atomicity.CommitAtomicIff` | src/test.rs:3961-4042 | every cut anywhere in a commit is atomic if and only if nothing else can come alive at the head and no chain of unacknowledged records is cut short |
| `Histories.FirstCut` | src/fs/journal.rs:114-128 | a cut before the first barrier: the disk opens exactly when the superblock of format survived, and then the first transaction is there wholly or not at all |
| `Histories.FormatLost` | src/fs/journal.rs:114-154 | losing the cache before the first barrier leaves a disk that does not open |
| `Histories.HistoryForgets` | src/fs/journal.rs:114-128 | from the first barrier on it no longer matters that format issues none |
| `Histories.TornHistory` | src/test.rs:3983-4042 | format without a barrier, any commits, a cut anywhere in one more, any recoveries cut short: the filesystem of the returned commits plus the interrupted one or not, never a refused one |
| `Ordered.PartialRecord` | src/test.rs:2744-2787 | a proper prefix of a record leaves the old filesystem, and a log on which the next record is safe |
| `Ordered.OkRestarts` | src/test.rs:2789-2847 | the same for a recovery cut at any operation |
| `OrderedRuns.OrderedCommitCut` | src/test.rs:2677-2787 | an ordered cut after any number of operations of commit: all or nothing, all if it had returned, nothing if it was refused |
| `OrderedRuns.RunsRefine` | src/test.rs:4060-4141 | every run of commits and cuts from format refines committing the chosen transactions in order, a refused one never |
| `OrderedRuns.OrderedHistory` | src/test.rs:3961-4042 | the same for the blocks a reader sees |
| `ReusedRuns.UnappliedIff` | src/test.rs:2744-2787 | over any leftovers, whatever proper prefix of a record a cut leaves, recovery finds nothing of it, if and only if no leftover commit block completes a prefix |
| `ReusedRuns.ReusedRunsRefine` | src/test.rs:4060-4161 | every run of commits and ordered cuts from a format over any disk, used before or not, refines committing the chosen transactions in order, whenever each cut meets the exact condition of its phase |
| `Events.BootedRests` | src/fs/journal.rs:402-413 | every completed recovery leaves a journal at rest, its superblock still in the cache |
| `Replays.DeadIff` | src/fs/journal.rs:336-413 | a position is dead exactly when recoveries from there, however many in a row, replay nothing |
| `Reboots.SurvivesIff` | src/fs/journal.rs:328-333 | for every journal between calls: whatever part of the cache a cut keeps, recovery finds the same filesystem and goes on with the same number, if and only if the head is dead |
| `Reboots.FinishesIff` | src/test.rs:4060-4088 | for every journal: whatever a cut behind the record's barrier leaves, recovery finds exactly this transaction applied, if and only if nothing is to be replayed behind its record |
| `Reboots.BootedIff` | src/fs/journal.rs:328-333 | after any completed recovery and any returned commits: the next recovery replays nothing if and only if no complete record with the next number lies where its scan goes on, and nothing ever changes if and only if the head is dead |
| `Reboots.LeftoverIff` | src/fs/journal.rs:336-366 | the two conditions are the same unless the lap of the scan ends before anything stops it |
| `Reboots.FormatIff` | src/fs/journal.rs:104-128 | a cut between the two writes of format is harmless if and only if the start of the old ring is dead for number 1 |
| `Reboots.FormatCutReplays` | src/fs/journal.rs:104-128 | after format, one commit and format again it is not |
| `TornRuns.TornRunsRefine` | src/test.rs:3961-4042 | from a format over any disk, any number of reordering cuts, the recovery's superblock included: refinement, every returned commit included, whenever each cut meets the exact condition of its phase |
| `TornRuns.ReachedTidy` | src/fs/journal.rs:402-413 | a recovery that got as far as the interrupted record leaves no descriptor numbered ahead but at the head |
| `TornRuns.QuietBoot` | src/fs/journal.rs:344-366 | a cut that kept the current superblock and no complete record, over a head without an older descriptor, leaves a journal ready for the same record again |
| `SecondCut.ImagesToOldTargets` | src/fs/journal.rs:270-282 | a run of two cuts that writes the second transaction's images to the first one's blocks |
| `SecondCut.OldImagesAdopted` | src/fs/journal.rs:368-384 | and one that writes the first transaction's images to the second one's blocks |
| `SecondCut.SecondCutCounterexample` | src/fs/journal.rs:270-282 | a concrete disk and two one-block transactions for which it is neither the old nor the new state |
| `ChainCut.ChainCutShort` | src/fs/journal.rs:402-413 | a run of two cuts in which the superblock of a recovery is lost and its second replayed transaction is half undone |
| `ChainCut.ChainCutCounterexample` | src/fs/journal.rs:402-413 | a concrete disk for it: neither the state before the interrupted commit nor the one after |
| `StaleCut.StaleReturns` | src/fs/journal.rs:328-413 | a run of two cuts, for all transactions of fitting lengths, after which a commit that returns is overwritten at the next recovery by an old record; the second cut may meet the condition of `CommitAtomicIff` |
| `StaleCut.StaleCounterexample` | src/fs/journal.rs:328-413 | a concrete five-block filesystem for it: the block of the returned commit is back at its older contents |
| `Limits.FormatReplaysNothing` | src/fs/journal.rs:104-113 | whatever the disk held, recovery right after format replays nothing |
| `Limits.ReformatIff` | src/fs/journal.rs:104-128 | over any disk and after any commits that still holds exactly when no complete record with the next number, inherited from the old ring, lies where the scan goes on behind the new ones |
| `Limits.ReformatResurrects` | src/test.rs:4143-4161 | format, two commits, format, a commit as long as the first: recovery replays the old second transaction |
| `Limits.FullLooksEmpty` | src/fs/journal.rs:209-217 | two commits can fill the ring exactly, and the next one then starts over live records without a reclaim |
| `Replays.ReplaySound` | src/test.rs:4044-4058 | on any ring, recovery replays only complete records numbered consecutively from the expected number, and all of their blocks |
| `Replays.ScanSound` | src/test.rs:4089-4141 | the same for a whole recovery, from the persisted sequence number |
| `Replays.DamagedRecord` | src/test.rs:2849-2914 | a record with its commit block or, where the checksum notices, one data block changed is ignored: every block keeps its old contents |
| `MockDevice.MockBlockDevice.constructor` | src/test.rs:2384-2397 | zeroed data, nothing armed, no cache |
| `MockDevice.MockBlockDevice.SetCrashAfter` | src/test.rs:2405-2413 | arms the limit and restarts the count, nothing else |
| `MockDevice.MockBlockDevice.EnableVolatileCache` | src/test.rs:2474-2479 | everything written so far counts as stable |
| `MockDevice.MockBlockDevice.ReadBlock` | src/test.rs:2513-2525 | succeeds exactly on a positive multiple of 512 in range, with the bytes of the image |
| `MockDevice.MockBlockDevice.WriteBlock` | src/test.rs:2527-2552 | succeeds exactly on a non-empty multiple of 512 bytes in range; the step of the device is its new state |
| `MockDevice.MockBlockDevice.FlushCache` | src/test.rs:2562-2574 | makes the current image stable and empties the cache |
| `MockDevice.MockBlockDevice.PowerLoss` | src/test.rs:2491-2505 | the stable image with the newest kept writes over it, oldest first; cache and limit cleared, the rest unchanged |
| `MockDevice.WriteFields` | src/test.rs:2527-2552 | a write byte by byte: a refused one leaves no trace, one past the limit is counted, recorded and dropped, any other changes exactly its bytes and joins the cache |
| `MockDevice.FlushFields` | src/test.rs:2562-2574 | a flush is counted and recorded, and on a volatile device makes the image stable |
| `MockDevice.LossNewest` | src/test.rs:2484-2505 | a byte under a kept write is that of the newest write over it |
| `MockDevice.LossUntouched` | src/test.rs:2484-2505 | any other byte is the stable one |
| `MockDevice.RunCoherent` | src/test.rs:2474-2574 | over any run of writes and flushes the image is the stable one overlaid by the cache in order |
| `MockDevice.LossExtremes` | src/test.rs:2484-2505 | keeping nothing leaves the stable image, keeping everything the current one, after any run |
| `MockDevice.LossTwice` | src/test.rs:2491-2505 | a second power loss leaves the stable image whatever the first kept; the invariant survives exactly when the kept writes change nothing |
| `MockDevice.ArmedLands` | src/test.rs:2405-2413 | after any run exactly the first n in-range writes landed |
| `MockDevice.FlushAfterLimit` | src/test.rs:2537-2574 | a flush after the limit is exhausted makes every later power loss leave the same image, that of the first n writes |
| `MockDevice.LossIsTorn` | src/test.rs:2484-2505 | after any power loss each filesystem block is stable or one of the cached writes to it |
| `Nic.ModelNic.constructor` | src/test.rs:4356-4363 | sixteen buffers, armed and empty, and the next frame is number 1 |
| `Nic.ModelNic.Arrive` | src/test.rs:4368-4378 | fills the first empty buffer with the next id, or says that none is empty; ids wrap at 64 bits |
| `Nic.ModelNic.CanReceive` | src/test.rs:4381-4385 | true exactly when some buffer holds a frame |
| `Nic.ModelNic.Receive` | src/test.rs:4389-4404 | takes the smallest waiting id out of its buffer, or says that none waits |
| `Nic.ModelNic.Recycle` | src/test.rs:4408-4415 | re-arms exactly a buffer in flight |
| `Nic.Drain` | src/test.rs:4454-4459 | draining hands out every frame that entered, in order |
| `Nic.RunsKeep` | src/test.rs:4418-4478 | for every interleaving: delivered is a prefix of arrived, the ring holds exactly the rest, each in one buffer, and the consumer exactly the buffers in flight |
| `Nic.RunsKeepIff` | src/test.rs:4342-4378 | that holds exactly when no arriving frame is numbered like the sentinel |
| `Nic.AnswersInv` | src/test.rs:4434-4452 | what each answer means: oldest frame, nothing waiting, held or not held, full means every buffer is waiting or held |
| `Nic.SentinelFrameIsLost` | src/test.rs:4368-4378 | a frame numbered like the sentinel counts as arrived and sits in a buffer that looks empty |
| `Artifacts.Store.Overwrite` | tools/e2e.py:293-293 | a copy: a kill on the way leaves any contents of that one file |
| `Artifacts.Store.RemoveBackups` | tools/e2e.py:298-298 | removes backups and manifest in any order, touches no other file, whatever the kill point |
| `Artifacts.Store.WriteManifest` | tools/e2e.py:312-313 | a kill on the way leaves a manifest that does not parse |
| `Artifacts.Artifacts.HealStale` | tools/e2e.py:283-298 | keeps the file restorable at every kill point; completed, every listed file has its saved bytes, no backup and no manifest is left and no other file changed; without a readable manifest nothing changes |
| `Artifacts.Artifacts.Backup` | tools/e2e.py:300-314 | the manifest comes last: at every kill point the original is in place and the tree untouched; completed, exactly the paths that exist are listed and saved |
| `Artifacts.Artifacts.Restore` | tools/e2e.py:318-330 | keeps the file restorable at every kill point; completed, every saved file is back, no backup and no manifest is left and no other file changed; before a backup it does nothing |
| `Artifacts.Harness` | tools/e2e.py:1722-1745 | one whole run, failing or killed anywhere, keeps the file restorable |
| `Artifacts.SerialRuns` | tools/e2e.py:264-270 | after any serial runs killed anywhere, the next completed heal leaves the staged ELF with its original bytes |
| `BootTag.Find` | tools/e2e.py:545-545 | the first occurrence from the start position on, or none |
| `BootTag.FindAll` | tools/e2e.py:543-549 | every occurrence of the placeholder, ascending, each once |
| `BootTag.NoOverlap` | tools/e2e.py:168-170 | two occurrences never overlap |
| `BootTag.LoadRanges` | tools/e2e.py:504-521 | the ranges of the PT_LOAD headers in table order, or the first header error, each exactly when the bytes call for it |
| `BootTag.Read8` | tools/e2e.py:504-521 | eight bytes read as a number give the sum of the bytes, each weighted by 256 to its position |
| `BootTag.LaidOutRead` | tools/e2e.py:504-521 | an ELF image with any program headers at the offsets of the format is read back: table, and the ranges of the headers of type 1, in order |
| `BootTag.LaidOutLoaded` | tools/e2e.py:557-558 | in such an image a placeholder counts as loaded exactly when the file bytes of one such header hold all of it |
| `BootTag.InSomeMapped` | tools/e2e.py:512-521 | a window lies in one of the ranges exactly when some PT_LOAD header maps all of it |
| `BootTag.PatchBootTag` | tools/e2e.py:532-582 | patches exactly when there is one loaded placeholder and the tag is another 28 bytes; otherwise the file is unchanged and the reason is right, the number of loaded placeholders included |
| `BootTag.Checked` | tools/e2e.py:567-576 | the audit refuses exactly the tag that equals the placeholder |
| `BootTag.SplicedFrame` | tools/e2e.py:566-569 | same length, only the window differs, and it holds the tag |
| `BootTag.RemovesOneIff` | tools/e2e.py:532-540 | exactly that occurrence goes and none appears, if and only if the tag is no placeholder and forms none with the bytes next to the window |
| `BootTag.StraddlesIff` | tools/e2e.py:566-569 | such a formation is exactly an occurrence in the patched image that begins inside the window or runs into it |
| `BootTag.HarnessTagRemovesOne` | tools/e2e.py:524-529 | a tag the harness makes meets that condition unless it is the placeholder itself, which is exactly the tag of twelve zero digits and process id 0 modulo 10000 |
| `BootTag.TagText` | tools/e2e.py:524-529 | a tag is 28 bytes: the prefix, twelve digits of the hash, and the process id modulo 10000 in decimal |
| `BootTag.OddTagCreatesOne` | tools/e2e.py:566-567 | some other tag of the right length creates a new placeholder |
| `Der.ReadTlv` | tools/gen_ca_bundle.py:98-113 | computes the reading function; an index error exactly when the buffer ends inside the element, a length error exactly on an indefinite or longer length |
| `Der.ReadAt` | tools/gen_ca_bundle.py:98-113 | a successful read advances by at least two bytes and stays in the buffer |
| `Der.ReadEncoded` | tools/gen_ca_bundle.py:98-113 | an element in short form or in long form with up to four length octets is read back, whatever surrounds it |
| `Der.ReadDecodes` | tools/gen_ca_bundle.py:98-113 | whatever is read is such an encoding of its tag and content |
| `Der.LengthRead` | tools/gen_ca_bundle.py:98-113 | the length octets that are understood are exactly the short form and the long forms of one to four octets, most significant first |
| `Der.WalkName` | tools/gen_ca_bundle.py:116-136 | the nested loops compute the walk, errors included |
| `Der.NameEncoded` | tools/gen_ca_bundle.py:116-136 | walking any encoding of a Name gives its pairs in order |
| `Der.NameDecodes` | tools/gen_ca_bundle.py:116-136 | a successful walk means that sets tile the content and attributes tile each set |
| `Der.WalkIff` | tools/gen_ca_bundle.py:116-136 | the walk gives these pairs if and only if the content encodes a Name with these pairs |
| `Der.CertNames` | tools/gen_ca_bundle.py:139-161 | computes the issuer and subject walk of a certificate, errors included |
| `Der.CertEncoded` | tools/gen_ca_bundle.py:139-161 | from any encoding of a certificate, with or without a version element, the pairs of its issuer and its subject |
| `Der.CertDecodes` | tools/gen_ca_bundle.py:139-161 | whatever certificate is accepted is such an encoding, with these names |
| `Der.CertIff` | tools/gen_ca_bundle.py:139-161 | the two Names are returned if and only if the input starts with the encoding of a certificate that holds them |
| `Der.NameOnTheWire` | tools/gen_ca_bundle.py:116-136 | the bytes of a Name with one attribute give its type and value |
| `Der.CertificateOnTheWire` | tools/gen_ca_bundle.py:139-161 | the bytes of a version 3 certificate give the issuer first and the subject second |
| `Flatten.FlattenWithLines` | tools/check_agents_md.py:341-364 | the words joined by single spaces, and a map from every flat character to its position and line; stated without words too: only white space is left out, and a space stands exactly where something was |
| `Flatten.LineOfCounts` | tools/check_agents_md.py:337-338 | the line of a position is one more than the number of newlines before it |
| `Flatten.LinesAscend` | tools/check_agents_md.py:346-347 | the line map never goes back |
| `Flatten.FlattenTwice` | tools/check_agents_md.py:341-342 | flattening flat text changes nothing |
| `Flatten.LineOfMonotone` | tools/check_agents_md.py:337-338 | a later position is on the same or a later line |
| `Font.GlyphMasks` | tools/font_check.py:460-474 | every glyph is filed under its ink mask, and nothing else is |
| `Font.ScreenCell` | tools/font_check.py:477-480 | the pixels of a grid cell, each by its coordinates in the image, row by row |
| `Font.CellPixel` | tools/font_check.py:477-480 | the pixel x to the right and y below the corner of a cell is pixel 8y + x of the cell, for every cell of the grid |
| `Font.GlyphByte` | tools/font_check.py:153-159 | the asset is 95 glyphs, and byte k of glyph i is the byte that many glyphs and bytes into the data |
| `Font.LookedIff` | tools/font_check.py:499-507 | a cell is looked at exactly when its last pixel row is above the status bar, its last column in the image, and it is no overlay |
| `Font.ExplainCell` | tools/font_check.py:508-539 | a cell passes exactly when it is blank or accepted for some glyph |
| `Font.ScanScreen` | tools/font_check.py:483-558 | zero exactly when every cell above the status bar that is no overlay is explained; CellPixel, LookedIff and GlyphByte say which pixels, cells and glyphs those are |
| `Font.ExplainedSound` | tools/font_check.py:486-494 | an explained cell is blank or one asset glyph blended in a single colour |
| `Font.ShowsIff` | tools/font_check.py:102-108 | a pixel differs from the background in a channel exactly when its ink is worth half a level there |
| `Font.SeparatedIff` | tools/font_check.py:102-108 | two levels blend differently exactly when a rounding threshold lies between them |
| `Font.AcceptsIff` | tools/font_check.py:518-534 | a drawn glyph is accepted for a glyph, itself or another, if and only if that one has ink just where the drawn ink shows and no rounding threshold separates the drawn level from the recovered one |
| `Font.ExplainedIff` | tools/font_check.py:508-539 | any drawn cell is explained if and only if nothing of it shows or it passes for some glyph of the asset |
| `Font.ScreenIff` | tools/font_check.py:483-558 | a screen of drawn glyphs, each in its own colour, gets a zero if and only if each of them passes so |
| `Font.BlackDarkest` | tools/font_check.py:518-528 | on black the darkest pixel blends back from the recovered colour, whatever the colour |
| `Font.RoundNear` | tools/font_check.py:518-528 | a rounded quotient is a nearest integer, the even one on a tie |
| `Font.DarkOnLightRefused` | tools/font_check.py:518-534 | on a light background it does not |
| `Font.FullInkAccepted` | tools/font_check.py:523-534 | any colours: a glyph with a full-ink pixel whose ink shows is accepted |
| `Font.WhiteOnBlackAccepted` | tools/font_check.py:77-80 | white on black: every glyph with ink is accepted |
| `Font.VerdictMeaning` | tools/font_check.py:483-494 | what the verdict says about the whole screen, and which screens always get a zero |
| `Font.GreyRefused` | tools/font_check.py:518-534 | a glyph drawn in one colour, all its ink visible, that is refused |
| `Font.GreyScreen` | tools/font_check.py:483-558 | for every cell height a screen and an asset with such a glyph, for which the scan returns 1 |
| `FormatProbe.Probe.constructor` | src/fs/format_policy.rs:140-164 | the layout of the first block and the marker by their bytes: ext2 magic at 1024, partition signatures at 512 and 510, marker text at 0; provisional exactly when blank |
| `FormatProbe.Probe.Feed` | src/fs/format_policy.rs:176-181 | a non-zero chunk turns provisionally blank into foreign; nothing else changes |
| `FormatProbe.ProbeBootArea` | src/boot.rs:367-385 | contiguous reads from the start, each once, to the first failed or non-zero chunk or the end; blank exactly when the whole window was read as zero |
| `FormatProbe.FormatAllowed` | src/fs/format_policy.rs:209-240 | allowed exactly without a valid superblock and blank or opted in; the refusal names the layout |
| `FormatProbe.InitFs` | src/boot.rs:262-325 | formatting is reached exactly after a failed mount, without a valid superblock, on a device that opens with the marker text or whose first 1048576 bytes all read as zero; a refusal names the layout those bytes show |
| `FormatProbe.WindowBytes` | src/boot.rs:337-350 | each of the first 1048576 bytes of such a device exists and is zero |
| `FormatProbe.MarkedIff` | src/fs/format_policy.rs:140-164 | a device counts as marked exactly when it can be read and opens with the marker text |
| `FormatProbe.WindowZeroIff` | src/boot.rs:337-385 | the window reads as zero exactly when it exists, none of its reads fails and all its bytes are zero |
| `FormatProbe.WindowLayoutIff` | src/fs/format_policy.rs:140-255 | which layout the probe ends with, by the bytes of the device |
| `FormatProbe.BehindWindow` | src/boot.rs:344-349 | a device that holds data only behind the window probes as blank |
| `Provision.EnsureDir` | src/provision.rs:24-35 | exactly the missing directories on success, a leading part of them on failure; a file on the path is an error; every earlier node is preserved |
| `Provision.WithDirsExactly` | src/provision.rs:24-35 | exactly the missing prefixes are new, as directories |
| `Provision.MissingSuffix` | src/provision.rs:24-35 | the missing prefixes are the longest ones |
| `Provision.MakeAgain` | src/provision.rs:24-35 | a second call for the same path, failing or not, changes nothing |
| `Provision.WriteOnce` | src/provision.rs:37-50 | never changes an existing node; on success the new file holds exactly the data in exactly the missing directories; says whether all the data got there even when it fails |
| `Provision.PartsSplit` | src/provision.rs:41-42 | splitting at the last slash splits the parts before the last name |
| `Seeding.RunSteps` | src/provision.rs:58-80 | the steps in order to the first failure: earlier nodes untouched, the steps before done with exact contents, no file of a later step there, and whether the failed step had written all its data |
| `Seeding.Seed` | src/provision.rs:54-85 | never changes an existing node; with working lookups it is skipped if and only if the release node exists |
| `Seeding.SeedFiles` | src/provision.rs:63-71 | the steps of the configuration files name the paths of the source, the release file first |
| `Seeding.SeedDocs` | src/provision.rs:72-78 | so do those of the other files |
| `Seeding.SeedRepeatedly` | src/provision.rs:52-85 | after any number of boots everything is there if and only if the boot that made the release node met no failing step from there on, or only the last one with its data written |
| `Seeding.HalfSeeded` | src/provision.rs:63-69 | a first boot that fails behind the release file: every later boot changes nothing, and what is missing stays missing |

## Left out

- Journal.Open: a superblock whose pointers lie outside its own ring, or whose geometry is not the area's, is excluded; `open` checks neither, and no journal call persists one.
- Journal.Wal.constructor: the same superblocks are excluded.
- Journal.Wal.Commit: the error returns in the middle of a commit whose device fails are not modelled.
- Journal.Wal.Recover: neither are those of a recovery whose device fails to read or to write.
- CommitAtomicIff: a ring with a descriptor numbered ahead of the next record somewhere else than at its head, and a lap of the ring that ends before the head, are outside the equivalence. A recovery that stopped short, or a format over a used ring, can leave the former.
- TornRunsRefine: for the same reason a cut that falls on a record being written needs a tidy ring there; all other cuts, and all commits that return, are covered on every ring.
- TornHistory: the disk holds no earlier journal; a format over a used ring is covered by TornRunsRefine and ReusedRunsRefine, with their conditions.
- OrderedHistory: the same; see ReusedRunsRefine.
- RunsRefine: the same; see ReusedRunsRefine.
- ReusedRunsRefine: a cut that loses the superblock of the format before the first barrier leaves the disk of the earlier journal, if there was one; such a run is not followed further. Nor is it by TornRunsRefine.
- ReformatIff: the commits after the format return; power cuts among them are covered by TornRunsRefine and ReusedRunsRefine.
- SeedRepeatedly: lookups work, and no file of the seed is there before the first boot.
- The byte layout of superblock, descriptor and commit block, and CRC-32 itself: blocks are modelled by what they decode to.
- Overflow of 64-bit sequence numbers and of the mock's 32-bit write counter: both are unbounded in the model.
- The mock's poke, peek and trace accessors: poke writes behind the cache on purpose, so the coherence proved of the mock does not hold across it.
- SerialRuns: the linked target ELF is not covered, because it is rebuilt before it is backed up; nested staging directories, concurrent runs and failing removals are excluded.
- TreeSnapshot of the harness: it has no self-heal.
- Hash collisions between backup names, and a manifest cut short that still parses: excluded by the model of paths and manifests.
- `boot_integrity`, `rust_bytes`, `select_pinned_roots`, `find_text` and `compare_at`: they compare bytes or read fixed tables, and nothing modelled here depends on them.
- The floating-point quotient in the colour estimate is modelled as the exact rational rounded half to even; quotients of these sizes are never close enough to a tie for rounding to matter.
- Symbolic links in provisioning paths: a link counts as a node that is no directory.
- ext2, scheduler, memory management, TCP, TLS, OpenPGP, shell and the drivers: hardware state or sources that their tests only sample.
