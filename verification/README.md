# Live upgrade and device tracing: a verified model

This project models seven programs of the repository and proves what they are for.

* **Live upgrade** (`test/vm/virtio/live_update.py`). A manager moves every emulated
  NVMe and virtio-blk controller from a source process to a destination process over an
  unbounded tree of physical and virtual functions. The two processes are state
  machines (`UpgradeWorld`), every RPC is a guarded step, and a run is an RPC log.
  `UpgradeSpec` says what each operation does to the bookkeeping and the two processes;
  the class `UpgradeManager.LiveUpgradeManager` carries the operations out on mutable
  dictionaries and is proved equal to it, failures included. `UpgradeInvariant` ties the
  counters to real references; `UpgradeDisks`, `UpgradeVblk`, `UpgradeNvme` and
  `UpgradeRun` prove that every operation keeps this; `UpgradePlan` writes a run as a flat
  list of actions and `UpgradeActions` says what each does; `UpgradeTheorems`,
  `UpgradeProgress`, `UpgradeFailure`, `UpgradeOrder`, `UpgradeSnapshot` and
  `UpgradeExample` state the results. The state keeps, beside the RPC log, the bookkeeping at the moment each RPC was
  sent, so that claims about the counters can be made in the middle of any function.
* **Frame Check Sequence** (`test/ethernet/intel_set_fcs.c`). `FrameCheck` holds the bit
  loop on 32-bit words and the append; `Gf2` holds polynomials over GF(2), division by
  the generator of section 3.2.9 of IEEE 802.3 and the shift register;
  `FrameCheckTheorems` connects them.
* **BAR memory editor** (`trace/tool/pci/pci_debug.c`). `Words` holds words as bytes;
  `PciDebugSpec` is a host-free interpreter of a session on bytes; `PciDebug.Console` is
  the program on a host of either byte order; `PciDebugCommands` and `PciDebugTheorems`
  state what commands and sessions promise.
* **Squeezed memory dump** (`trace/tool/pci/pcimem.c`): `Pcimem`, on `Words`.
* **Backtrace collector** (`trace/backtrace/backtrace.c`): `Backtrace`.
* **SR-IOV rebind script** (`trace/virtio/bind_sriovpf_pci_stub.sh`): `SriovRebind`.
* **virtio status tracer** (`trace/virtio/vblk_pci_dev.bt`): `StatusTracker`.

`dafny verify dfyconfig.toml` checks the whole project.

## What is assumed

The SNAP and SPDK processes behind the RPCs are not in the repository. Their model is
kept small:

* A create RPC needs the objects it names and is refused when the object exists; a
  physical function's controller can be destroyed only when its virtual functions'
  controllers are gone, and a virtual one only with the force flag.
* An attached base controller shows the disks its target exports, and takes them away
  when it is detached. A Null or Malloc disk is created with the blocks that fit in the
  requested MiB.
* A controller created suspended with a live-update listener takes over when the other
  side has been suspended for live update, whichever of the two comes second: for
  virtio-blk the suspend is sent first (lines 73-74), for NVMe the create (lines 574-576).
  The events-only and admin-only suspends do not stop I/O.
* The RPC log holds the accepted RPCs; a refused RPC or a missing dictionary key ends
  the run, as the raised exception does. A process may refuse one RPC, at any point of the
  run, for a reason outside the model (`failsAt`).
* The source's lists have unique keys and refer to each other consistently
  (`UpgradeSnapshot.WellFormed`, `Pristine`, `Rooted`); the destination starts without
  disks, bases, namespaces and controllers, and may already have subsystems.

For the other programs: line lookups and inliner chains are given functions of a section
and an offset; the kernel behind sysfs may refuse any write and obeys
`SriovRebind.Lawful` when it accepts one; the five probes run in the order they are
written, with one clock reading per status write; BAR regions are smaller than 2 GiB.

## Where the code and its description differ

* `fill_bdev_hist` counts listed namespaces (line 195) but `cleanup_nvme_controller`
  decrements once per attachment (line 535). The two agree exactly for disks with
  `Slack` 0, which holds when every listed namespace is attached to one controller
  (`AttachedOnceIsExact`). With a namespace attached to two controllers the disk is
  deleted while one of them still uses it (`SharedDiskGoesEarly`). `DeletedExactly` says
  for every start when a Null or Malloc disk is deleted and how many references are left
  then: minus the slack. `DetachedExactly` does the same for a base, where the disk that
  runs out last has exactly that many left and the others at most that many. With slack 0
  or more on every disk of the base no reference is left (`DetachedAtLastReference`).
* A base's count includes disks nobody references, so its detach never comes then
  (`DetachedExactly`).
* The command strings of lines 338-339 are one argument each, with a trailing `;`. The
  model sends the RPCs they denote.
* `check_nvme_namespace` compares uuids only; the model does the same.
* The rebuilt size is computed in floating point and cut to whole MiB (line 247;
  `RebuiltSize`). Doubles hold every size below 2^53 bytes, and below 2^53 blocks of a
  power of two (`BlocksExact`); beyond that the copy can come out larger than the disk
  (`LongDiskGrows`).
* The memory editor's help calls big-endian the default mode; the code starts
  little-endian.
* A range that ends past the region gets the region's own length instead of being cut
  (lines 445-448 and 593-596). `SafeRanges` says exactly which ranges stay inside.

## Model

| member | source | states |
|---|---|---|
| UpgradeTheorems.NeverStuck | test/vm/virtio/live_update.py:547-635 | from every well-formed snapshot and empty destination no RPC of the run is refused, and every prefix of the log leaves a safe world |
| UpgradeTheorems.VblkHandover | test/vm/virtio/live_update.py:300-341 | after every RPC a virtio-blk controller exists somewhere, never serves on both sides, serves on neither only between its live-update suspend and the next RPC, and has left the source only when an identical copy serves |
| UpgradeTheorems.NvmeHandover | test/vm/virtio/live_update.py:547-585 | after every RPC exactly one side serves an NVMe controller, with every namespace attached; every disk is there when the destination serves (for the source see SourceKeepsDisks); a copy on the destination, passive or serving, rests on an existing subsystem and on existing namespaces with the same values |
| UpgradeTheorems.SourceKeepsDisks | test/vm/virtio/live_update.py:269-297 | while a source controller references a disk that was not counted too low, the disk is on the source |
| UpgradeTheorems.RunOrders | test/vm/virtio/live_update.py:390-635 | the RPCs about controllers that a run sends are exactly, and in this order, those that the plan of the function tree lists: for each physical function its suspends and copy, for each virtual one its suspends, copy and forced destroy, then the unforced destroy; for NVMe with every attach and detach in list order |
| UpgradeTheorems.ForcedExactly | test/vm/virtio/live_update.py:414-416 | a virtio-blk controller is destroyed with force if and only if it belongs to a virtual function of the tree |
| UpgradePlan.RunIsPlan | test/vm/virtio/live_update.py:390-635 | from any state and for any tree a run is its plan, a flat list of actions, carried out up to the first that fails |
| UpgradePlan.ControllersInOrder | test/vm/virtio/live_update.py:390-635 | a run that fails midway has sent exactly the RPCs about controllers that its plan lists before the action that failed |
| UpgradeActions.DiskAsked | test/vm/virtio/live_update.py:217-267 | from any state: which RPC asking for a disk sends, with which arguments, when it ends the run, and that only the marks of the disk and its base change |
| UpgradeActions.DiskLost | test/vm/virtio/live_update.py:282-297 | from any state: a release always takes one from the count; which removal is sent when the count runs out, when it ends the run, and the books afterwards |
| UpgradeActions.SubsysAsked | test/vm/virtio/live_update.py:559-564 | from any state: a subsystem is created when it was not asked for before and the destination does not have it, and when asking for it ends the run |
| UpgradeTheorems.FinalVblk | test/vm/virtio/live_update.py:620-625 | the destination ends with exactly one serving copy per in-use virtio-blk function, configuration and disk included; the source keeps none of them |
| UpgradeTheorems.FinalNvme | test/vm/virtio/live_update.py:630-635 | the destination ends with exactly one serving copy per in-use NVMe function, with the full set of attached namespaces; the subsystem of each, every attached namespace and every disk under it exist there, the subsystem as the table has it unless it was there before; the source keeps none of the controllers |
| UpgradeTheorems.AlwaysFounded | test/vm/virtio/live_update.py:559-580 | after every RPC every controller, namespace and subsystem of the destination rests on objects that exist there |
| UpgradeTheorems.FinalBooks | test/vm/virtio/live_update.py:190-198 | at the end a disk's count is its live references plus its slack; a disk marked created exists on the destination, and a disk there equals the rebuilt original |
| UpgradeTheorems.FinalBase | test/vm/virtio/live_update.py:224-242 | at the end a base is on the destination if and only if it is marked created, under the transport id it has on the source |
| UpgradeTheorems.FinalNamespace | test/vm/virtio/live_update.py:566-570 | at the end every namespace of the destination is the source's, on an existing disk and subsystem |
| UpgradeTheorems.RebuiltSize | test/vm/virtio/live_update.py:244-265 | for every size, rounding included, exactly when the rebuilt disk has the original's block count; when doubles hold the size, if and only if it is whole MiB, and otherwise short by less than a MiB when blocks divide a MiB |
| UpgradeTheorems.BlocksExact | test/vm/virtio/live_update.py:247 | every size of less than 2^53 blocks of a power of two survives the floating-point division |
| UpgradeTheorems.SpacingIs | test/vm/virtio/live_update.py:247 | the spacing of doubles: sizes below 2^53 are exact, and larger ones count between 2^52 and 2^53 units |
| UpgradeTheorems.TieToEven | test/vm/virtio/live_update.py:247 | a size halfway between two doubles is rounded to the one with the even count |
| UpgradeExample.LongDiskGrows | test/vm/virtio/live_update.py:247 | a concrete size that doubles cannot hold, for which the rebuilt disk has a block more than the original |
| UpgradeTheorems.CreatedOnce | test/vm/virtio/live_update.py:559-570 | no base, disk, subsystem, namespace, uuid or controller is created twice in a run |
| UpgradeTheorems.DeletedExactly | test/vm/virtio/live_update.py:282-297 | a Null or Malloc disk is deleted at most once, and if and only if it was counted and not counted too often; at that moment exactly the uncounted references remain |
| UpgradeTheorems.DeletedAtLastReference | test/vm/virtio/live_update.py:282-297 | a disk is deleted with no reference left if and only if it had one and all were counted |
| UpgradeTheorems.DetachedExactly | test/vm/virtio/live_update.py:287-291 | a base is detached at most once, only when the counts of all its disks have run out, and if and only if every disk on it was counted and not too often; at that moment each disk on it has at most its uncounted references left, and one of them exactly those |
| UpgradeTheorems.DetachedAtLastReference | test/vm/virtio/live_update.py:282-291 | a disk not counted too low has no reference left when its base is detached; if no disk of a base was counted too low, the base is detached if and only if each of its disks had a reference and all were counted |
| UpgradeTheorems.EndCounts | test/vm/virtio/live_update.py:282-283 | when every controller has been moved, each disk's count is its slack |
| UpgradeTheorems.DiskUntilDeleted | test/vm/virtio/live_update.py:293-297 | after every RPC a Null or Malloc disk is on the source if and only if no delete of it has been sent |
| UpgradeTheorems.BaseUntilDetached | test/vm/virtio/live_update.py:287-291 | after every RPC a base is on the source if and only if no detach of it has been sent |
| UpgradeProgress.DiskAtEveryRpc | test/vm/virtio/live_update.py:269-297 | whenever any RPC of the run is sent, in the middle of any function: each disk's count is its live source references plus its slack, never negative unless counted too low; a disk that has not run out is on the source; created means on the destination, and for NVMe disks that the base is attached |
| UpgradeProgress.BaseAtEveryRpc | test/vm/virtio/live_update.py:287-291 | at those moments each base's count is the number of its disks that have not run out, the base is on the source as long as one is left, and on the destination if and only if marked created |
| UpgradeProgress.DiskPartway | test/vm/virtio/live_update.py:620-635 | the same for each disk after any number of physical functions |
| UpgradeProgress.BasePartway | test/vm/virtio/live_update.py:620-635 | the same for each base, which is then on the source exactly as long as a disk is left |
| UpgradeProgress.PassesThrough | test/vm/virtio/live_update.py:620-635 | the whole run passes through those states |
| UpgradeFailure.RefusedRun | test/vm/virtio/live_update.py:54-61 | for every k, a run whose k-th RPC is refused from outside stops in exactly the state in which the undisturbed run sends it, with safe processes and right books; a later refusal changes nothing |
| UpgradeOrder.RunOrderly | test/vm/virtio/live_update.py:596-635 | in every run, also one that fails midway, from any state: events are off right before the live-update suspend, the passive copy comes right after it, the NVMe copy right after the admin suspend, a removal right after a dropped reference, creations go to the destination with the values of the tables, and removals to the source |
| UpgradeOrder.SnapshotOrderly | test/vm/virtio/live_update.py:78-92 | the same for every start from what a source reports, well formed or not, and any outside refusal |
| UpgradeSnapshot.LaunchOf | test/vm/virtio/live_update.py:78-92 | every well-formed snapshot of a pristine world gives a start from which all theorems apply |
| UpgradeSnapshot.SlackIs | test/vm/virtio/live_update.py:190-198 | a disk's slack is its listed namespaces less its attached ones |
| UpgradeSnapshot.AttachedOnceIsExact | test/vm/virtio/live_update.py:193-195 | slack is 0 when every listed namespace is attached to exactly one controller |
| UpgradeSnapshot.BaseUsesCounts | test/vm/virtio/live_update.py:114-119 | with unique transport ids the start-up loop counts the disks of each base |
| UpgradeSnapshot.LastBdev | test/vm/virtio/live_update.py:111-123 | with repeated names the last listed disk counts, with its base if it is an NVMe disk, and nothing created or counted yet; NVMe disks without a base controller are passed over |
| UpgradeSnapshot.LastVblk | test/vm/virtio/live_update.py:161 | with repeated ids the last listed virtio-blk controller counts |
| UpgradeSnapshot.LastNvme | test/vm/virtio/live_update.py:162 | the same for NVMe controllers |
| UpgradeSnapshot.LastSubsys | test/vm/virtio/live_update.py:185 | the same for subsystems |
| UpgradeSnapshot.LastBase | test/vm/virtio/live_update.py:114-119 | the base of a disk is the last base controller with its transport id, if there is one |
| UpgradeSnapshot.ReadyBaseOf | test/vm/virtio/live_update.py:111-119 | each base's count is the number of disks on it, and its target exports exactly those |
| UpgradeExample.SharedDiskGoesEarly | test/vm/virtio/live_update.py:533-535 | a concrete well-formed snapshot, with one namespace attached to two controllers, on which the disk is deleted while a controller uses it |
| UpgradeDisks.CreateBdevWorks | test/vm/virtio/live_update.py:217-267 | creating a disk keeps both books, sends at most one RPC and leaves the disk on the destination |
| UpgradeDisks.DestroyBdevWorks | test/vm/virtio/live_update.py:282-297 | after a dropped reference, releasing a disk restores every count and removes the disk or base exactly when its count has run out |
| UpgradeVblk.MoveVblkWorks | test/vm/virtio/live_update.py:405-411 | moving a virtio-blk controller hands it over and keeps every invariant after each RPC |
| UpgradeVblk.DropVblkWorks | test/vm/virtio/live_update.py:363-388 | destroying a handed-over controller on the source keeps every invariant |
| UpgradeNvme.MoveNvmeWorks | test/vm/virtio/live_update.py:556-576 | moving an NVMe controller with its subsystem, disks and namespaces hands it over and keeps every invariant |
| UpgradeNvme.DropNvmeWorks | test/vm/virtio/live_update.py:530-545 | detaching the namespaces one by one and destroying the controller keeps every invariant |
| UpgradeRun.RunWorks | test/vm/virtio/live_update.py:615-635 | the whole run goes through and moves exactly the controllers of the two trees |
| UpgradeManager.GetBdevInfo | test/vm/virtio/live_update.py:111-123 | the dictionaries built by the nested loops |
| UpgradeManager.FillBdevHist | test/vm/virtio/live_update.py:190-198 | each disk's count is its listed namespaces plus its virtio-blk controllers |
| UpgradeManager.LiveUpgradeManager.constructor | test/vm/virtio/live_update.py:78-92 | the fields hold exactly the initial state of the snapshot |
| UpgradeManager.LiveUpgradeManager.SendRpc | test/vm/virtio/live_update.py:41-61 | an enabled RPC that is not refused from outside takes effect and is logged with its moment, any other ends the run |
| UpgradeManager.LiveUpgradeManager.CreateBdev | test/vm/virtio/live_update.py:201-267 | refines the specification of disk creation, failures included |
| UpgradeManager.LiveUpgradeManager.DestroyBdev | test/vm/virtio/live_update.py:269-297 | refines the specification of the two-level release |
| UpgradeManager.LiveUpgradeManager.CleanupRestoreVblkController | test/vm/virtio/live_update.py:300-341 | suspend on the source, then create on the destination |
| UpgradeManager.LiveUpgradeManager.DestroyVblkCtrl | test/vm/virtio/live_update.py:363-388 | destroy the controller, then release its disk |
| UpgradeManager.LiveUpgradeManager.LiveUpdateVblkFunc | test/vm/virtio/live_update.py:390-416 | refines the move of one virtio-blk function |
| UpgradeManager.LiveUpgradeManager.CreateNvmeSubsys | test/vm/virtio/live_update.py:559-564 | creates the subsystem unless the history or the destination has it |
| UpgradeManager.LiveUpgradeManager.CheckNvmeNamespace | test/vm/virtio/live_update.py:462-467 | true if and only if the destination has a namespace with this uuid |
| UpgradeManager.LiveUpgradeManager.CreateNvmeNamespaces | test/vm/virtio/live_update.py:566-570 | every namespace's disk, then the namespace, in order |
| UpgradeManager.LiveUpgradeManager.CreatePassiveNvmeController | test/vm/virtio/live_update.py:488-514 | the passive copy, then every namespace attached, in order |
| UpgradeManager.LiveUpgradeManager.CleanupNvmeController | test/vm/virtio/live_update.py:530-545 | detach and release each namespace in order, then destroy the controller |
| UpgradeManager.LiveUpgradeManager.LiveUpdateNvmeFunc | test/vm/virtio/live_update.py:547-580 | refines the move of one NVMe function |
| UpgradeManager.LiveUpgradeManager.LiveUpgrade | test/vm/virtio/live_update.py:617-635 | the nested loops refine the specification of the whole run |
| UpgradeManager.RunUpgrade | test/vm/virtio/live_update.py:615-635 | from a pristine world the program succeeds if and only if no RPC it sends is refused from outside; then it ends in the state of the theorems, and otherwise in the state in which the refused RPC was sent, with right books; its log replays to its world |
| FrameCheckTheorems.RegisterIsRemainder | test/ethernet/intel_set_fcs.c:18-31 | for every message the register is the remainder, and no other word is, of the preset, bit-reflected message polynomial divided by the generator |
| FrameCheckTheorems.FcsOfSum | test/ethernet/intel_set_fcs.c:18-31 | the FCS of the xor of three messages of one length is the xor of their FCSs |
| FrameCheckTheorems.Undetected | test/ethernet/intel_set_fcs.c:18-31 | two messages of one length have the same FCS if and only if their difference is a multiple of the generator |
| FrameCheckTheorems.BurstDetected | test/ethernet/intel_set_fcs.c:18-31 | messages that differ within at most 32 consecutive bits, at any bit position, have different FCSs |
| FrameCheckTheorems.ByteBurstDetected | test/ethernet/intel_set_fcs.c:20-30 | messages that differ within at most four consecutive bytes have different FCSs |
| FrameCheckTheorems.ResidueConstant | test/ethernet/intel_set_fcs.c:55-57 | a message followed by its own FCS checks to 0x2144DF1C |
| FrameCheckTheorems.ReceiverCheck | test/ethernet/intel_set_fcs.c:55-57 | any four trailing bytes check to that constant if and only if they are the FCS of the rest |
| FrameCheck.RegisterFeeds | test/ethernet/intel_set_fcs.c:20-28 | the word register, read lowest bit first, is the shift register fed with the message bits |
| FrameCheck.CalculateFcs | test/ethernet/intel_set_fcs.c:18-31 | the loops over a buffer compute the FCS of its first bytes |
| FrameCheck.AppendFcs | test/ethernet/intel_set_fcs.c:56-57 | the four bytes after the message become its FCS in the byte order of the host, and no other byte changes |
| FrameCheckTheorems.AppendedFrame | test/ethernet/intel_set_fcs.c:55-57 | the appended frame passes the check always on a little-endian host, and on a big-endian one if and only if the FCS reads the same both ways |
| Gf2.RegisterDivides | test/ethernet/intel_set_fcs.c:22-28 | the shift register performs long division by the generator |
| Gf2.DivisionUnique | test/ethernet/intel_set_fcs.c:22-28 | quotient and remainder are determined by the dividend |
| Gf2.FeedIsRemainder | test/ethernet/intel_set_fcs.c:19-29 | a register value is the remainder if and only if feeding the message leaves it |
| Gf2.FeedInjective | test/ethernet/intel_set_fcs.c:22-28 | different registers stay different under the same bits |
| Gf2.BurstInjective | test/ethernet/intel_set_fcs.c:20-28 | two bursts of at most 32 bits that leave the same register are equal |
| PciDebugCommands.ChangeDoes | trace/tool/pci/pci_debug.c:497-552 | with no width or 32 four bytes are stored, with 16 two, with 8 one: the low bytes of the value, lowest first in the little mode and highest first in the big one; nothing else changes |
| PciDebugCommands.FillDoes | trace/tool/pci/pci_debug.c:554-629 | the whole words of the range hold val, val + inc, val + 2 * inc and so on, with a step of 1 when none is given; nothing else changes |
| PciDebugCommands.DisplayDoes | trace/tool/pci/pci_debug.c:413-495 | every word that starts in the range is listed, read in the mode, with its address in front exactly at every sixteenth byte of the range |
| PciDebugCommands.Refused | trace/tool/pci/pci_debug.c:440-448 | an address past the end is an error, and so is any width other than 8, 16 and 32; neither has an effect |
| PciDebugCommands.ModeDoes | trace/tool/pci/pci_debug.c:631-664 | b and l set the mode, any other letter is a syntax error, and the mode can be shown |
| PciDebugCommands.FilePlayed | trace/tool/pci/pci_debug.c:289-309 | a command file is played if and only if its first line names this region, as an unsigned number; a line that does not parse counts as -1 |
| PciDebugCommands.SessionOrder | trace/tool/pci/pci_debug.c:317-350 | a session is the commands of the file and then, unless it ends with the file, what is typed up to the first quit |
| PciDebugTheorems.FillThenDisplay | trace/tool/pci/pci_debug.c:554-629 | listing the words of a fill shows (val + i * inc) mod 2^width for each i in the mode of the fill, and those values byte-swapped in the other mode |
| PciDebugTheorems.FilledAt | trace/tool/pci/pci_debug.c:597-622 | every byte of the region after a fill in closed form; bytes outside the whole words are unchanged |
| PciDebugTheorems.FillByHand | trace/tool/pci/pci_debug.c:554-629 | a fill leaves the region as the corresponding run of change commands does |
| PciDebugTheorems.LastStoreWins | trace/tool/pci/pci_debug.c:383-411 | after any session every byte is what the last command storing there put in it, in the mode of that moment, or else unchanged |
| PciDebugTheorems.LastModeWins | trace/tool/pci/pci_debug.c:631-664 | the endian mode is the last one set |
| PciDebugTheorems.WriteBack | trace/tool/pci/pci_debug.c:497-552 | changing a word to the value just listed for it changes no byte |
| PciDebugTheorems.SafeRanges | trace/tool/pci/pci_debug.c:440-448 | exactly which fills and listings stay inside the region, for every address, length and width |
| PciDebugTheorems.TwoHosts | trace/tool/pci/pci_debug.c:317-350 | one session, command file included, on hosts of opposite byte order leaves the same bytes and mode and gives the same replies |
| Words.DecodeEncode | trace/tool/pci/pci_debug.c:683-761 | a stored word is read back in the same mode, and byte-swapped in the other |
| Words.EncodeDecode | trace/tool/pci/pci_debug.c:683-761 | storing what was read gives the bytes back |
| PciDebug.SwapIsBswap32 | trace/tool/pci/pci_debug.c:723-761 | the 32-bit swap reverses the bytes of a word |
| PciDebug.SwapIsBswap16 | trace/tool/pci/pci_debug.c:683-721 | the 16-bit swap reverses the bytes of a word |
| PciDebug.Console.WriteLe16 | trace/tool/pci/pci_debug.c:683-691 | stores low byte first on either host |
| PciDebug.Console.ReadLe16 | trace/tool/pci/pci_debug.c:693-701 | reads low byte first on either host |
| PciDebug.Console.WriteBe16 | trace/tool/pci/pci_debug.c:703-711 | stores high byte first on either host |
| PciDebug.Console.ReadBe16 | trace/tool/pci/pci_debug.c:713-721 | reads high byte first on either host |
| PciDebug.Console.WriteLe32 | trace/tool/pci/pci_debug.c:723-731 | stores low byte first on either host |
| PciDebug.Console.ReadLe32 | trace/tool/pci/pci_debug.c:733-741 | reads low byte first on either host |
| PciDebug.Console.WriteBe32 | trace/tool/pci/pci_debug.c:743-751 | stores high byte first on either host |
| PciDebug.Console.ReadBe32 | trace/tool/pci/pci_debug.c:753-761 | reads high byte first on either host |
| PciDebug.Console.DisplayMem | trace/tool/pci/pci_debug.c:413-495 | the listing of the host-free interpreter: row addresses every 16 bytes, values in the mode, and both errors |
| PciDebug.Console.ChangeMem | trace/tool/pci/pci_debug.c:497-552 | the interpreter's change of one word, and both errors without effect |
| PciDebug.Console.FillMem | trace/tool/pci/pci_debug.c:554-629 | the interpreter's fill, with the default width and increment, and both errors without effect |
| PciDebug.Console.ChangeEndian | trace/tool/pci/pci_debug.c:631-664 | the mode changes on b and l only |
| PciDebug.Console.ProcessCommand | trace/tool/pci/pci_debug.c:383-411 | each command does what the interpreter says; only quit returns -1 |
| PciDebug.Console.UseCmdFile | trace/tool/pci/pci_debug.c:270-315 | a command file whose first line names this region is played to its end, past any quit; any other is not played |
| PciDebug.Console.Prompt | trace/tool/pci/pci_debug.c:326-349 | what is typed is played up to the first quit |
| PciDebug.Console.ParseCommand | trace/tool/pci/pci_debug.c:317-350 | a session is the command file, then the prompt unless the tool quits after the file |
| PciDebugSpec.PlayConcat | trace/tool/pci/pci_debug.c:317-350 | a session in parts leaves the same bytes, mode and replies as in one go |
| Pcimem.Lossless | trace/tool/pci/pcimem.c:120-130 | the full item sequence is recovered from the printed lines |
| Pcimem.SqueezeIsByRuns | trace/tool/pci/pcimem.c:120-130 | the listing has the first item of every run of equal items, and dots after it if and only if the run is longer than one |
| Pcimem.BaseIsPageStart | trace/tool/pci/pcimem.c:87 | masking with a power-of-two page size gives the start of the target's page |
| Pcimem.AccessInWindow | trace/tool/pci/pcimem.c:87-101 | every item lies inside the mapping |
| Pcimem.ItemsAre | trace/tool/pci/pcimem.c:101-115 | every item is the number whose bytes, in the order of the host, are at its place in the mapping |
| Pcimem.ValuesListed | trace/tool/pci/pcimem.c:121-123 | a value is listed if and only if some item has it and the item before differs, with the low 32 bits of the address of that item |
| Pcimem.Dump | trace/tool/pci/pcimem.c:99-132 | the loop with its previous value and flag prints the squeezed listing of the mapped items |
| Pcimem.Run | trace/tool/pci/pcimem.c:87-159 | the listing recovers to the items; without data nothing is written; with data the last item alone becomes the truncated data and is read back, and a dump taken then shows it and the other items unchanged; without any item the write is undefined |
| Pcimem.DumpAfterWrite | trace/tool/pci/pcimem.c:136-157 | a dump after the last item was written shows the new last item and the others as they were |
| Backtrace.Table.FindAddressInSection | trace/backtrace/backtrace.c:127-174 | the first allocated section covering the address adds its own line and inliner chain, cut to the room left; any other section adds nothing |
| Backtrace.Table.GetLineInfo | trace/backtrace/backtrace.c:176-189 | one address adds the lines of its first covering section, cut to the room left |
| Backtrace.FirstSection | trace/backtrace/backtrace.c:134-150 | the lines of an object are those of its first covering section, or none if there is none |
| Backtrace.Table.Collect | trace/backtrace/backtrace.c:242-271 | the table is the first 64 lines of the stack, frame after frame: for a frame whose address lies in an allocated section the line of the byte before the address and then the inliners of the address, with "???" for a missing name; nothing for any other frame |
| Backtrace.StackStands | trace/backtrace/backtrace.c:127-174 | where the lines of every frame stand, and which section, offset and names they have |
| Backtrace.Table.Next | trace/backtrace/backtrace.c:273-288 | hands out the first remaining entry that is not excluded and leaves the others |
| Backtrace.HandedOut | trace/backtrace/backtrace.c:273-288 | every entry from strip on that is not excluded is handed out, at the place given by the ones before it |
| Backtrace.NothingElse | trace/backtrace/backtrace.c:273-288 | nothing else is handed out |
| Backtrace.Table.Destroy | trace/backtrace/backtrace.c:290-302 | frees every string and the table once, no block twice, and leaves the heap as it was before the table |
| Backtrace.PrintBacktrace | trace/backtrace/backtrace.c:304-324 | prints the entries that are handed out, numbered from 0, and restores the heap, also when the table cannot be allocated |
| SriovRebind.Script.Configure | trace/virtio/bind_sriovpf_pci_stub.sh:82-193 | for any kernel: no non-zero VF count over a non-zero one, PF driver changed only without VFs, VFs enabled only with autoprobe off; success means driver, count, autoprobe and unbound VFs as requested; with an obedient kernel it succeeds if and only if the VFs it keeps are unbound and the request is possible |
| SriovRebind.Script.Rebind | trace/virtio/bind_sriovpf_pci_stub.sh:126-149 | the driver change keeps the log safe and within the plan at every point where it can stop, and clears the override |
| SriovRebind.Script.Resize | trace/virtio/bind_sriovpf_pci_stub.sh:151-161 | VFs are disabled before another number is enabled |
| SriovRebind.Script.Check | trace/virtio/bind_sriovpf_pci_stub.sh:163-193 | passes if and only if count, autoprobe and links are as requested and no VF is bound |
| SriovRebind.PlanIs | trace/virtio/bind_sriovpf_pci_stub.sh:126-161 | every write of a run, case by case, for a PF with pci-pf-stub, with another driver and without one |
| SriovRebind.PlanReaches | trace/virtio/bind_sriovpf_pci_stub.sh:126-161 | from any state the planned writes, carried out in order, are safe one by one and end with the target driver, the requested count and autoprobe off; VFs they enable are unbound |
| SriovRebind.RebindingReaches | trace/virtio/bind_sriovpf_pci_stub.sh:126-149 | the driver change removes all VFs, ends with the target driver and clears the override |
| SriovRebind.ConfigureTwice | trace/virtio/bind_sriovpf_pci_stub.sh:120-193 | a run after a successful one makes no driver or count write, and leaves everything as it was |
| SriovRebind.ConfigureObedient | trace/virtio/bind_sriovpf_pci_stub.sh:82-193 | with a kernel that does what it is asked the script succeeds if and only if the request is possible and the VFs it would keep are unbound |
| StatusTracker.Tracker.SetStatus | trace/virtio/vblk_pci_dev.bt:189-245 | the probes report exactly the reset, or the bits written for the first time since the device's last reset, in probe order with the time since it |
| StatusTracker.Watch | trace/virtio/vblk_pci_dev.bt:189-245 | the same at every write of any interleaving of devices |
| StatusTracker.ExpectedTells | trace/virtio/vblk_pci_dev.bt:189-245 | in literal bits: a write of 0 reports the reset alone; any other reports acknowledge, driver, features-ok and driver-ok exactly when bit 1, 2, 8 or 4 is set in it and in no write to the device since its last reset, in this order, with the milliseconds since the write that was that reset |
| StatusTracker.SeenNext | trace/virtio/vblk_pci_dev.bt:189-203 | how a write changes which bits have been seen |
| StatusTracker.ReportedOnce | trace/virtio/vblk_pci_dev.bt:202-245 | since a reset every bit written has been reported, no other bit, and none twice |
| StatusTracker.Unaffected | trace/virtio/vblk_pci_dev.bt:202-245 | the reports of a write depend on the earlier writes to its own device only |
| StatusTracker.HandshakeOrder | trace/virtio/vblk_pci_dev.bt:202-245 | if no status has a bit without the ones before it in the order of section 3.1.1 of VIRTIO 1.1, the milestones since a reset are a prefix of that order |

## Left out

- Sockets, JSON, subprocesses, printing and argument parsing of the live upgrade: every RPC is an abstract step.
- What RPCs do beyond existence, attachment and who serves the host: queues in flight, PCI configuration and time-outs are not modelled.
- The version check of lines 587-593 and functions other than NVMe and virtio-blk.
- Building and sending the Ethernet frame.
- Parsing of command lines, opening and mapping of PCI resources, and the offset of small regions: the memory editor starts from parsed commands over the region's bytes.
- Ranges that leave the region: `InRange` excludes them, and SafeRanges says which they are.
- The three copies of each loop of the memory editor, one per width, are one loop whose body switches on the width.
- Number parsing, the verbose listing and the signal handling of the memory dump.
- Run: windows of 2 GiB and more are excluded, because the source keeps their size in an int; a negative item count is taken as 0.
- Finding the object of an address, opening it and reading its symbols in the backtrace: a frame comes with its object or without one. Names that a failed line lookup leaves unset are None.
- Alloc: strdup always succeeds, and block numbers are never used again.
- Argument and permission checks of the rebind script, and the loading of the target driver (lines 39-80 and 91-98). No other program changes sysfs while it runs.
- The probes of the tracer other than the five on status writes.
- `trace/virtio/tbaa.c`, `trace/set_cmplto.sh`, `trace/nvme/nvme_queue.bt`, `test/vm/virtio/gen_vm_vfs.sh` and all configuration files: they add nothing to the properties above.
