/**
 The world a live upgrade acts on: a source and a destination SNAP process, the
 RPCs they accept, the guard of each RPC and its effect.

 Only what the upgrade relies on is modelled: which disks, base controllers,
 subsystems, namespaces and controllers a process holds, what each controller is
 attached to, and whether it is the one that serves the host.
 */
module UpgradeWorld {
  import opened Common

  type Name = string
  type Id = string

  const MIB: nat := 1024 * 1024

  // ----- What the source process reports -----

  datatype Trid = Trid(trtype: string, adrfam: string, traddr: string, trsvcid: string, subnqn: string)

  datatype Product = NvmeDisk(trid: Trid) | NullDisk | MallocDisk | OtherDisk(kind: string)

  datatype Bdev = Bdev(name: Name, product: Product, blockSize: nat, numBlocks: nat, uuid: string)

  datatype BaseCtrl = BaseCtrl(name: Name, trid: Trid)

  datatype VblkFlags = VblkFlags(
    forceInOrder: bool, adminQ: bool, dbgLocalOptimized: bool, indirectDesc: bool, readOnly: bool)

  // A virtio-blk controller; a controller without a disk is the source's 'none'.
  datatype VblkCtrl = VblkCtrl(
    id: Id, vhca: nat, bdev: Option<Name>, numQueues: nat, queueSize: nat,
    segMax: nat, sizeMax: nat, vblkId: string, flags: VblkFlags)

  datatype Ns = Ns(nsid: nat, bdev: Name, uuid: string)

  datatype NvmeConfig = NvmeConfig(id: Id, vhca: nat, nqn: string, mdts: nat, numQueues: nat)

  datatype NvmeCtrl = NvmeCtrl(cfg: NvmeConfig, namespaces: seq<Ns>)

  datatype Subsys = Subsys(nqn: string, mn: string, sn: string, mnan: nat, nn: nat)

  // ----- What a process holds -----

  // Serving: owns the host's I/O.  Stopped: has handed it over.
  // Suspended: created passive, waiting for the peer to hand over if it listens.
  datatype Phase = Serving | Stopped | Suspended(listening: bool)

  datatype VblkDev = VblkDev(cfg: VblkCtrl, phase: Phase)

  datatype NvmeDev = NvmeDev(cfg: NvmeConfig, attached: map<nat, Ns>, phase: Phase)

  datatype NsKey = NsKey(nqn: string, nsid: nat)

  datatype Proc = Proc(
    disks: map<Name, Bdev>,
    bases: map<Name, Trid>,
    subsystems: map<string, Subsys>,
    namespaces: map<NsKey, Ns>,
    vblk: map<Id, VblkDev>,
    nvme: map<Id, NvmeDev>)

  // What does not change while the upgrade runs: the disks each fabric target
  // exports under a base controller name, and which controllers are virtual
  // functions of which physical one.
  datatype Setting = Setting(
    exports: map<BaseCtrl, map<Name, Bdev>>,
    vblkVfs: map<Id, set<Id>>,
    nvmeVfs: map<Id, set<Id>>)

  datatype World = World(setting: Setting, src: Proc, dst: Proc)

  // ----- RPCs -----

  datatype Side = Src | Dst

  datatype SuspendMode = EventsOnly | AdminOnly | LiveUpdate

  datatype Rpc =
    | AttachBase(base: Name, trid: Trid)
    | DetachBase(base: Name)
    | CreateNull(name: Name, sizeMib: nat, blockSize: nat, uuid: string)
    | CreateMalloc(name: Name, sizeMib: nat, blockSize: nat, uuid: string)
    | DeleteNull(name: Name)
    | DeleteMalloc(name: Name)
    | CreateSubsystem(subsys: Subsys)
    | CreateNamespace(nqn: string, ns: Ns)
    | CreateVblk(vblkCfg: VblkCtrl, suspended: bool, listening: bool)
    | SuspendVblk(id: Id, mode: SuspendMode)
    | DestroyVblk(id: Id, force: bool)
    | CreateNvme(nvmeCfg: NvmeConfig, suspended: bool, listening: bool)
    | AttachNs(id: Id, nsid: nat)
    | DetachNs(id: Id, nsid: nat)
    | SuspendNvme(id: Id, mode: SuspendMode)
    | DestroyNvme(id: Id)

  datatype Msg = Msg(side: Side, rpc: Rpc)

  function Exported(g: Setting, base: Name, trid: Trid): map<Name, Bdev> {
    var b := BaseCtrl(base, trid);
    if b in g.exports then g.exports[b] else map[]
  }

  function VfsOf(vfs: map<Id, set<Id>>, pf: Id): set<Id> {
    if pf in vfs then vfs[pf] else {}
  }

  // A controller is a virtual function when some physical function lists it.
  predicate IsVf(vfs: map<Id, set<Id>>, id: Id) {
    exists pf | pf in vfs :: id in vfs[pf]
  }

  // The size SPDK gives a disk that is created from a size in MiB.
  function SizedDisk(name: Name, product: Product, sizeMib: nat, blockSize: nat, uuid: string): Bdev
    requires blockSize > 0
  {
    Bdev(name, product, blockSize, sizeMib * MIB / blockSize, uuid)
  }

  // The guard of an RPC on one process: the objects it names exist, the objects
  // it creates do not, and a physical function outlives its virtual functions.
  predicate Accepts(g: Setting, p: Proc, r: Rpc) {
    match r
    case AttachBase(base, trid) =>
      base !in p.bases && forall n | n in Exported(g, base, trid) :: n !in p.disks
    case DetachBase(base) => base in p.bases
    case CreateNull(name, _, blockSize, _) => name !in p.disks && blockSize > 0
    case CreateMalloc(name, _, blockSize, _) => name !in p.disks && blockSize > 0
    case DeleteNull(name) => name in p.disks && p.disks[name].product == NullDisk
    case DeleteMalloc(name) => name in p.disks && p.disks[name].product == MallocDisk
    case CreateSubsystem(subsys) => subsys.nqn !in p.subsystems
    case CreateNamespace(nqn, ns) =>
      && nqn in p.subsystems
      && ns.bdev in p.disks
      && NsKey(nqn, ns.nsid) !in p.namespaces
      && forall k | k in p.namespaces :: p.namespaces[k].uuid != ns.uuid
    case CreateVblk(cfg, _, _) =>
      cfg.id !in p.vblk && (cfg.bdev.Some? ==> cfg.bdev.value in p.disks)
    case SuspendVblk(id, _) => id in p.vblk
    case DestroyVblk(id, force) =>
      && id in p.vblk
      && (IsVf(g.vblkVfs, id) ==> force)
      && forall vf | vf in VfsOf(g.vblkVfs, id) :: vf !in p.vblk
    case CreateNvme(cfg, _, _) => cfg.id !in p.nvme && cfg.nqn in p.subsystems
    case AttachNs(id, nsid) =>
      && id in p.nvme
      && NsKey(p.nvme[id].cfg.nqn, nsid) in p.namespaces
      && nsid !in p.nvme[id].attached
    case DetachNs(id, nsid) => id in p.nvme && nsid in p.nvme[id].attached
    case SuspendNvme(id, _) => id in p.nvme
    case DestroyNvme(id) =>
      && id in p.nvme
      && p.nvme[id].attached == map[]
      && forall vf | vf in VfsOf(g.nvmeVfs, id) :: vf !in p.nvme
  }

  // The phase of a new controller: one that listens takes over at once when the
  // peer has already stopped.
  function BirthPhase(suspended: bool, listening: bool, peerStopped: bool): Phase {
    if !suspended then Serving
    else if listening && peerStopped then Serving
    else Suspended(listening)
  }

  // The effect of an accepted RPC on the process that receives it.
  function Effect(g: Setting, p: Proc, peer: Proc, r: Rpc): Proc
    requires Accepts(g, p, r)
  {
    match r
    case AttachBase(base, trid) =>
      p.(bases := p.bases[base := trid], disks := p.disks + Exported(g, base, trid))
    case DetachBase(base) =>
      p.(bases := p.bases - {base}, disks := p.disks - Exported(g, base, p.bases[base]).Keys)
    case CreateNull(name, sizeMib, blockSize, uuid) =>
      p.(disks := p.disks[name := SizedDisk(name, NullDisk, sizeMib, blockSize, uuid)])
    case CreateMalloc(name, sizeMib, blockSize, uuid) =>
      p.(disks := p.disks[name := SizedDisk(name, MallocDisk, sizeMib, blockSize, uuid)])
    case DeleteNull(name) => p.(disks := p.disks - {name})
    case DeleteMalloc(name) => p.(disks := p.disks - {name})
    case CreateSubsystem(subsys) => p.(subsystems := p.subsystems[subsys.nqn := subsys])
    case CreateNamespace(nqn, ns) => p.(namespaces := p.namespaces[NsKey(nqn, ns.nsid) := ns])
    case CreateVblk(cfg, suspended, listening) =>
      var peerStopped := cfg.id in peer.vblk && peer.vblk[cfg.id].phase == Stopped;
      p.(vblk := p.vblk[cfg.id := VblkDev(cfg, BirthPhase(suspended, listening, peerStopped))])
    case SuspendVblk(id, mode) =>
      if mode == LiveUpdate then p.(vblk := p.vblk[id := p.vblk[id].(phase := Stopped)]) else p
    case DestroyVblk(id, _) => p.(vblk := p.vblk - {id})
    case CreateNvme(cfg, suspended, listening) =>
      var peerStopped := cfg.id in peer.nvme && peer.nvme[cfg.id].phase == Stopped;
      p.(nvme := p.nvme[cfg.id := NvmeDev(cfg, map[], BirthPhase(suspended, listening, peerStopped))])
    case AttachNs(id, nsid) =>
      var dev := p.nvme[id];
      p.(nvme := p.nvme[id := dev.(attached := dev.attached[nsid := p.namespaces[NsKey(dev.cfg.nqn, nsid)]])])
    case DetachNs(id, nsid) =>
      var dev := p.nvme[id];
      p.(nvme := p.nvme[id := dev.(attached := dev.attached - {nsid})])
    case SuspendNvme(id, mode) =>
      if mode == LiveUpdate then p.(nvme := p.nvme[id := p.nvme[id].(phase := Stopped)]) else p
    case DestroyNvme(id) => p.(nvme := p.nvme - {id})
  }

  // The other process sees a live-update suspend: its listening copy takes over.
  function Notice(peer: Proc, r: Rpc): Proc {
    match r
    case SuspendVblk(id, LiveUpdate) =>
      if id in peer.vblk && peer.vblk[id].phase == Suspended(true)
      then peer.(vblk := peer.vblk[id := peer.vblk[id].(phase := Serving)])
      else peer
    case SuspendNvme(id, LiveUpdate) =>
      if id in peer.nvme && peer.nvme[id].phase == Suspended(true)
      then peer.(nvme := peer.nvme[id := peer.nvme[id].(phase := Serving)])
      else peer
    case _ => peer
  }

  predicate Enabled(w: World, m: Msg) {
    Accepts(w.setting, if m.side == Src then w.src else w.dst, m.rpc)
  }

  function Step(w: World, m: Msg): World
    requires Enabled(w, m)
  {
    if m.side == Src
    then World(w.setting, Effect(w.setting, w.src, w.dst, m.rpc), Notice(w.dst, m.rpc))
    else World(w.setting, Notice(w.src, m.rpc), Effect(w.setting, w.dst, w.src, m.rpc))
  }

  // The world after a log of RPCs; an RPC that is not enabled changes nothing.
  function Replay(w: World, log: seq<Msg>): World {
    if log == [] then w
    else
      var before := Replay(w, log[..|log| - 1]);
      var m := log[|log| - 1];
      if Enabled(before, m) then Step(before, m) else before
  }

  // Every RPC of the log was enabled when it was sent.
  ghost predicate Feasible(w: World, log: seq<Msg>) {
    forall k | 0 <= k < |log| :: Enabled(Replay(w, log[..k]), log[k])
  }

  // ----- References to a disk that a process still holds -----

  datatype Ref = OfVblk(id: Id) | OfNs(id: Id, nsid: nat)

  ghost function VblkRefs(p: Proc, b: Name): set<Ref> {
    set id | id in p.vblk && p.vblk[id].cfg.bdev == Some(b) :: OfVblk(id)
  }

  ghost function NsRefs(p: Proc, b: Name): set<Ref> {
    set id, n | id in p.nvme && n in p.nvme[id].attached && p.nvme[id].attached[n].bdev == b :: OfNs(id, n)
  }

  ghost function LiveRefs(p: Proc, b: Name): set<Ref> {
    VblkRefs(p, b) + NsRefs(p, b)
  }
}
