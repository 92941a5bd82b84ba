/**
 What each operation of the live-upgrade manager does, as functions from state to
 state. LiveUpgradeManager carries the operations out on mutable fields and is
 proved equal to these functions; the theorems are about these functions.
 */
module UpgradeSpec {
  import opened Common
  import opened UpgradeWorld

  // One entry of the bdev dictionary. Only an NVMe disk has a base.
  datatype Entry = Entry(info: Bdev, base: Option<Name>, created: int, used: int)

  // One entry of the base-controller dictionary.
  datatype Hist = Hist(created: int, used: int)

  // The lookup tables that stay fixed after start-up.
  datatype Directory = Directory(
    vblk: map<Id, VblkCtrl>, nvme: map<Id, NvmeCtrl>, subsys: map<string, Subsys>)

  // The bookkeeping and the two processes at one moment.
  datatype Moment = Moment(
    bdevs: map<Name, Entry>, bases: map<Name, Hist>, subsysHist: map<string, int>, world: World)

  // The mutable bookkeeping, the two processes, the RPCs accepted so far and the moment
  // at which each was sent. A process may refuse one RPC for a reason of its own: the
  // one that would be number failsAt, counted from 0.
  datatype State = State(
    bdevs: map<Name, Entry>, bases: map<Name, Hist>, subsysHist: map<string, int>,
    world: World, log: seq<Msg>, trail: seq<Moment>, failsAt: Option<nat>)

  function Now(s: State): Moment {
    Moment(s.bdevs, s.bases, s.subsysHist, s.world)
  }

  // An emulation function; an in-use one names its controller, and a virtual one
  // has an index.
  datatype Func = Func(ctrl: Option<Id>, vfIndex: Option<nat>)

  datatype Pf = Pf(func: Func, vfs: seq<Func>)

  // A failed RPC or a missing dictionary key ends the run where it stands.
  datatype Run = Go(st: State) | Halt(st: State) {
    predicate IsFailure() { Halt? }
    function PropagateFailure(): Run requires Halt? { this }
    function Extract(): State requires Go? { st }
  }

  function Send(s: State, side: Side, r: Rpc): Run {
    var m := Msg(side, r);
    if s.failsAt != Some(|s.log|) && Enabled(s.world, m)
    then Go(s.(world := Step(s.world, m), log := s.log + [m], trail := s.trail + [Now(s)]))
    else Halt(s)
  }

  // ----- Disks -----

  const EXACT: nat := 0x20_0000_0000_0000

  // The distance between neighbouring doubles at n; whole numbers below 2^53 are exact.
  function Spacing(n: nat): (u: nat)
    ensures u > 0
  {
    if n < EXACT then 1 else 2 * Spacing(n / 2)
  }

  // The multiple of u nearest to q * u + r, the even one of two.
  function Nearest(q: nat, r: nat, u: nat): nat {
    if 2 * r < u || (2 * r == u && q % 2 == 0) then q * u else q * u + u
  }

  // The double nearest to n.
  function Rounded(n: nat): nat {
    Nearest(n / Spacing(n), n % Spacing(n), Spacing(n))
  }

  // The size in whole MiB that is requested for a rebuilt disk: the quotient is computed
  // in floating point, where dividing by a power of two is exact, and then cut.
  function SizeMib(info: Bdev): nat {
    Rounded(info.blockSize * info.numBlocks) / MIB
  }

  function MarkCreated(s: State, b: Name): State
    requires b in s.bdevs
  {
    s.(bdevs := s.bdevs[b := s.bdevs[b].(created := 1)])
  }

  function CreateBdev(s: State, b: Name): Run {
    if b !in s.bdevs then Halt(s)
    else if s.bdevs[b].created == 1 then Go(s)
    else
      var info := s.bdevs[b].info;
      match info.product
      case NvmeDisk(trid) =>
        if s.bdevs[b].base.None? || s.bdevs[b].base.value !in s.bases then Halt(s)
        else
          var x := s.bdevs[b].base.value;
          if s.bases[x].created == 1 then Go(MarkCreated(s, b))
          else
            var t :- Send(s, Dst, AttachBase(x, trid));
            Go(MarkCreated(t.(bases := t.bases[x := s.bases[x].(created := 1)]), b))
      case NullDisk =>
        var t :- Send(s, Dst, CreateNull(info.name, SizeMib(info), info.blockSize, info.uuid));
        Go(MarkCreated(t, b))
      case MallocDisk =>
        var t :- Send(s, Dst, CreateMalloc(info.name, SizeMib(info), info.blockSize, info.uuid));
        Go(MarkCreated(t, b))
      case OtherDisk(_) => Go(MarkCreated(s, b))
  }

  function DestroyBdev(s: State, b: Name): Run {
    if b !in s.bdevs then Halt(s)
    else
      var t := s.(bdevs := s.bdevs[b := s.bdevs[b].(used := s.bdevs[b].used - 1)]);
      if t.bdevs[b].used != 0 then Go(t)
      else
        match t.bdevs[b].info.product
        case NvmeDisk(_) =>
          if t.bdevs[b].base.None? || t.bdevs[b].base.value !in t.bases then Halt(t)
          else
            var x := t.bdevs[b].base.value;
            var u := t.(bases := t.bases[x := t.bases[x].(used := t.bases[x].used - 1)]);
            if u.bases[x].used != 0 then Go(u) else Send(u, Src, DetachBase(x))
        case NullDisk => Send(t, Src, DeleteNull(t.bdevs[b].info.name))
        case MallocDisk => Send(t, Src, DeleteMalloc(t.bdevs[b].info.name))
        case OtherDisk(_) => Go(t)
  }

  // ----- virtio-blk -----

  function HandOverVblk(s: State, c: VblkCtrl): Run {
    var t :- Send(s, Src, SuspendVblk(c.id, LiveUpdate));
    Send(t, Dst, CreateVblk(c, true, true))
  }

  function DropVblk(d: Directory, s: State, id: Id, force: bool): Run {
    if id !in d.vblk then Halt(s)
    else
      var t :- Send(s, Src, DestroyVblk(id, force));
      match d.vblk[id].bdev
      case None => Go(t)
      case Some(b) => DestroyBdev(t, b)
  }

  function MoveVblk(d: Directory, s: State, id: Id): Run {
    if id !in d.vblk then Halt(s)
    else
      var c := d.vblk[id];
      var t :- if c.bdev.Some? then CreateBdev(s, c.bdev.value) else Go(s);
      var u :- Send(t, Src, SuspendVblk(id, EventsOnly));
      HandOverVblk(u, c)
  }

  function UpgradeVblkFunc(d: Directory, s: State, f: Func): Run {
    match f.ctrl
    case None => Go(s)
    case Some(id) =>
      var t :- MoveVblk(d, s, id);
      if f.vfIndex.Some? then DropVblk(d, t, id, true) else Go(t)
  }

  function UpgradeVblkVfs(d: Directory, s: State, vfs: seq<Func>): Run
    decreases |vfs|
  {
    if vfs == [] then Go(s)
    else
      var t :- UpgradeVblkFunc(d, s, vfs[0]);
      UpgradeVblkVfs(d, t, vfs[1..])
  }

  function UpgradeVblkPf(d: Directory, s: State, pf: Pf): Run {
    var t :- UpgradeVblkFunc(d, s, pf.func);
    var u :- UpgradeVblkVfs(d, t, pf.vfs);
    match pf.func.ctrl
    case None => Go(u)
    case Some(id) => DropVblk(d, u, id, false)
  }

  function UpgradeVblkPfs(d: Directory, s: State, pfs: seq<Pf>): Run
    decreases |pfs|
  {
    if pfs == [] then Go(s)
    else
      var t :- UpgradeVblkPf(d, s, pfs[0]);
      UpgradeVblkPfs(d, t, pfs[1..])
  }

  // ----- NVMe -----

  // Is there a namespace with this uuid on the destination?
  predicate UuidTaken(p: Proc, uuid: string) {
    exists k | k in p.namespaces :: p.namespaces[k].uuid == uuid
  }

  function EnsureSubsys(d: Directory, s: State, nqn: string): Run {
    if nqn !in s.subsysHist then Halt(s)
    else if s.subsysHist[nqn] != 0 then Go(s)
    else if nqn !in d.subsys then Halt(s)
    else
      var t :- if d.subsys[nqn].nqn in s.world.dst.subsystems then Go(s)
               else Send(s, Dst, CreateSubsystem(d.subsys[nqn]));
      Go(t.(subsysHist := t.subsysHist[nqn := 1]))
  }

  function EnsureNs(s: State, nqn: string, ns: Ns): Run {
    var t :- CreateBdev(s, ns.bdev);
    if UuidTaken(t.world.dst, ns.uuid) then Go(t)
    else Send(t, Dst, CreateNamespace(nqn, ns))
  }

  function EnsureAllNs(s: State, nqn: string, nss: seq<Ns>): Run
    decreases |nss|
  {
    if nss == [] then Go(s)
    else
      var t :- EnsureNs(s, nqn, nss[0]);
      EnsureAllNs(t, nqn, nss[1..])
  }

  function AttachAll(s: State, id: Id, nss: seq<Ns>): Run
    decreases |nss|
  {
    if nss == [] then Go(s)
    else
      var t :- Send(s, Dst, AttachNs(id, nss[0].nsid));
      AttachAll(t, id, nss[1..])
  }

  function CreatePassiveNvme(s: State, c: NvmeCtrl): Run {
    var t :- Send(s, Dst, CreateNvme(c.cfg, true, true));
    AttachAll(t, c.cfg.id, c.namespaces)
  }

  function ReleaseNs(s: State, id: Id, ns: Ns): Run {
    var t :- Send(s, Src, DetachNs(id, ns.nsid));
    DestroyBdev(t, ns.bdev)
  }

  function ReleaseAll(s: State, id: Id, nss: seq<Ns>): Run
    decreases |nss|
  {
    if nss == [] then Go(s)
    else
      var t :- ReleaseNs(s, id, nss[0]);
      ReleaseAll(t, id, nss[1..])
  }

  function DropNvme(d: Directory, s: State, id: Id): Run {
    if id !in d.nvme then Halt(s)
    else
      var t :- ReleaseAll(s, id, d.nvme[id].namespaces);
      Send(t, Src, DestroyNvme(id))
  }

  function MoveNvme(d: Directory, s: State, id: Id): Run {
    if id !in d.nvme then Halt(s)
    else
      var c := d.nvme[id];
      var s1 :- EnsureSubsys(d, s, c.cfg.nqn);
      var s2 :- EnsureAllNs(s1, c.cfg.nqn, c.namespaces);
      var s3 :- Send(s2, Src, SuspendNvme(c.cfg.id, AdminOnly));
      var s4 :- CreatePassiveNvme(s3, c);
      Send(s4, Src, SuspendNvme(c.cfg.id, LiveUpdate))
  }

  function UpgradeNvmeFunc(d: Directory, s: State, f: Func): Run {
    match f.ctrl
    case None => Go(s)
    case Some(id) =>
      var t :- MoveNvme(d, s, id);
      if f.vfIndex.Some? then DropNvme(d, t, id) else Go(t)
  }

  function UpgradeNvmeVfs(d: Directory, s: State, vfs: seq<Func>): Run
    decreases |vfs|
  {
    if vfs == [] then Go(s)
    else
      var t :- UpgradeNvmeFunc(d, s, vfs[0]);
      UpgradeNvmeVfs(d, t, vfs[1..])
  }

  function UpgradeNvmePf(d: Directory, s: State, pf: Pf): Run {
    var t :- UpgradeNvmeFunc(d, s, pf.func);
    var u :- UpgradeNvmeVfs(d, t, pf.vfs);
    match pf.func.ctrl
    case None => Go(u)
    case Some(id) => DropNvme(d, u, id)
  }

  function UpgradeNvmePfs(d: Directory, s: State, pfs: seq<Pf>): Run
    decreases |pfs|
  {
    if pfs == [] then Go(s)
    else
      var t :- UpgradeNvmePf(d, s, pfs[0]);
      UpgradeNvmePfs(d, t, pfs[1..])
  }

  // The whole run: every virtio-blk function, then every NVMe function.
  function Upgrade(d: Directory, s: State, vblkPfs: seq<Pf>, nvmePfs: seq<Pf>): Run {
    var t :- UpgradeVblkPfs(d, s, vblkPfs);
    UpgradeNvmePfs(d, t, nvmePfs)
  }
}
