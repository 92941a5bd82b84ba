/**
 What stays true while the upgrade runs: how the bookkeeping relates to the two
 processes, where each controller stands between them, and what is promised after
 every single RPC.

 Throughout, i is the state the run starts from and d its lookup tables.
 */
module UpgradeInvariant {
  import opened Common
  import opened UpgradeWorld
  import opened UpgradeSpec

  // ----- The starting point -----

  // The attachment table of a list of namespaces.
  ghost function NsMap(nss: seq<Ns>): map<nat, Ns> {
    if nss == [] then map[]
    else NsMap(nss[..|nss| - 1])[nss[|nss| - 1].nsid := nss[|nss| - 1]]
  }

  ghost function OnBase(i: State, x: Name): set<Name> {
    set b | b in i.bdevs && i.bdevs[b].base == Some(x)
  }

  // A disk the manager knows how to rebuild.
  ghost predicate Movable(i: State, b: Name) {
    b in i.bdevs && !i.bdevs[b].info.product.OtherDisk?
  }

  ghost predicate ReadyDisk(i: State, b: Name)
    requires b in i.bdevs
  {
    var e := i.bdevs[b];
    && e.info.name == b && e.info.blockSize > 0 && e.created == 0
    && b in i.world.src.disks && i.world.src.disks[b] == e.info
    && (e.info.product.NvmeDisk? <==> e.base.Some?)
    && (e.base.Some? ==>
          && e.base.value in i.bases
          && e.base.value in i.world.src.bases
          && i.world.src.bases[e.base.value] == e.info.product.trid)
  }

  ghost predicate ReadyBase(i: State, x: Name)
    requires x in i.bases && x in i.world.src.bases
  {
    var shown := Exported(i.world.setting, x, i.world.src.bases[x]);
    && i.bases[x].created == 0
    && i.bases[x].used == |OnBase(i, x)|
    && shown.Keys == OnBase(i, x)
    && (forall b | b in shown :: shown[b] == i.bdevs[b].info)
  }

  ghost predicate ReadyDisks(i: State) {
    && i.world.src.bases.Keys == i.bases.Keys
    && (forall b {:trigger ReadyDisk(i, b)} | b in i.bdevs :: ReadyDisk(i, b))
    && (forall x {:trigger ReadyBase(i, x)} | x in i.bases :: ReadyBase(i, x))
  }

  ghost predicate ReadyNs(i: State, d: Directory, c: NvmeCtrl, ns: Ns) {
    && Movable(i, ns.bdev)
    && NsKey(c.cfg.nqn, ns.nsid) in i.world.src.namespaces
    && i.world.src.namespaces[NsKey(c.cfg.nqn, ns.nsid)] == ns
  }

  ghost predicate ReadyNvme(i: State, d: Directory, id: Id)
    requires id in d.nvme
  {
    var c := d.nvme[id];
    && c.cfg.id == id
    && id in i.world.src.nvme
    && i.world.src.nvme[id] == NvmeDev(c.cfg, NsMap(c.namespaces), Serving)
    && (forall j, k | 0 <= j < k < |c.namespaces| :: c.namespaces[j].nsid != c.namespaces[k].nsid)
    && (forall ns {:trigger ReadyNs(i, d, c, ns)} | ns in c.namespaces :: ReadyNs(i, d, c, ns))
    && c.cfg.nqn in i.subsysHist
  }

  ghost predicate ReadyVblk(i: State, d: Directory, id: Id)
    requires id in d.vblk
  {
    var c := d.vblk[id];
    && c.id == id
    && id in i.world.src.vblk
    && i.world.src.vblk[id] == VblkDev(c, Serving)
    && (c.bdev.Some? ==> Movable(i, c.bdev.value))
  }

  ghost predicate ReadyCtrls(i: State, d: Directory) {
    && i.world.src.vblk.Keys == d.vblk.Keys
    && i.world.src.nvme.Keys == d.nvme.Keys
    && (forall id {:trigger ReadyVblk(i, d, id)} | id in d.vblk :: ReadyVblk(i, d, id))
    && (forall id {:trigger ReadyNvme(i, d, id)} | id in d.nvme :: ReadyNvme(i, d, id))
    && (forall n | n in i.subsysHist :: n in d.subsys && i.subsysHist[n] == 0)
    && (forall n | n in d.subsys :: d.subsys[n].nqn == n)
    && (forall k, l | k in i.world.src.namespaces && l in i.world.src.namespaces ::
          i.world.src.namespaces[k].uuid == i.world.src.namespaces[l].uuid ==> k == l)
  }

  // The destination starts empty; it may already have subsystems.
  ghost predicate Blank(p: Proc) {
    p.disks == map[] && p.bases == map[] && p.namespaces == map[] && p.vblk == map[] && p.nvme == map[]
  }

  ghost predicate Ready(i: State, d: Directory) {
    && ReadyDisks(i) && ReadyCtrls(i, d) && Blank(i.world.dst)
    && i.log == [] && i.trail == [] && i.failsAt == None
  }

  // How far the start-up count of a disk is above its real references: the
  // namespaces listed for it, less the namespaces attached to some controller.
  ghost function Slack(i: State, b: Name): int
    requires b in i.bdevs
  {
    i.bdevs[b].used - |LiveRefs(i.world.src, b)|
  }

  // ----- Bookkeeping -----

  ghost predicate Frame(i: State, s: State) {
    && s.bdevs.Keys == i.bdevs.Keys
    && s.bases.Keys == i.bases.Keys
    && s.subsysHist.Keys == i.subsysHist.Keys
    && s.world.setting == i.world.setting
    && s.failsAt == None
    && (forall b {:trigger s.bdevs[b]} | b in i.bdevs ::
          s.bdevs[b].info == i.bdevs[b].info && s.bdevs[b].base == i.bdevs[b].base)
  }

  // The disk has been rebuilt on the destination.
  ghost predicate Made(i: State, s: State, b: Name)
    requires b in i.bdevs && Frame(i, s)
  {
    match i.bdevs[b].info.product
    case NvmeDisk(_) =>
      && i.bdevs[b].base.Some? && i.bdevs[b].base.value in i.bases
      && s.bases[i.bdevs[b].base.value].created == 1
    case OtherDisk(_) => false
    case _ => s.bdevs[b].created == 1
  }

  // What a rebuilt disk looks like on the destination.
  ghost function Rebuilt(info: Bdev): Bdev
    requires info.blockSize > 0
  {
    if info.product.NvmeDisk? then info
    else SizedDisk(info.name, info.product, SizeMib(info), info.blockSize, info.uuid)
  }

  ghost predicate DestDisk(i: State, s: State, b: Name)
    requires b in i.bdevs && Frame(i, s)
  {
    && (b in s.world.dst.disks <==> Made(i, s, b))
    && (b in s.world.dst.disks && i.bdevs[b].info.blockSize > 0 ==>
          s.world.dst.disks[b] == Rebuilt(i.bdevs[b].info))
    && (s.bdevs[b].created == 1 && Movable(i, b) ==> Made(i, s, b))
  }

  ghost predicate DestBase(i: State, s: State, x: Name)
    requires x in i.bases && Frame(i, s)
  {
    && (x in s.world.dst.bases <==> s.bases[x].created == 1)
    && (x in s.world.dst.bases && x in i.world.src.bases ==> s.world.dst.bases[x] == i.world.src.bases[x])
  }

  ghost predicate DestSubsys(s: State, n: string) {
    n in s.subsysHist && s.subsysHist[n] != 0 ==> n in s.world.dst.subsystems
  }

  ghost predicate DestNs(i: State, s: State, k: NsKey) {
    k in s.world.dst.namespaces ==>
      k in i.world.src.namespaces && i.world.src.namespaces[k] == s.world.dst.namespaces[k]
  }

  ghost predicate DestBook(i: State, s: State) {
    && Frame(i, s)
    && (forall b {:trigger DestDisk(i, s, b)} | b in i.bdevs :: DestDisk(i, s, b))
    && (forall x {:trigger DestBase(i, s, x)} | x in i.bases :: DestBase(i, s, x))
    && (forall n {:trigger DestSubsys(s, n)} :: DestSubsys(s, n))
    && (forall k {:trigger DestNs(i, s, k)} :: DestNs(i, s, k))
  }

  // The disk was referenced at start-up and its count has run out.
  ghost predicate Spent(i: State, s: State, b: Name)
    requires b in i.bdevs && b in s.bdevs
  {
    i.bdevs[b].used >= 1 && s.bdevs[b].used <= 0
  }

  ghost function Unspent(i: State, s: State, x: Name): set<Name>
    requires Frame(i, s)
  {
    set b | b in i.bdevs && i.bdevs[b].base == Some(x) && !Spent(i, s, b)
  }

  // Between the RPC that drops a reference and the decrement that follows it, the
  // count of that disk is one ahead.
  ghost function Owed(pending: Option<Name>, b: Name): int {
    if pending == Some(b) then 1 else 0
  }

  ghost predicate Count(i: State, s: State, pending: Option<Name>, b: Name)
    requires Frame(i, s) && b in i.bdevs
  {
    && s.bdevs[b].used == |LiveRefs(s.world.src, b)| + Slack(i, b) + Owed(pending, b)
    && s.bdevs[b].used <= i.bdevs[b].used
  }

  ghost predicate SrcBase(i: State, s: State, x: Name)
    requires Frame(i, s) && x in i.bases
  {
    && s.bases[x].used == |Unspent(i, s, x)|
    && (x in s.world.src.bases ==>
          x in i.world.src.bases && s.world.src.bases[x] == i.world.src.bases[x])
    && (x in s.world.src.bases <==> (Unspent(i, s, x) != {} || OnBase(i, x) == {}))
  }

  ghost predicate SrcDisk(i: State, s: State, b: Name)
    requires Frame(i, s) && b in i.bdevs
  {
    match i.bdevs[b].info.product
    case NvmeDisk(_) =>
      && i.bdevs[b].base.Some?
      && (b in s.world.src.disks <==> i.bdevs[b].base.value in s.world.src.bases)
    case OtherDisk(_) => true
    case _ =>
      && (b in s.world.src.disks <==> !Spent(i, s, b))
      && (b in s.world.src.disks ==> s.world.src.disks[b] == i.bdevs[b].info)
  }

  ghost predicate Counts(i: State, s: State, pending: Option<Name>)
    requires Frame(i, s)
  {
    forall b {:trigger Count(i, s, pending, b)} | b in i.bdevs :: Count(i, s, pending, b)
  }

  ghost predicate SrcBases(i: State, s: State)
    requires Frame(i, s)
  {
    && s.world.src.bases.Keys <= i.bases.Keys
    && (forall x {:trigger SrcBase(i, s, x)} | x in i.bases :: SrcBase(i, s, x))
  }

  ghost predicate SrcDisks(i: State, s: State)
    requires Frame(i, s)
  {
    forall b {:trigger SrcDisk(i, s, b)} | b in i.bdevs :: SrcDisk(i, s, b)
  }

  ghost predicate SrcBook(i: State, s: State, pending: Option<Name>) {
    Frame(i, s) && Counts(i, s, pending) && SrcBases(i, s) && SrcDisks(i, s)
  }

  // ----- Where a controller stands -----

  // The source serves it and the destination has no copy.
  ghost predicate VblkHome(d: Directory, w: World, id: Id)
    requires id in d.vblk
  {
    id in w.src.vblk && w.src.vblk[id] == VblkDev(d.vblk[id], Serving) && id !in w.dst.vblk
  }

  // The source has handed it over and the destination has no copy yet.
  ghost predicate VblkGap(d: Directory, w: World, id: Id)
    requires id in d.vblk
  {
    id in w.src.vblk && w.src.vblk[id] == VblkDev(d.vblk[id], Stopped) && id !in w.dst.vblk
  }

  // The destination serves an identical copy whose disk exists there.
  ghost predicate VblkAway(d: Directory, w: World, id: Id)
    requires id in d.vblk
  {
    && id in w.dst.vblk && w.dst.vblk[id] == VblkDev(d.vblk[id], Serving)
    && (d.vblk[id].bdev.Some? ==> d.vblk[id].bdev.value in w.dst.disks)
    && (id in w.src.vblk ==> w.src.vblk[id] == VblkDev(d.vblk[id], Stopped))
  }

  ghost predicate VblkSettled(d: Directory, w: World, id: Id)
    requires id in d.vblk
  {
    VblkHome(d, w, id) || VblkAway(d, w, id)
  }

  // The source serves it, with every namespace attached.
  ghost predicate NvmeHome(d: Directory, w: World, id: Id)
    requires id in d.nvme
  {
    id in w.src.nvme && w.src.nvme[id] == NvmeDev(d.nvme[id].cfg, NsMap(d.nvme[id].namespaces), Serving)
  }

  ghost predicate DisksOn(p: Proc, attached: map<nat, Ns>) {
    forall n | n in attached :: attached[n].bdev in p.disks
  }

  // The destination has a listening copy with these namespaces attached.
  ghost predicate NvmeListens(d: Directory, w: World, id: Id, attached: map<nat, Ns>)
    requires id in d.nvme
  {
    && id in w.dst.nvme && w.dst.nvme[id] == NvmeDev(d.nvme[id].cfg, attached, Suspended(true))
    && DisksOn(w.dst, attached)
  }

  // The destination serves an identical copy, with every namespace attached and
  // every one of their disks there.
  ghost predicate NvmeAway(d: Directory, w: World, id: Id)
    requires id in d.nvme
  {
    && id in w.dst.nvme
    && w.dst.nvme[id] == NvmeDev(d.nvme[id].cfg, NsMap(d.nvme[id].namespaces), Serving)
    && DisksOn(w.dst, NsMap(d.nvme[id].namespaces))
    && (id in w.src.nvme ==> w.src.nvme[id].phase == Stopped && w.src.nvme[id].cfg == d.nvme[id].cfg)
  }

  ghost predicate NvmePassive(d: Directory, w: World, id: Id)
    requires id in d.nvme
  {
    && id in w.dst.nvme && w.dst.nvme[id].phase == Suspended(true)
    && w.dst.nvme[id].cfg == d.nvme[id].cfg && DisksOn(w.dst, w.dst.nvme[id].attached)
  }

  ghost predicate NvmeSettled(d: Directory, w: World, id: Id)
    requires id in d.nvme
  {
    (NvmeHome(d, w, id) && id !in w.dst.nvme) || NvmeAway(d, w, id)
  }

  // All controllers are settled but those in transit.
  ghost predicate Hand(d: Directory, w: World, vblk: set<Id>, nvme: set<Id>) {
    && w.src.vblk.Keys <= d.vblk.Keys && w.dst.vblk.Keys <= d.vblk.Keys
    && w.src.nvme.Keys <= d.nvme.Keys && w.dst.nvme.Keys <= d.nvme.Keys
    && (forall id {:trigger VblkSettled(d, w, id)} | id in d.vblk && id !in vblk :: VblkSettled(d, w, id))
    && (forall id {:trigger NvmeSettled(d, w, id)} | id in d.nvme && id !in nvme :: NvmeSettled(d, w, id))
  }

  // ----- What holds after every RPC -----

  // The destination only gains objects, the source only loses them.
  ghost predicate OneWay(m: Msg) {
    match m.rpc
    case AttachBase(_, _) => m.side == Dst
    case CreateNull(_, _, _, _) => m.side == Dst
    case CreateMalloc(_, _, _, _) => m.side == Dst
    case CreateSubsystem(_) => m.side == Dst
    case CreateNamespace(_, _) => m.side == Dst
    case CreateVblk(_, _, _) => m.side == Dst
    case CreateNvme(_, _, _) => m.side == Dst
    case AttachNs(_, _) => m.side == Dst
    case _ => m.side == Src
  }

  // A virtio-blk controller is served by exactly one side, except between its
  // live-update suspend and the create that immediately follows.
  ghost predicate VblkSafe(d: Directory, w: World, last: Option<Msg>, id: Id)
    requires id in d.vblk
  {
    VblkSettled(d, w, id) || (VblkGap(d, w, id) && last == Some(Msg(Src, SuspendVblk(id, LiveUpdate))))
  }

  // An NVMe controller is served by exactly one side, and that side has all its
  // namespaces attached.
  ghost predicate NvmeSafe(d: Directory, w: World, id: Id)
    requires id in d.nvme
  {
    (NvmeHome(d, w, id) && (id in w.dst.nvme ==> NvmePassive(d, w, id))) || NvmeAway(d, w, id)
  }

  // A disk that is still referenced is still there, unless it was counted too low.
  ghost predicate DiskSafe(i: State, w: World, b: Name)
    requires b in i.bdevs
  {
    Slack(i, b) >= 0 && Movable(i, b) && LiveRefs(w.src, b) != {} ==> b in w.src.disks
  }

  ghost predicate RanOut(i: State, w: World, b: Name)
    requires b in i.bdevs
  {
    i.bdevs[b].used >= 1 && |LiveRefs(w.src, b)| + Slack(i, b) <= 0
  }

  // The count of disk b runs out as the last counted reference is dropped.
  ghost predicate AllReleased(i: State, w: World, b: Name)
    requires b in i.bdevs
  {
    i.bdevs[b].used >= 1 && |LiveRefs(w.src, b)| + Slack(i, b) == 0
  }

  // A disk is removed from the source exactly when its count runs out, a base when that
  // of its last disk does.
  ghost predicate RemovalDue(i: State, w: World, r: Rpc) {
    match r
    case DeleteNull(b) =>
      b in i.bdevs && AllReleased(i, w, b)
    case DeleteMalloc(b) =>
      b in i.bdevs && AllReleased(i, w, b)
    case DetachBase(x) =>
      && (forall b {:trigger RanOut(i, w, b)} | b in OnBase(i, x) :: RanOut(i, w, b))
      && (exists b {:trigger AllReleased(i, w, b)} :: b in OnBase(i, x) && AllReleased(i, w, b))
    case _ => true
  }

  ghost predicate Safe(i: State, d: Directory, w: World, last: Option<Msg>) {
    && (forall id {:trigger VblkSafe(d, w, last, id)} | id in d.vblk :: VblkSafe(d, w, last, id))
    && (forall id {:trigger NvmeSafe(d, w, id)} | id in d.nvme :: NvmeSafe(d, w, id))
    && (forall b {:trigger DiskSafe(i, w, b)} | b in i.bdevs :: DiskSafe(i, w, b))
    && (last.Some? ==> OneWay(last.value) && RemovalDue(i, w, last.value.rpc))
  }

  ghost function Last(log: seq<Msg>): Option<Msg> {
    if log == [] then None else Some(log[|log| - 1])
  }

  // Every prefix of the log leaves a safe world.
  ghost predicate SafeRun(i: State, d: Directory, log: seq<Msg>) {
    forall k | 0 <= k <= |log| :: Safe(i, d, Replay(i.world, log[..k]), Last(log[..k]))
  }

  // ----- The books whenever an RPC is sent -----

  // A state with the books and the world of a moment.
  ghost function Then(m: Moment): State {
    State(m.bdevs, m.bases, m.subsysHist, m.world, [], [], None)
  }

  // The count of a disk is its live references plus its slack; created disks exist on
  // the destination as they should, and disks that have not run out on the source.
  ghost predicate RightDisk(i: State, s: State, b: Name)
    requires Frame(i, s) && b in i.bdevs
  {
    && Count(i, s, None, b) && DestDisk(i, s, b)
    && (Movable(i, b) && !Spent(i, s, b) ==> b in s.world.src.disks)
  }

  // The count of a base is the number of its disks that have not run out, and it is
  // there as long as one of them is left.
  ghost predicate RightBase(i: State, s: State, x: Name)
    requires Frame(i, s) && x in i.bases
  {
    && s.bases[x].used == |Unspent(i, s, x)| && DestBase(i, s, x)
    && (Unspent(i, s, x) != {} ==> x in s.world.src.bases)
  }

  ghost predicate Right(i: State, m: Moment) {
    && Frame(i, Then(m))
    && (forall b {:trigger RightDisk(i, Then(m), b)} | b in i.bdevs :: RightDisk(i, Then(m), b))
    && (forall x {:trigger RightBase(i, Then(m), x)} | x in i.bases :: RightBase(i, Then(m), x))
  }

  // Every RPC was sent at a moment at which the books were right.
  ghost predicate Recorded(i: State, log: seq<Msg>, trail: seq<Moment>) {
    && |trail| == |log|
    && forall k | 0 <= k < |log| :: trail[k].world == Replay(i.world, log[..k]) && Right(i, trail[k])
  }

  ghost predicate Traced(i: State, d: Directory, s: State) {
    && s.world == Replay(i.world, s.log) && Feasible(i.world, s.log) && SafeRun(i, d, s.log)
    && Recorded(i, s.log, s.trail)
  }

  // The invariant, with a disk whose decrement is still owed and the controllers
  // in transit.
  ghost predicate Held(i: State, d: Directory, s: State, pending: Option<Name>, vblk: set<Id>, nvme: set<Id>) {
    && Ready(i, d)
    && DestBook(i, s)
    && SrcBook(i, s, pending)
    && Hand(d, s.world, vblk, nvme)
    && Traced(i, d, s)
    && s.failsAt == None
  }

  // The invariant at rest.
  ghost predicate Inv(i: State, d: Directory, s: State) {
    Held(i, d, s, None, {}, {})
  }

  // ----- Basic consequences -----

  lemma {:induction false} NsMapHas(nss: seq<Ns>, n: nat)
    ensures n in NsMap(nss) <==> exists j :: 0 <= j < |nss| && nss[j].nsid == n
    ensures n in NsMap(nss) ==> NsMap(nss)[n] in nss && NsMap(nss)[n].nsid == n
  {
    if nss != [] {
      var init, last := nss[..|nss| - 1], nss[|nss| - 1];
      NsMapHas(init, n);
      if n in NsMap(nss) && n != last.nsid {
        assert NsMap(nss)[n] in init;
      }
      if j :| 0 <= j < |nss| && nss[j].nsid == n && j < |nss| - 1 {
        assert init[j].nsid == n;
      }
    }
  }

  lemma {:induction false} NsMapAt(nss: seq<Ns>, j: nat)
    requires j < |nss|
    requires forall k, l | 0 <= k < l < |nss| :: nss[k].nsid != nss[l].nsid
    ensures nss[j].nsid in NsMap(nss) && NsMap(nss)[nss[j].nsid] == nss[j]
  {
    var init := nss[..|nss| - 1];
    if j < |nss| - 1 {
      NsMapAt(init, j);
    }
  }

  lemma NsMapPrefix(nss: seq<Ns>, k: nat)
    requires k < |nss|
    ensures NsMap(nss[..k + 1]) == NsMap(nss[..k])[nss[k].nsid := nss[k]]
  {
    assert nss[..k + 1][..k] == nss[..k];
  }

  // One more accepted RPC keeps the trace good when the world it leaves is safe.
  lemma Extend(i: State, d: Directory, s: State, t: State, m: Msg, now: Moment)
    requires Traced(i, d, s) && Enabled(s.world, m) && Safe(i, d, Step(s.world, m), Some(m))
    requires now.world == s.world && Right(i, now)
    requires t.world == Step(s.world, m) && t.log == s.log + [m] && t.trail == s.trail + [now]
    ensures Traced(i, d, t)
  {
    hide Safe, Enabled, Step, Right;
    var sofar, log := s.log, t.log;
    assert log[..|log| - 1] == sofar;
    forall k | 0 <= k <= |log| ensures Safe(i, d, Replay(i.world, log[..k]), Last(log[..k])) {
      if k < |log| {
        assert log[..k] == sofar[..k];
      } else {
        assert log[..k] == log;
      }
    }
    forall k | 0 <= k < |log| ensures Enabled(Replay(i.world, log[..k]), log[k]) {
      assert log[..k] == sofar[..k];
      if k == |sofar| {
        assert sofar[..k] == sofar;
      } else {
        assert log[k] == sofar[k];
      }
    }
    forall k | 0 <= k < |log| ensures t.trail[k].world == Replay(i.world, log[..k]) && Right(i, t.trail[k]) {
      assert log[..k] == sofar[..k];
      if k == |sofar| {
        assert sofar[..k] == sofar;
      }
    }
  }

  // Nothing has been sent in between.
  lemma TracedSame(i: State, d: Directory, s: State, t: State)
    requires Traced(i, d, s) && t.world == s.world && t.log == s.log && t.trail == s.trail
    ensures Traced(i, d, t)
  {
    hide SafeRun, Feasible, Recorded;
  }

  // A state and its moment are right together.
  lemma RightFrom(i: State, s: State)
    requires Frame(i, s)
    requires forall b {:trigger RightDisk(i, s, b)} | b in i.bdevs :: RightDisk(i, s, b)
    requires forall x {:trigger RightBase(i, s, x)} | x in i.bases :: RightBase(i, s, x)
    ensures Right(i, Now(s))
  {
    hide LiveRefs, Slack;
    var t := Then(Now(s));
    forall b | b in i.bdevs ensures RightDisk(i, t, b) {
      assert RightDisk(i, s, b);
    }
    forall x | x in i.bases ensures RightBase(i, t, x) {
      assert RightBase(i, s, x);
      assert Unspent(i, t, x) == Unspent(i, s, x);
    }
  }

  lemma RightDiskNow(i: State, s: State, b: Name)
    requires ReadyDisks(i) && DestBook(i, s) && SrcBook(i, s, None) && b in i.bdevs
    ensures RightDisk(i, s, b)
  {
    hide LiveRefs, Slack, DestDisk;
    assert ReadyDisk(i, b) && Count(i, s, None, b) && SrcDisk(i, s, b) && DestDisk(i, s, b);
    if Movable(i, b) && !Spent(i, s, b) && i.bdevs[b].info.product.NvmeDisk? {
      var x := i.bdevs[b].base.value;
      assert SrcBase(i, s, x);
      assert b in Unspent(i, s, x);
    }
  }

  // Books that are right at rest are right for the next RPC.
  lemma RightNow(i: State, s: State)
    requires ReadyDisks(i) && DestBook(i, s) && SrcBook(i, s, None)
    ensures Right(i, Now(s))
  {
    hide ReadyDisks, RightDisk, DestDisk, DestBase, Right, LiveRefs, Slack;
    forall b | b in i.bdevs ensures RightDisk(i, s, b) {
      RightDiskNow(i, s, b);
    }
    forall x | x in i.bases ensures RightBase(i, s, x) {
      assert SrcBase(i, s, x) && DestBase(i, s, x);
    }
    RightFrom(i, s);
  }

  // The counts keep every disk that is still referenced.
  lemma CountsKeepDisks(i: State, s: State, pending: Option<Name>)
    requires ReadyDisks(i) && SrcBook(i, s, pending)
    ensures forall b {:trigger DiskSafe(i, s.world, b)} | b in i.bdevs :: DiskSafe(i, s.world, b)
  {
    hide LiveRefs, Slack;
    forall b | b in i.bdevs ensures DiskSafe(i, s.world, b) {
      assert ReadyDisk(i, b) && Count(i, s, pending, b) && SrcDisk(i, s, b);
      if Slack(i, b) >= 0 && LiveRefs(s.world.src, b) != {} {
        assert !Spent(i, s, b);
        if i.bdevs[b].info.product.NvmeDisk? {
          var x := i.bdevs[b].base.value;
          assert SrcBase(i, s, x);
          assert b in Unspent(i, s, x);
        }
      }
    }
  }

  // The two processes hold the same references.
  ghost predicate SameRefs(p: Proc, q: Proc) {
    && p.vblk.Keys == q.vblk.Keys && p.nvme.Keys == q.nvme.Keys
    && (forall id | id in p.vblk :: p.vblk[id].cfg == q.vblk[id].cfg)
    && (forall id | id in p.nvme :: p.nvme[id].attached == q.nvme[id].attached)
  }

  lemma RefsDependOn(p: Proc, q: Proc)
    requires SameRefs(p, q)
    ensures forall b :: LiveRefs(p, b) == LiveRefs(q, b)
  {
    forall b ensures LiveRefs(p, b) == LiveRefs(q, b) {
      assert VblkRefs(p, b) == VblkRefs(q, b);
      assert NsRefs(p, b) == NsRefs(q, b);
    }
  }

  lemma OneLess<T>(whole: set<T>, rest: set<T>, x: T)
    requires x in whole && rest == whole - {x}
    ensures |rest| == |whole| - 1
  {
  }

  lemma VblkRefIn(p: Proc, b: Name, r: Ref)
    ensures r in VblkRefs(p, b) <==> r.OfVblk? && r.id in p.vblk && p.vblk[r.id].cfg.bdev == Some(b)
  {
  }

  lemma NsRefIn(p: Proc, b: Name, r: Ref)
    ensures r in NsRefs(p, b) <==>
      r.OfNs? && r.id in p.nvme && r.nsid in p.nvme[r.id].attached && p.nvme[r.id].attached[r.nsid].bdev == b
  {
  }

  // Dropping a virtio-blk controller drops its one reference.
  lemma VblkRefDropped(p: Proc, id: Id, b: Name)
    requires id in p.vblk
    ensures var q := p.(vblk := p.vblk - {id});
      && (p.vblk[id].cfg.bdev == Some(b) ==> |LiveRefs(q, b)| == |LiveRefs(p, b)| - 1)
      && (p.vblk[id].cfg.bdev != Some(b) ==> LiveRefs(q, b) == LiveRefs(p, b))
  {
    hide VblkRefs, NsRefs;
    var q := p.(vblk := p.vblk - {id});
    forall r ensures r in LiveRefs(q, b) <==> r in LiveRefs(p, b) && r != OfVblk(id) {
      VblkRefIn(p, b, r);
      VblkRefIn(q, b, r);
      NsRefIn(p, b, r);
      NsRefIn(q, b, r);
    }
    VblkRefIn(p, b, OfVblk(id));
    NsRefIn(p, b, OfVblk(id));
    if p.vblk[id].cfg.bdev == Some(b) {
      OneLess(LiveRefs(p, b), LiveRefs(q, b), OfVblk(id));
    }
  }

  // Detaching a namespace drops its one reference.
  lemma NsRefDropped(p: Proc, id: Id, n: nat, b: Name)
    requires id in p.nvme && n in p.nvme[id].attached
    ensures var dev := p.nvme[id];
      var q := p.(nvme := p.nvme[id := dev.(attached := dev.attached - {n})]);
      && (dev.attached[n].bdev == b ==> |LiveRefs(q, b)| == |LiveRefs(p, b)| - 1)
      && (dev.attached[n].bdev != b ==> LiveRefs(q, b) == LiveRefs(p, b))
  {
    hide VblkRefs, NsRefs;
    var dev := p.nvme[id];
    var q := p.(nvme := p.nvme[id := dev.(attached := dev.attached - {n})]);
    forall r ensures r in LiveRefs(q, b) <==> r in LiveRefs(p, b) && r != OfNs(id, n) {
      VblkRefIn(p, b, r);
      VblkRefIn(q, b, r);
      NsRefIn(p, b, r);
      NsRefIn(q, b, r);
    }
    VblkRefIn(p, b, OfNs(id, n));
    NsRefIn(p, b, OfNs(id, n));
    if dev.attached[n].bdev == b {
      OneLess(LiveRefs(p, b), LiveRefs(q, b), OfNs(id, n));
    }
  }

  // Destroying a controller without attachments drops no reference.
  lemma NoRefDropped(p: Proc, id: Id, b: Name)
    requires id in p.nvme && p.nvme[id].attached == map[]
    ensures LiveRefs(p.(nvme := p.nvme - {id}), b) == LiveRefs(p, b)
  {
    var q := p.(nvme := p.nvme - {id});
    assert VblkRefs(q, b) == VblkRefs(p, b);
    assert NsRefs(q, b) == NsRefs(p, b);
  }
}
