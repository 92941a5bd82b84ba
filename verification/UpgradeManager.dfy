/**
 The live-upgrade manager: the bookkeeping it reads from the source at start-up and
 updates in place, and the loops that move every function. Each method is proved to
 leave exactly the state its specification function gives.
 */
module UpgradeManager {
  import opened Common
  import opened UpgradeWorld
  import opened UpgradeSpec
  import opened UpgradeInvariant
  import opened UpgradeRun
  import opened UpgradeSnapshot
  import opened UpgradeTheorems
  import opened UpgradeFailure

  // ----- Reading the source -----

  // Put one NVMe disk on every base controller with its transport id; the last one
  // becomes its base.
  method MatchBases(bdev: Bdev, trid: Trid, bases: seq<BaseCtrl>, table: map<Name, Entry>, uses: map<Name, Hist>)
      returns (bdevDict: map<Name, Entry>, bdevNvmfDict: map<Name, Hist>)
    requires uses.Keys == BaseNames(bases)
    ensures bdevDict == (if BaseOf(bases, trid).None? then table
                         else table[bdev.name := Entry(bdev, BaseOf(bases, trid), 0, 0)])
    ensures bdevNvmfDict.Keys == BaseNames(bases)
    ensures forall x | x in BaseNames(bases) ::
      bdevNvmfDict[x] == uses[x].(used := uses[x].used + Matches(bases, x, trid))
  {
    bdevDict, bdevNvmfDict := table, uses;
    for k := 0 to |bases|
      invariant bdevDict == (if BaseOf(bases[..k], trid).None? then table
                             else table[bdev.name := Entry(bdev, BaseOf(bases[..k], trid), 0, 0)])
      invariant bdevNvmfDict.Keys == BaseNames(bases)
      invariant forall x | x in BaseNames(bases) ::
        bdevNvmfDict[x] == uses[x].(used := uses[x].used + Matches(bases[..k], x, trid))
    {
      assert bases[..k + 1][..k] == bases[..k];
      if trid == bases[k].trid {
        var x := bases[k].name;
        bdevDict := bdevDict[bdev.name := Entry(bdev, Some(x), 0, 0)];
        bdevNvmfDict := bdevNvmfDict[x := bdevNvmfDict[x].(used := bdevNvmfDict[x].used + 1)];
      }
    }
    assert bases[..|bases|] == bases;
  }

  // Every base controller, not used yet.
  method UnusedBases(bases: seq<BaseCtrl>) returns (bdevNvmfDict: map<Name, Hist>)
    ensures bdevNvmfDict.Keys == BaseNames(bases)
    ensures forall x | x in bdevNvmfDict :: bdevNvmfDict[x] == Hist(0, 0)
  {
    bdevNvmfDict := map[];
    for k := 0 to |bases|
      invariant bdevNvmfDict.Keys == BaseNames(bases[..k])
      invariant forall x | x in bdevNvmfDict :: bdevNvmfDict[x] == Hist(0, 0)
    {
      assert bases[..k + 1] == bases[..k] + [bases[k]];
      bdevNvmfDict := bdevNvmfDict[bases[k].name := Hist(0, 0)];
    }
    assert bases[..|bases|] == bases;
  }

  // Which disks there are and which base controller each NVMe disk sits on.
  method GetBdevInfo(bdevs: seq<Bdev>, bases: seq<BaseCtrl>)
      returns (bdevDict: map<Name, Entry>, bdevNvmfDict: map<Name, Hist>)
    ensures bdevDict == BdevTable(bdevs, bases)
    ensures bdevNvmfDict == BaseTable(bdevs, bases)
  {
    hide BaseRows, BaseNames;
    bdevDict := map[];
    bdevNvmfDict := UnusedBases(bases);
    for j := 0 to |bdevs|
      invariant bdevDict == BdevTable(bdevs[..j], bases)
      invariant bdevNvmfDict == BaseTable(bdevs[..j], bases)
    {
      var bdev := bdevs[j];
      assert bdevs[..j + 1][..j] == bdevs[..j];
      match bdev.product {
        case NvmeDisk(trid) =>
          bdevDict, bdevNvmfDict := MatchBases(bdev, trid, bases, bdevDict, bdevNvmfDict);
        case _ =>
          bdevDict := bdevDict[bdev.name := Entry(bdev, None, 0, 0)];
      }
    }
    assert bdevs[..|bdevs|] == bdevs;
  }

  // How often one disk is used.
  method CountUses(b: Name, namespaces: seq<NsInfo>, vblk: map<Id, VblkCtrl>) returns (used: int)
    ensures used == NsUses(namespaces, b) + |VblkOn(vblk, b)|
  {
    used := 0;
    for k := 0 to |namespaces|
      invariant used == NsUses(namespaces[..k], b)
    {
      assert namespaces[..k + 1][..k] == namespaces[..k];
      if namespaces[k].ns.bdev == b {
        used := used + 1;
      }
    }
    assert namespaces[..|namespaces|] == namespaces;
    var rest := vblk.Keys;
    while rest != {}
      invariant rest <= vblk.Keys
      invariant used == NsUses(namespaces, b) + |VblkOn(vblk, b) - rest|
      decreases rest
    {
      var id :| id in rest;
      if vblk[id].bdev == Some(b) {
        assert VblkOn(vblk, b) - (rest - {id}) == (VblkOn(vblk, b) - rest) + {id};
        used := used + 1;
      } else {
        assert VblkOn(vblk, b) - (rest - {id}) == VblkOn(vblk, b) - rest;
      }
      rest := rest - {id};
    }
    assert VblkOn(vblk, b) - {} == VblkOn(vblk, b);
  }

  // How often each disk is used: by listed namespaces and by virtio-blk controllers.
  method FillBdevHist(table: map<Name, Entry>, namespaces: seq<NsInfo>, vblk: map<Id, VblkCtrl>)
      returns (bdevDict: map<Name, Entry>)
    ensures bdevDict == Counted(table, namespaces, vblk)
  {
    bdevDict := table;
    var todo := table.Keys;
    while todo != {}
      invariant todo <= table.Keys == bdevDict.Keys
      invariant forall b | b in table ::
        bdevDict[b] == if b in todo then table[b] else Counted(table, namespaces, vblk)[b]
      decreases todo
    {
      var b :| b in todo;
      var used := CountUses(b, namespaces, vblk);
      bdevDict := bdevDict[b := bdevDict[b].(used := bdevDict[b].used + used)];
      todo := todo - {b};
    }
  }

  class LiveUpgradeManager {
    // Fixed after start-up.
    const vblkCtrlDict: map<Id, VblkCtrl>
    const nvmeCtrlDict: map<Id, NvmeCtrl>
    const nvmeSubsysDict: map<string, Subsys>
    const vblkFunctions: seq<Pf>
    const nvmeFunctions: seq<Pf>
    // The bookkeeping.
    var bdevDict: map<Name, Entry>
    var bdevNvmfDict: map<Name, Hist>
    var nvmeSubsysHist: map<string, int>
    // The two processes, the RPCs they accepted and the moments these were sent.
    var world: World
    var log: seq<Msg>
    ghost var trail: seq<Moment>
    // The RPC, if any, that a process refuses for a reason of its own.
    const failsAt: Option<nat>

    ghost function View(): State
      reads this
    {
      State(bdevDict, bdevNvmfDict, nvmeSubsysHist, world, log, trail, failsAt)
    }

    function Dir(): Directory {
      Directory(vblkCtrlDict, nvmeCtrlDict, nvmeSubsysDict)
    }

    // How a method that reported ok or not has left things.
    ghost function Outcome(ok: bool): Run
      reads this
    {
      if ok then Go(View()) else Halt(View())
    }

    constructor (v: Snapshot, w: World, failsAt: Option<nat>)
      ensures View() == Initial(v, w).(failsAt := failsAt) && Dir() == Tables(v)
      ensures vblkFunctions == v.vblkPfs && nvmeFunctions == v.nvmePfs
    {
      vblkCtrlDict := VblkDict(v.vblk);
      nvmeCtrlDict := NvmeDict(v.nvme);
      nvmeSubsysDict := SubsysDict(v.subsystems);
      nvmeSubsysHist := SubsysZeros(v.subsystems);
      vblkFunctions := v.vblkPfs;
      nvmeFunctions := v.nvmePfs;
      world := w;
      log := [];
      trail := [];
      this.failsAt := failsAt;
      var table, uses := GetBdevInfo(v.bdevs, v.bases);
      bdevNvmfDict := uses;
      var counted := FillBdevHist(table, v.namespaces, VblkDict(v.vblk));
      bdevDict := counted;
    }

    method SendRpc(side: Side, r: Rpc) returns (ok: bool)
      modifies this`world, this`log, this`trail
      ensures Outcome(ok) == Send(old(View()), side, r)
    {
      var m := Msg(side, r);
      ok := failsAt != Some(|log|) && Enabled(world, m);
      if ok {
        trail := trail + [Now(View())];
        world := Step(world, m);
        log := log + [m];
      }
    }

    method CreateBdev(b: Name) returns (ok: bool)
      modifies this
      ensures Outcome(ok) == UpgradeSpec.CreateBdev(old(View()), b)
    {
      if b !in bdevDict { return false; }
      if bdevDict[b].created == 1 { return true; }
      var info := bdevDict[b].info;
      match info.product {
        case NvmeDisk(trid) =>
          if bdevDict[b].base.None? { return false; }
          var base := bdevDict[b].base.value;
          if base !in bdevNvmfDict { return false; }
          if bdevNvmfDict[base].created == 1 {
            bdevDict := bdevDict[b := bdevDict[b].(created := 1)];
            return true;
          }
          ok := SendRpc(Dst, AttachBase(base, trid));
          if !ok { return; }
          bdevNvmfDict := bdevNvmfDict[base := bdevNvmfDict[base].(created := 1)];
        case NullDisk =>
          var totalSize := Rounded(info.blockSize * info.numBlocks) / MIB;
          ok := SendRpc(Dst, CreateNull(info.name, totalSize, info.blockSize, info.uuid));
          if !ok { return; }
        case MallocDisk =>
          var totalSize := Rounded(info.blockSize * info.numBlocks) / MIB;
          ok := SendRpc(Dst, CreateMalloc(info.name, totalSize, info.blockSize, info.uuid));
          if !ok { return; }
        case OtherDisk(_) =>
          ok := true;
      }
      bdevDict := bdevDict[b := bdevDict[b].(created := 1)];
    }

    method DestroyBdev(b: Name) returns (ok: bool)
      modifies this
      ensures Outcome(ok) == UpgradeSpec.DestroyBdev(old(View()), b)
    {
      if b !in bdevDict { return false; }
      bdevDict := bdevDict[b := bdevDict[b].(used := bdevDict[b].used - 1)];
      if bdevDict[b].used != 0 { return true; }
      var info := bdevDict[b].info;
      match info.product {
        case NvmeDisk(_) =>
          if bdevDict[b].base.None? { return false; }
          var base := bdevDict[b].base.value;
          if base !in bdevNvmfDict { return false; }
          bdevNvmfDict := bdevNvmfDict[base := bdevNvmfDict[base].(used := bdevNvmfDict[base].used - 1)];
          if bdevNvmfDict[base].used != 0 { return true; }
          ok := SendRpc(Src, DetachBase(base));
        case NullDisk => ok := SendRpc(Src, DeleteNull(info.name));
        case MallocDisk => ok := SendRpc(Src, DeleteMalloc(info.name));
        case OtherDisk(_) => ok := true;
      }
    }

    // ----- virtio-blk -----

    method CleanupRestoreVblkController(c: VblkCtrl) returns (ok: bool)
      modifies this
      ensures Outcome(ok) == HandOverVblk(old(View()), c)
    {
      ok := SendRpc(Src, SuspendVblk(c.id, LiveUpdate));
      if !ok { return; }
      ok := SendRpc(Dst, CreateVblk(c, true, true));
    }

    method DestroyVblkCtrl(id: Id, force: bool) returns (ok: bool)
      modifies this
      ensures Outcome(ok) == DropVblk(Dir(), old(View()), id, force)
    {
      if id !in vblkCtrlDict { return false; }
      var bdev := vblkCtrlDict[id].bdev;
      ok := SendRpc(Src, DestroyVblk(id, force));
      if !ok { return; }
      if bdev.Some? {
        ok := DestroyBdev(bdev.value);
      }
    }

    method LiveUpdateVblkFunc(f: Func) returns (ok: bool)
      modifies this
      ensures Outcome(ok) == UpgradeVblkFunc(Dir(), old(View()), f)
    {
      if f.ctrl.None? { return true; }
      var id := f.ctrl.value;
      if id !in vblkCtrlDict { return false; }
      var c := vblkCtrlDict[id];
      if c.bdev.Some? {
        ok := CreateBdev(c.bdev.value);
        if !ok { return; }
      }
      ok := SendRpc(Src, SuspendVblk(id, EventsOnly));
      if !ok { return; }
      ok := CleanupRestoreVblkController(c);
      if !ok { return; }
      if f.vfIndex.Some? {
        ok := DestroyVblkCtrl(id, true);
      }
    }

    // ----- NVMe -----

    method CreateNvmeSubsys(nqn: string) returns (ok: bool)
      modifies this
      ensures Outcome(ok) == EnsureSubsys(Dir(), old(View()), nqn)
    {
      if nqn !in nvmeSubsysHist { return false; }
      if nvmeSubsysHist[nqn] != 0 { return true; }
      if nqn !in nvmeSubsysDict { return false; }
      var subsys := nvmeSubsysDict[nqn];
      if subsys.nqn !in world.dst.subsystems {
        ok := SendRpc(Dst, CreateSubsystem(subsys));
        if !ok { return; }
      }
      nvmeSubsysHist := nvmeSubsysHist[nqn := 1];
      ok := true;
    }

    // Is there a namespace with this uuid on the destination?
    method CheckNvmeNamespace(ns: Ns) returns (found: bool)
      ensures found == UuidTaken(world.dst, ns.uuid)
    {
      var rest := world.dst.namespaces.Keys;
      while rest != {}
        invariant rest <= world.dst.namespaces.Keys
        invariant forall k | k in world.dst.namespaces && k !in rest :: world.dst.namespaces[k].uuid != ns.uuid
        decreases rest
      {
        var k :| k in rest;
        if world.dst.namespaces[k].uuid == ns.uuid { return true; }
        rest := rest - {k};
      }
      return false;
    }

    method CreateNvmeNamespaces(nqn: string, nss: seq<Ns>) returns (ok: bool)
      modifies this
      ensures Outcome(ok) == EnsureAllNs(old(View()), nqn, nss)
    {
      ok := true;
      for k := 0 to |nss|
        invariant ok && EnsureAllNs(View(), nqn, nss[k..]) == EnsureAllNs(old(View()), nqn, nss)
      {
        assert nss[k..][0] == nss[k] && nss[k..][1..] == nss[k + 1..];
        ok := CreateBdev(nss[k].bdev);
        if !ok { return; }
        var found := CheckNvmeNamespace(nss[k]);
        if !found {
          ok := SendRpc(Dst, CreateNamespace(nqn, nss[k]));
          if !ok { return; }
        }
      }
    }

    method CreatePassiveNvmeController(c: NvmeCtrl) returns (ok: bool)
      modifies this
      ensures Outcome(ok) == CreatePassiveNvme(old(View()), c)
    {
      ok := SendRpc(Dst, CreateNvme(c.cfg, true, true));
      if !ok { return; }
      var nss := c.namespaces;
      for k := 0 to |nss|
        invariant ok && AttachAll(View(), c.cfg.id, nss[k..]) == CreatePassiveNvme(old(View()), c)
      {
        assert nss[k..][0] == nss[k] && nss[k..][1..] == nss[k + 1..];
        ok := SendRpc(Dst, AttachNs(c.cfg.id, nss[k].nsid));
        if !ok { return; }
      }
    }

    method CleanupNvmeController(id: Id) returns (ok: bool)
      modifies this
      ensures Outcome(ok) == DropNvme(Dir(), old(View()), id)
    {
      if id !in nvmeCtrlDict { return false; }
      var nss := nvmeCtrlDict[id].namespaces;
      ok := true;
      for k := 0 to |nss|
        invariant ok && ReleaseAll(View(), id, nss[k..]) == ReleaseAll(old(View()), id, nss)
      {
        assert nss[k..][0] == nss[k] && nss[k..][1..] == nss[k + 1..];
        ok := SendRpc(Src, DetachNs(id, nss[k].nsid));
        if !ok { return; }
        ok := DestroyBdev(nss[k].bdev);
        if !ok { return; }
      }
      ok := SendRpc(Src, DestroyNvme(id));
    }

    method LiveUpdateNvmeFunc(f: Func) returns (ok: bool)
      modifies this
      ensures Outcome(ok) == UpgradeNvmeFunc(Dir(), old(View()), f)
    {
      if f.ctrl.None? { return true; }
      var id := f.ctrl.value;
      if id !in nvmeCtrlDict { return false; }
      var c := nvmeCtrlDict[id];
      ok := CreateNvmeSubsys(c.cfg.nqn);
      if !ok { return; }
      ok := CreateNvmeNamespaces(c.cfg.nqn, c.namespaces);
      if !ok { return; }
      ok := SendRpc(Src, SuspendNvme(c.cfg.id, AdminOnly));
      if !ok { return; }
      ok := CreatePassiveNvmeController(c);
      if !ok { return; }
      ok := SendRpc(Src, SuspendNvme(c.cfg.id, LiveUpdate));
      if !ok { return; }
      if f.vfIndex.Some? {
        ok := CleanupNvmeController(id);
      }
    }

    // ----- The whole run -----

    method UpgradeVblk() returns (ok: bool)
      modifies this
      ensures Outcome(ok) == UpgradeVblkPfs(Dir(), old(View()), vblkFunctions)
    {
      var pfs := vblkFunctions;
      ok := true;
      for j := 0 to |pfs|
        invariant ok && UpgradeVblkPfs(Dir(), View(), pfs[j..]) == UpgradeVblkPfs(Dir(), old(View()), pfs)
      {
        assert pfs[j..][0] == pfs[j] && pfs[j..][1..] == pfs[j + 1..];
        ghost var start := View();
        ok := LiveUpdateVblkFunc(pfs[j].func);
        if !ok { return; }
        ghost var moved := View();
        var vfs := pfs[j].vfs;
        for k := 0 to |vfs|
          invariant ok && UpgradeVblkVfs(Dir(), View(), vfs[k..]) == UpgradeVblkVfs(Dir(), moved, vfs)
        {
          assert vfs[k..][0] == vfs[k] && vfs[k..][1..] == vfs[k + 1..];
          ok := LiveUpdateVblkFunc(vfs[k]);
          if !ok { return; }
        }
        if pfs[j].func.ctrl.Some? {
          ok := DestroyVblkCtrl(pfs[j].func.ctrl.value, false);
          if !ok { return; }
        }
        assert UpgradeVblkPf(Dir(), start, pfs[j]) == Go(View());
      }
    }

    method UpgradeNvme() returns (ok: bool)
      modifies this
      ensures Outcome(ok) == UpgradeNvmePfs(Dir(), old(View()), nvmeFunctions)
    {
      var pfs := nvmeFunctions;
      ok := true;
      for j := 0 to |pfs|
        invariant ok && UpgradeNvmePfs(Dir(), View(), pfs[j..]) == UpgradeNvmePfs(Dir(), old(View()), pfs)
      {
        assert pfs[j..][0] == pfs[j] && pfs[j..][1..] == pfs[j + 1..];
        ghost var start := View();
        ok := LiveUpdateNvmeFunc(pfs[j].func);
        if !ok { return; }
        ghost var moved := View();
        var vfs := pfs[j].vfs;
        for k := 0 to |vfs|
          invariant ok && UpgradeNvmeVfs(Dir(), View(), vfs[k..]) == UpgradeNvmeVfs(Dir(), moved, vfs)
        {
          assert vfs[k..][0] == vfs[k] && vfs[k..][1..] == vfs[k + 1..];
          ok := LiveUpdateNvmeFunc(vfs[k]);
          if !ok { return; }
        }
        if pfs[j].func.ctrl.Some? {
          ok := CleanupNvmeController(pfs[j].func.ctrl.value);
          if !ok { return; }
        }
        assert UpgradeNvmePf(Dir(), start, pfs[j]) == Go(View());
      }
    }

    method LiveUpgrade() returns (ok: bool)
      modifies this
      ensures Outcome(ok) == Upgrade(Dir(), old(View()), vblkFunctions, nvmeFunctions)
    {
      ok := UpgradeVblk();
      if !ok { return; }
      ok := UpgradeNvme();
    }
  }

  // Starting the manager on a pristine world and running it to the end: unless a process
  // refuses an RPC for a reason of its own it never fails, every RPC left a safe world,
  // and the two processes end as they should. A refused RPC stops it in the state in
  // which that RPC was sent, with safe processes and right books.
  method RunUpgrade(v: Snapshot, w: World, failsAt: Option<nat>) returns (m: LiveUpgradeManager, ok: bool)
    requires WellFormed(v) && Pristine(v, w) && Rooted(v, w.setting)
    ensures var i, d := Initial(v, w), Tables(v); var log := RunLog(i, d, v.vblkPfs, v.nvmePfs);
      && (ok <==> failsAt.None? || failsAt.value >= |log|)
      && (ok ==> m.View() == Upgrade(d, i, v.vblkPfs, v.nvmePfs).st.(failsAt := failsAt))
      && (!ok ==> m.log == log[..failsAt.value] && m.world == At(i, log, failsAt.value) && Right(i, Now(m.View())))
    ensures SafeRun(Initial(v, w), Tables(v), m.log) && Feasible(w, m.log) && m.world == Replay(w, m.log)
    ensures ok ==> m.world.dst.vblk.Keys == Elems(TreeIds(v.vblkPfs))
    ensures ok ==> m.world.dst.nvme.Keys == Elems(TreeIds(v.nvmePfs))
  {
    hide Launch, WellFormed, Pristine, Rooted, Ready, DestBook, SrcBook, Hand, SafeRun, Feasible, TreeIds, Replay,
         Upgrade, Right, Initial, Tables;
    LaunchOf(v, w);
    ghost var i, d := Initial(v, w), Tables(v);
    RunWorks(i, d, v.vblkPfs, v.nvmePfs);
    InitialParts(v, w);
    if failsAt.Some? {
      RefusedRun(i, d, v.vblkPfs, v.nvmePfs, failsAt.value);
      if failsAt.value < |RunLog(i, d, v.vblkPfs, v.nvmePfs)| {
        TracedPrefix(i, d, RunLog(i, d, v.vblkPfs, v.nvmePfs), failsAt.value);
      }
    }
    m := new LiveUpgradeManager(v, w, failsAt);
    ok := m.LiveUpgrade();
  }

  lemma TracedPrefix(i: State, d: Directory, log: seq<Msg>, k: nat)
    requires Feasible(i.world, log) && SafeRun(i, d, log) && k <= |log|
    ensures Feasible(i.world, log[..k]) && SafeRun(i, d, log[..k])
  {
    hide Safe, Enabled, Replay;
    forall j | 0 <= j <= k ensures Safe(i, d, Replay(i.world, log[..k][..j]), Last(log[..k][..j])) {
      assert log[..k][..j] == log[..j];
    }
    forall j | 0 <= j < k ensures Enabled(Replay(i.world, log[..k][..j]), log[..k][j]) {
      assert log[..k][..j] == log[..j];
    }
  }
}
