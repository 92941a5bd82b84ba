/**
 What a whole upgrade guarantees, for every well-formed start and every function
 tree: no RPC is refused, hosts are handed over without two owners, the destination
 ends as a copy, and the source's disks and bases go exactly when they should.
 */
module UpgradeTheorems {
  import opened Common
  import opened UpgradeWorld
  import opened UpgradeSpec
  import opened UpgradeInvariant
  import opened UpgradeRun
  import opened UpgradeOrder
  import opened UpgradePlan

  // The RPCs of a whole run.
  ghost function RunLog(i: State, d: Directory, vblkPfs: seq<Pf>, nvmePfs: seq<Pf>): seq<Msg> {
    Upgrade(d, i, vblkPfs, nvmePfs).st.log
  }

  ghost function RunEnd(i: State, d: Directory, vblkPfs: seq<Pf>, nvmePfs: seq<Pf>): World {
    Upgrade(d, i, vblkPfs, nvmePfs).st.world
  }

  // The world after the first k RPCs.
  ghost function At(i: State, log: seq<Msg>, k: nat): World
    requires k <= |log|
  {
    Replay(i.world, log[..k])
  }

  // Every in-use function has a controller and every controller a function.
  ghost predicate Complete(d: Directory, vblkPfs: seq<Pf>, nvmePfs: seq<Pf>) {
    Elems(TreeIds(vblkPfs)) == d.vblk.Keys && Elems(TreeIds(nvmePfs)) == d.nvme.Keys
  }

  // ----- No RPC is refused -----

  lemma NeverStuck(i: State, d: Directory, vblkPfs: seq<Pf>, nvmePfs: seq<Pf>)
    requires Launch(i, d, vblkPfs, nvmePfs)
    ensures Upgrade(d, i, vblkPfs, nvmePfs).Go?
    ensures var log := RunLog(i, d, vblkPfs, nvmePfs);
      && (forall k | 0 <= k < |log| :: Enabled(At(i, log, k), log[k]))
      && At(i, log, |log|) == RunEnd(i, d, vblkPfs, nvmePfs)
      && SafeRun(i, d, log)
  {
    hide Upgrade, Ready, DestBook, SrcBook, Hand, SafeRun, Replay;
    RunWorks(i, d, vblkPfs, nvmePfs);
    var log := RunLog(i, d, vblkPfs, nvmePfs);
    assert log[..|log|] == log;
  }

  // What is known of one RPC of a run.
  lemma OneMore(i: State, d: Directory, log: seq<Msg>, k: nat)
    requires Feasible(i.world, log) && SafeRun(i, d, log) && k < |log|
    ensures Enabled(At(i, log, k), log[k]) && OneWay(log[k])
    ensures At(i, log, k + 1) == Step(At(i, log, k), log[k])
    ensures RemovalDue(i, At(i, log, k + 1), log[k].rpc)
  {
    hide Enabled, Step, Replay, OneWay, RemovalDue;
    assert Enabled(Replay(i.world, log[..k]), log[k]);
    ReplayStep(i, log, k);
    assert Safe(i, d, Replay(i.world, log[..k + 1]), Last(log[..k + 1]));
    assert log[..k + 1][k] == log[k];
  }

  lemma ReplayStep(i: State, log: seq<Msg>, k: nat)
    requires k < |log| && Enabled(At(i, log, k), log[k])
    ensures At(i, log, k + 1) == Step(At(i, log, k), log[k])
  {
    assert log[..k + 1][..k] == log[..k];
  }

  lemma AtStart(i: State, log: seq<Msg>)
    ensures At(i, log, 0) == i.world
  {
  }

  // ----- What the destination's controllers rest on -----

  // The subsystem was there before the run, or is the one the source's table has.
  ghost predicate SubsysBacked(i: State, d: Directory, p: Proc, nqn: string) {
    nqn in p.subsystems &&
    if nqn in i.world.dst.subsystems then p.subsystems[nqn] == i.world.dst.subsystems[nqn]
    else nqn in d.subsys && p.subsystems[nqn] == d.subsys[nqn]
  }

  // The controller's subsystem is there, and every attachment is a namespace of it that
  // exists, on a disk that exists.
  ghost predicate Backed(i: State, d: Directory, p: Proc, id: Id)
    requires id in p.nvme
  {
    var dev := p.nvme[id];
    && SubsysBacked(i, d, p, dev.cfg.nqn)
    && forall n | n in dev.attached ::
         && NsKey(dev.cfg.nqn, n) in p.namespaces && p.namespaces[NsKey(dev.cfg.nqn, n)] == dev.attached[n]
         && dev.attached[n].bdev in p.disks
  }

  // Controllers and namespaces of the process rest on objects that exist.
  ghost predicate Founded(i: State, d: Directory, p: Proc) {
    && i.world.dst.subsystems.Keys <= p.subsystems.Keys
    && (forall n {:trigger SubsysBacked(i, d, p, n)} | n in p.subsystems :: SubsysBacked(i, d, p, n))
    && (forall k | k in p.namespaces :: k.nqn in p.subsystems && p.namespaces[k].bdev in p.disks)
    && (forall id {:trigger Backed(i, d, p, id)} | id in p.nvme :: Backed(i, d, p, id))
    && (forall id | id in p.vblk && p.vblk[id].cfg.bdev.Some? :: p.vblk[id].cfg.bdev.value in p.disks)
  }

  lemma EffectSubsystems(i: State, d: Directory, g: Setting, p: Proc, peer: Proc, r: Rpc)
    requires Founded(i, d, p) && Accepts(g, p, r) && OneWay(Msg(Dst, r)) && Stated(d, Msg(Dst, r))
    ensures var q := Effect(g, p, peer, r);
      && p.subsystems.Keys <= q.subsystems.Keys && p.disks.Keys <= q.disks.Keys
      && (forall k | k in p.namespaces :: k in q.namespaces && q.namespaces[k] == p.namespaces[k])
      && forall n {:trigger SubsysBacked(i, d, q, n)} | n in q.subsystems :: SubsysBacked(i, d, q, n)
  {
    hide Exported, VfsOf, IsVf;
    var q := Effect(g, p, peer, r);
    forall n | n in q.subsystems ensures SubsysBacked(i, d, q, n) {
      if n in p.subsystems {
        assert SubsysBacked(i, d, p, n);
      }
    }
  }

  lemma EffectBacked(i: State, d: Directory, g: Setting, p: Proc, peer: Proc, r: Rpc, id: Id)
    requires Founded(i, d, p) && Accepts(g, p, r) && OneWay(Msg(Dst, r)) && Stated(d, Msg(Dst, r))
    requires id in Effect(g, p, peer, r).nvme
    ensures Backed(i, d, Effect(g, p, peer, r), id)
  {
    hide Exported, VfsOf, IsVf, SubsysBacked;
    var q := Effect(g, p, peer, r);
    EffectSubsystems(i, d, g, p, peer, r);
    if id in p.nvme {
      assert Backed(i, d, p, id);
    }
    assert SubsysBacked(i, d, p, q.nvme[id].cfg.nqn) ==> SubsysBacked(i, d, q, q.nvme[id].cfg.nqn) by {
      InSubsystems(i, d, p, q.nvme[id].cfg.nqn);
    }
  }

  lemma InSubsystems(i: State, d: Directory, p: Proc, n: string)
    ensures SubsysBacked(i, d, p, n) ==> n in p.subsystems
  {
  }

  lemma EffectOthers(i: State, d: Directory, g: Setting, p: Proc, peer: Proc, r: Rpc)
    requires Founded(i, d, p) && Accepts(g, p, r) && OneWay(Msg(Dst, r))
    ensures var q := Effect(g, p, peer, r);
      && (forall k | k in q.namespaces :: k.nqn in q.subsystems && q.namespaces[k].bdev in q.disks)
      && (forall id | id in q.vblk && q.vblk[id].cfg.bdev.Some? :: q.vblk[id].cfg.bdev.value in q.disks)
  {
    hide Exported, VfsOf, IsVf, SubsysBacked, Backed;
  }

  lemma EffectFounded(i: State, d: Directory, g: Setting, p: Proc, peer: Proc, r: Rpc)
    requires Founded(i, d, p) && Accepts(g, p, r) && OneWay(Msg(Dst, r)) && Stated(d, Msg(Dst, r))
    ensures Founded(i, d, Effect(g, p, peer, r))
  {
    hide Effect, Accepts, OneWay, Stated, SubsysBacked, Backed;
    var q := Effect(g, p, peer, r);
    EffectSubsystems(i, d, g, p, peer, r);
    EffectOthers(i, d, g, p, peer, r);
    forall id | id in q.nvme ensures Backed(i, d, q, id) {
      EffectBacked(i, d, g, p, peer, r, id);
    }
  }

  lemma NoticeFounded(i: State, d: Directory, p: Proc, r: Rpc)
    requires Founded(i, d, p)
    ensures Founded(i, d, Notice(p, r))
  {
    hide SubsysBacked;
    var q := Notice(p, r);
    forall n | n in q.subsystems ensures SubsysBacked(i, d, q, n) {
      SameSubsystems(i, d, p, q, n);
      assert SubsysBacked(i, d, p, n);
    }
    forall id | id in q.nvme ensures Backed(i, d, q, id) {
      assert Backed(i, d, p, id);
      SameSubsystems(i, d, p, q, q.nvme[id].cfg.nqn);
    }
  }

  lemma SameSubsystems(i: State, d: Directory, p: Proc, q: Proc, n: string)
    requires q.subsystems == p.subsystems
    ensures SubsysBacked(i, d, p, n) <==> SubsysBacked(i, d, q, n)
  {
  }

  lemma StepFounded(i: State, d: Directory, w: World, m: Msg)
    requires Enabled(w, m) && OneWay(m) && Stated(d, m) && Founded(i, d, w.dst)
    ensures Founded(i, d, Step(w, m).dst)
  {
    hide Founded, Accepts, Effect, Notice, OneWay, Stated;
    if m.side == Src {
      NoticeFounded(i, d, w.dst, m.rpc);
    } else {
      EffectFounded(i, d, w.setting, w.dst, w.src, m.rpc);
    }
  }

  lemma StartsFounded(i: State, d: Directory)
    requires Ready(i, d)
    ensures Founded(i, d, i.world.dst) && Keyed(d)
  {
    hide ReadyDisks;
    forall id | id in d.vblk ensures d.vblk[id].id == id {
      assert ReadyVblk(i, d, id);
    }
    forall id | id in d.nvme ensures d.nvme[id].cfg.id == id {
      assert ReadyNvme(i, d, id);
    }
  }

  lemma {:induction false} FoundedUpTo(i: State, d: Directory, log: seq<Msg>, k: nat)
    requires Ready(i, d) && Feasible(i.world, log) && SafeRun(i, d, log) && Orderly(d, log) && k <= |log|
    ensures Founded(i, d, At(i, log, k).dst)
    decreases k
  {
    hide Ready, Founded, Enabled, Step, OneWay, MayFollow, Stated, RemovalDue, SafeRun, Feasible, At;
    if k == 0 {
      AtStart(i, log);
      StartsFounded(i, d);
    } else {
      FoundedUpTo(i, d, log, k - 1);
      OneMore(i, d, log, k - 1);
      assert InOrder(d, Last(log[..k - 1]), log[k - 1]);
      StepFounded(i, d, At(i, log, k - 1), log[k - 1]);
    }
  }

  // After every RPC, whatever the destination has rests on objects that it has.
  lemma AlwaysFounded(i: State, d: Directory, vblkPfs: seq<Pf>, nvmePfs: seq<Pf>, k: nat)
    requires Launch(i, d, vblkPfs, nvmePfs) && k <= |RunLog(i, d, vblkPfs, nvmePfs)|
    ensures Founded(i, d, At(i, RunLog(i, d, vblkPfs, nvmePfs), k).dst)
  {
    hide Upgrade, Ready, Founded, SafeRun, Enabled, Replay, Orderly, Keyed, TreeOk;
    NeverStuck(i, d, vblkPfs, nvmePfs);
    StartsFounded(i, d);
    assert i.log == [] by { ReadyLog(i, d); }
    RunOrderly(d, i, vblkPfs, nvmePfs);
    FoundedUpTo(i, d, RunLog(i, d, vblkPfs, nvmePfs), k);
  }

  lemma EndFounded(i: State, d: Directory, vblkPfs: seq<Pf>, nvmePfs: seq<Pf>)
    requires Launch(i, d, vblkPfs, nvmePfs)
    ensures Founded(i, d, RunEnd(i, d, vblkPfs, nvmePfs).dst)
  {
    hide Launch, Upgrade, Founded, SafeRun, Enabled, Replay;
    NeverStuck(i, d, vblkPfs, nvmePfs);
    AlwaysFounded(i, d, vblkPfs, nvmePfs, |RunLog(i, d, vblkPfs, nvmePfs)|);
  }

  lemma ReadyLog(i: State, d: Directory)
    requires Ready(i, d)
    ensures i.log == [] && i.trail == [] && i.failsAt == None
  {
    hide ReadyDisks, ReadyCtrls;
  }
  // ----- Handover -----

  ghost predicate VblkServes(p: Proc, id: Id) {
    id in p.vblk && p.vblk[id].phase == Serving
  }

  ghost predicate NvmeServes(p: Proc, id: Id) {
    id in p.nvme && p.nvme[id].phase == Serving
  }

  // After every RPC a virtio-blk controller exists somewhere and never has two
  // owners; it has none only between its live-update suspend and the very next RPC;
  // it is gone from the source only when an identical copy serves on the destination.
  lemma VblkHandover(i: State, d: Directory, vblkPfs: seq<Pf>, nvmePfs: seq<Pf>, k: nat, id: Id)
    requires Launch(i, d, vblkPfs, nvmePfs)
    requires k <= |RunLog(i, d, vblkPfs, nvmePfs)| && id in d.vblk
    ensures var log := RunLog(i, d, vblkPfs, nvmePfs); var w := At(i, log, k);
      && (id in w.src.vblk || id in w.dst.vblk)
      && !(VblkServes(w.src, id) && VblkServes(w.dst, id))
      && (!VblkServes(w.src, id) && !VblkServes(w.dst, id) ==>
            k > 0 && log[k - 1] == Msg(Src, SuspendVblk(id, LiveUpdate)))
      && (id !in w.src.vblk ==> w.dst.vblk[id] == VblkDev(d.vblk[id], Serving))
      && (id in w.src.vblk ==> w.src.vblk[id].cfg == d.vblk[id])
      && (VblkServes(w.dst, id) && d.vblk[id].bdev.Some? ==> d.vblk[id].bdev.value in w.dst.disks)
  {
    hide Launch, Upgrade, Replay, NvmeSafe, DiskSafe, RemovalDue;
    NeverStuck(i, d, vblkPfs, nvmePfs);
    var log := RunLog(i, d, vblkPfs, nvmePfs);
    assert Safe(i, d, At(i, log, k), Last(log[..k]));
    assert VblkSafe(d, At(i, log, k), Last(log[..k]), id);
    if k > 0 {
      assert log[..k][k - 1] == log[k - 1];
    }
  }

  // After every RPC exactly one side serves an NVMe controller, and that side has
  // every namespace attached; when the destination serves, every disk is there. A copy
  // on the destination, passive or serving, always rests on a subsystem, namespaces and
  // disks that exist there.
  lemma NvmeHandover(i: State, d: Directory, vblkPfs: seq<Pf>, nvmePfs: seq<Pf>, k: nat, id: Id)
    requires Launch(i, d, vblkPfs, nvmePfs)
    requires k <= |RunLog(i, d, vblkPfs, nvmePfs)| && id in d.nvme
    ensures var w := At(i, RunLog(i, d, vblkPfs, nvmePfs), k);
      && (NvmeServes(w.src, id) <==> !NvmeServes(w.dst, id))
      && (NvmeServes(w.src, id) ==>
            w.src.nvme[id] == NvmeDev(d.nvme[id].cfg, NsMap(d.nvme[id].namespaces), Serving))
      && (NvmeServes(w.dst, id) ==>
            && w.dst.nvme[id] == NvmeDev(d.nvme[id].cfg, NsMap(d.nvme[id].namespaces), Serving)
            && DisksOn(w.dst, NsMap(d.nvme[id].namespaces)))
      && (id !in w.src.nvme ==> NvmeServes(w.dst, id))
      && (id in w.dst.nvme ==> Backed(i, d, w.dst, id))
  {
    hide Launch, Upgrade, Replay, VblkSafe, DiskSafe, RemovalDue, NsMap, Backed;
    NeverStuck(i, d, vblkPfs, nvmePfs);
    AlwaysFounded(i, d, vblkPfs, nvmePfs, k);
    var log := RunLog(i, d, vblkPfs, nvmePfs);
    assert Safe(i, d, At(i, log, k), Last(log[..k]));
    assert NvmeSafe(d, At(i, log, k), id);
  }

  // While the source serves a controller, the disks it uses are still on the source,
  // if no disk has fewer listed namespaces than attached ones.
  lemma SourceKeepsDisks(i: State, d: Directory, vblkPfs: seq<Pf>, nvmePfs: seq<Pf>, k: nat, b: Name)
    requires Launch(i, d, vblkPfs, nvmePfs)
    requires k <= |RunLog(i, d, vblkPfs, nvmePfs)| && Movable(i, b) && Slack(i, b) >= 0
    ensures var w := At(i, RunLog(i, d, vblkPfs, nvmePfs), k);
      LiveRefs(w.src, b) != {} ==> b in w.src.disks
  {
    hide Launch, Upgrade, Replay, VblkSafe, NvmeSafe, RemovalDue, LiveRefs, Slack;
    NeverStuck(i, d, vblkPfs, nvmePfs);
    var log := RunLog(i, d, vblkPfs, nvmePfs);
    assert Safe(i, d, At(i, log, k), Last(log[..k]));
    assert DiskSafe(i, At(i, log, k), b);
  }

  // ----- Which RPCs about controllers there are -----

  // The controllers are suspended, copied, attached, detached and destroyed exactly as the
  // plan of the function tree orders, RPC by RPC.
  lemma RunOrders(i: State, d: Directory, vblkPfs: seq<Pf>, nvmePfs: seq<Pf>)
    requires Launch(i, d, vblkPfs, nvmePfs)
    ensures Controllers(RunLog(i, d, vblkPfs, nvmePfs)) == Orders(RunPlan(d, vblkPfs, nvmePfs))
  {
    hide Upgrade, Ready, Orders, Controllers, RunPlan, SafeRun, Replay;
    NeverStuck(i, d, vblkPfs, nvmePfs);
    StartLog(i, d, vblkPfs, nvmePfs);
    ControllersInOrder(d, i, vblkPfs, nvmePfs);
    var plan := RunPlan(d, vblkPfs, nvmePfs);
    assert plan[..|plan|] == plan;
  }

  lemma StartLog(i: State, d: Directory, vblkPfs: seq<Pf>, nvmePfs: seq<Pf>)
    requires Launch(i, d, vblkPfs, nvmePfs)
    ensures i.log == []
  {
    hide ReadyDisks, ReadyCtrls, TreeOk;
  }

  // A virtual function of this physical one has this controller.
  ghost predicate Virtual(pf: Pf, id: Id) {
    exists vf :: vf in pf.vfs && vf.ctrl == Some(id)
  }

  // A destroy of a virtio-blk controller is forced exactly when the controller belongs to
  // a virtual function.
  lemma ForcedExactly(i: State, d: Directory, vblkPfs: seq<Pf>, nvmePfs: seq<Pf>, m: Msg)
    requires Launch(i, d, vblkPfs, nvmePfs) && m in RunLog(i, d, vblkPfs, nvmePfs) && m.rpc.DestroyVblk?
    ensures m.side == Src && (m.rpc.force <==> exists pf :: pf in vblkPfs && Virtual(pf, m.rpc.id))
  {
    hide Ready, RunLog, VblkTreePlan, NvmeTreePlan, Virtual, TreeIds, NoDup, PfOk;
    RunOrders(i, d, vblkPfs, nvmePfs);
    ControllersHave(RunLog(i, d, vblkPfs, nvmePfs), m);
    OrdersHave(RunPlan(d, vblkPfs, nvmePfs), m);
    TreeDestroys(d, i.world.setting.vblkVfs, vblkPfs, m);
  }

  lemma {:induction false} TreeDestroys(d: Directory, g: map<Id, set<Id>>, pfs: seq<Pf>, m: Msg)
    requires Order(m.side, m.rpc) in VblkTreePlan(d, pfs) && m.rpc.DestroyVblk?
    requires NoDup(TreeIds(pfs)) && forall pf | pf in pfs :: PfOk(g, pf)
    ensures m.side == Src && m.rpc.id in TreeIds(pfs)
    ensures m.rpc.force <==> exists pf :: pf in pfs && Virtual(pf, m.rpc.id)
    decreases |pfs|
  {
    hide NoDup, PfOk, VblkPfPlan, Virtual, PfIds, Elems;
    var own, rest := PfIds(pfs[0]), TreeIds(pfs[1..]);
    NoDupSplit(own, rest);
    InElems(own, m.rpc.id);
    InElems(rest, m.rpc.id);
    assert pfs == [pfs[0]] + pfs[1..];
    if Order(m.side, m.rpc) in VblkPfPlan(d, pfs[0]) {
      PfDestroys(d, g, pfs[0], m);
      forall pf | pf in pfs[1..] && Virtual(pf, m.rpc.id) ensures false {
        VirtualInTree(pfs[1..], pf, m.rpc.id);
      }
    } else {
      TreeDestroys(d, g, pfs[1..], m);
      if Virtual(pfs[0], m.rpc.id) {
        VirtualInPf(pfs[0], m.rpc.id);
      }
    }
  }

  lemma InElems(s: seq<Id>, id: Id)
    ensures id in Elems(s) <==> id in s
  {
  }

  lemma {:induction false} VirtualInVfs(vfs: seq<Func>, vf: Func, id: Id)
    requires vf in vfs && vf.ctrl == Some(id)
    ensures id in FuncIds(vfs)
    decreases |vfs|
  {
    if vf != vfs[0] {
      VirtualInVfs(vfs[1..], vf, id);
    }
  }

  lemma VirtualInPf(pf: Pf, id: Id)
    requires Virtual(pf, id)
    ensures id in PfIds(pf) && id in FuncIds(pf.vfs)
  {
    var vf :| vf in pf.vfs && vf.ctrl == Some(id);
    VirtualInVfs(pf.vfs, vf, id);
  }

  lemma {:induction false} VirtualInTree(pfs: seq<Pf>, pf: Pf, id: Id)
    requires pf in pfs && Virtual(pf, id)
    ensures id in TreeIds(pfs)
    decreases |pfs|
  {
    hide Virtual, PfIds;
    if pf == pfs[0] {
      VirtualInPf(pf, id);
    } else {
      VirtualInTree(pfs[1..], pf, id);
    }
  }

  lemma PfDestroys(d: Directory, g: map<Id, set<Id>>, pf: Pf, m: Msg)
    requires Order(m.side, m.rpc) in VblkPfPlan(d, pf) && m.rpc.DestroyVblk?
    requires NoDup(PfIds(pf)) && PfOk(g, pf)
    ensures m.side == Src && m.rpc.id in PfIds(pf) && (m.rpc.force <==> Virtual(pf, m.rpc.id))
  {
    hide NoDup, VblkVfsPlan, Virtual, FuncIds, VfOk, VfsOf, IsVf, Elems;
    var id := m.rpc.id;
    NoDupSplit(FuncId(pf.func), FuncIds(pf.vfs));
    InElems(FuncId(pf.func), id);
    InElems(FuncIds(pf.vfs), id);
    if Virtual(pf, id) {
      VirtualInPf(pf, id);
    }
    if Order(m.side, m.rpc) in VblkVfsPlan(d, pf.vfs) {
      VfsDestroy(d, pf.vfs, m);
      var vf :| vf in pf.vfs && vf.ctrl == Some(id);
      VirtualIs(pf, vf, id);
      VirtualInPf(pf, id);
    }
  }

  lemma VirtualIs(pf: Pf, vf: Func, id: Id)
    requires vf in pf.vfs && vf.ctrl == Some(id)
    ensures Virtual(pf, id)
  {
  }

  lemma {:induction false} VfsDestroy(d: Directory, vfs: seq<Func>, m: Msg)
    requires Order(m.side, m.rpc) in VblkVfsPlan(d, vfs) && m.rpc.DestroyVblk?
    ensures m.side == Src && m.rpc.force && exists vf :: vf in vfs && vf.ctrl == Some(m.rpc.id)
    decreases |vfs|
  {
    if Order(m.side, m.rpc) in VblkPlan(d, vfs[0]) {
      assert vfs[0] in vfs;
    } else {
      VfsDestroy(d, vfs[1..], m);
    }
  }

  // ----- The end -----

  lemma FinalVblk(i: State, d: Directory, vblkPfs: seq<Pf>, nvmePfs: seq<Pf>)
    requires Launch(i, d, vblkPfs, nvmePfs)
    ensures var w := RunEnd(i, d, vblkPfs, nvmePfs); var ids := Elems(TreeIds(vblkPfs));
      && w.dst.vblk.Keys == ids && (forall id | id in ids :: w.dst.vblk[id] == VblkDev(d.vblk[id], Serving))
      && w.src.vblk.Keys == d.vblk.Keys - ids
      && forall id | id in ids && d.vblk[id].bdev.Some? :: d.vblk[id].bdev.value in w.dst.disks
  {
    hide Launch, Upgrade, Ready, DestBook, SrcBook, Traced, TreeIds, TreeOk, Elems;
    RunWorks(i, d, vblkPfs, nvmePfs);
    Launched(i, d, vblkPfs, nvmePfs);
    var w := RunEnd(i, d, vblkPfs, nvmePfs);
    forall id | id in Elems(TreeIds(vblkPfs)) ensures id in w.dst.vblk && VblkAway(d, w, id) {
      assert VblkSettled(d, w, id);
    }
  }

  // The destination ends with a serving copy of every NVMe controller, and with the
  // subsystem, the namespaces and the disks that each of them needs.
  lemma FinalNvme(i: State, d: Directory, vblkPfs: seq<Pf>, nvmePfs: seq<Pf>)
    requires Launch(i, d, vblkPfs, nvmePfs)
    ensures var w := RunEnd(i, d, vblkPfs, nvmePfs); var ids := Elems(TreeIds(nvmePfs));
      && w.dst.nvme.Keys == ids
      && (forall id | id in ids ::
            w.dst.nvme[id] == NvmeDev(d.nvme[id].cfg, NsMap(d.nvme[id].namespaces), Serving))
      && w.src.nvme.Keys == d.nvme.Keys - ids
      && (forall id | id in ids :: DisksOn(w.dst, NsMap(d.nvme[id].namespaces)))
      && (forall id | id in ids :: id in w.dst.nvme && Backed(i, d, w.dst, id))
  {
    hide Launch, Upgrade, Ready, DestBook, SrcBook, Traced, TreeIds, TreeOk, NsMap, DisksOn, Elems, Backed;
    RunWorks(i, d, vblkPfs, nvmePfs);
    Launched(i, d, vblkPfs, nvmePfs);
    EndFounded(i, d, vblkPfs, nvmePfs);
    var w := RunEnd(i, d, vblkPfs, nvmePfs);
    forall id | id in Elems(TreeIds(nvmePfs)) ensures id in w.dst.nvme && NvmeAway(d, w, id) {
      assert NvmeSettled(d, w, id);
    }
  }

  // The books agree with the two processes when the run ends, and a disk of the
  // destination is the original, rebuilt.
  lemma FinalBooks(i: State, d: Directory, vblkPfs: seq<Pf>, nvmePfs: seq<Pf>, b: Name)
    requires Launch(i, d, vblkPfs, nvmePfs) && Movable(i, b)
    ensures var s := Upgrade(d, i, vblkPfs, nvmePfs).st;
      && b in s.bdevs
      && s.bdevs[b].used == |LiveRefs(s.world.src, b)| + Slack(i, b)
      && i.bdevs[b].info.blockSize > 0
      && (s.bdevs[b].created == 1 ==> b in s.world.dst.disks)
      && (b in s.world.dst.disks ==> s.world.dst.disks[b] == Rebuilt(i.bdevs[b].info))
  {
    hide Launch, Upgrade, Hand, Traced, SrcBases, SrcDisks, LiveRefs, Slack, ReadyCtrls, Blank;
    RunWorks(i, d, vblkPfs, nvmePfs);
    var s := Upgrade(d, i, vblkPfs, nvmePfs).st;
    assert ReadyDisk(i, b) && Count(i, s, None, b) && DestDisk(i, s, b);
  }

  // A base is on the destination exactly when the books say so, under the transport id
  // it has on the source.
  lemma FinalBase(i: State, d: Directory, vblkPfs: seq<Pf>, nvmePfs: seq<Pf>, x: Name)
    requires Launch(i, d, vblkPfs, nvmePfs) && x in i.bases
    ensures var s := Upgrade(d, i, vblkPfs, nvmePfs).st;
      && x in s.bases && x in i.world.src.bases
      && (x in s.world.dst.bases <==> s.bases[x].created == 1)
      && (x in s.world.dst.bases ==> s.world.dst.bases[x] == i.world.src.bases[x])
  {
    hide Launch, Upgrade, Hand, Traced, SrcBook, ReadyCtrls, Blank;
    RunWorks(i, d, vblkPfs, nvmePfs);
    assert DestBase(i, Upgrade(d, i, vblkPfs, nvmePfs).st, x);
  }

  // Every namespace of the destination is the source's, on a disk that is there.
  lemma FinalNamespace(i: State, d: Directory, vblkPfs: seq<Pf>, nvmePfs: seq<Pf>, k: NsKey)
    requires Launch(i, d, vblkPfs, nvmePfs) && k in RunEnd(i, d, vblkPfs, nvmePfs).dst.namespaces
    ensures var p := RunEnd(i, d, vblkPfs, nvmePfs).dst;
      && k in i.world.src.namespaces && p.namespaces[k] == i.world.src.namespaces[k]
      && p.namespaces[k].bdev in p.disks && k.nqn in p.subsystems
  {
    hide Launch, Upgrade, Ready, Hand, Traced, SrcBook, SubsysBacked, Backed;
    RunWorks(i, d, vblkPfs, nvmePfs);
    EndFounded(i, d, vblkPfs, nvmePfs);
    assert DestNs(i, Upgrade(d, i, vblkPfs, nvmePfs).st, k);
  }

  // A byte count is kept by the division exactly when doubles can hold it, as they can
  // every count below 2^53; otherwise it moves by at most half a spacing.
  lemma RoundedExactly(n: nat)
    ensures Rounded(n) == n <==> n % Spacing(n) == 0
    ensures n < EXACT ==> Rounded(n) == n
    ensures Rounded(n) <= n ==> 2 * (n - Rounded(n)) <= Spacing(n)
    ensures Rounded(n) >= n ==> 2 * (Rounded(n) - n) <= Spacing(n)
  {
    hide Nearest, Spacing;
    var u := Spacing(n);
    NearestIs(n, n / u, n % u, u);
    assert n < EXACT ==> u == 1 by { SmallSpacing(n); }
  }

  lemma HalfQuotient(n: nat, u: nat)
    requires u > 0
    ensures n / (2 * u) == n / 2 / u
  {
    var q, r := n / 2 / u, n / 2 % u;
    assert n / 2 == u * q + r;
    assert 2 * u * q == 2 * (u * q);
    QuotientIs(n, 2 * u, q);
  }

  // Doubles have 53 bits: from 2^53 on a size counts between 2^52 and 2^53 units of the
  // spacing.
  lemma {:induction false} SpacingIs(n: nat)
    ensures n < 0x20_0000_0000_0000 ==> Spacing(n) == 1
    ensures n >= 0x20_0000_0000_0000 ==> 0x10_0000_0000_0000 <= n / Spacing(n) < 0x20_0000_0000_0000
  {
    SmallSpacing(n);
    if n >= EXACT {
      var u := Spacing(n / 2);
      assert Spacing(n) == 2 * u;
      hide Spacing;
      SpacingIs(n / 2);
      HalfQuotient(n, u);
      assert n / 2 < EXACT ==> n / 2 / u == n / 2;
    }
  }

  // Of two doubles equally near to a size the one with the even count is taken.
  lemma TieToEven(n: nat)
    requires 2 * (n % Spacing(n)) == Spacing(n)
    ensures Rounded(n) / Spacing(n) % 2 == 0
  {
    hide Spacing;
    var u := Spacing(n);
    var q := n / u;
    var even := if q % 2 == 0 then q else q + 1;
    assert (q + 1) * u == q * u + u;
    assert Rounded(n) == even * u;
    QuotientIs(even * u, u, even);
  }

  lemma SmallSpacing(n: nat)
    ensures n < EXACT ==> Spacing(n) == 1
  {
  }

  lemma NearestIs(n: nat, q: nat, r: nat, u: nat)
    requires u > 0 && n == u * q + r && r < u
    ensures var m := Nearest(q, r, u);
      && (m == n <==> r == 0)
      && (m <= n ==> 2 * (n - m) <= u) && (m >= n ==> 2 * (m - n) <= u)
  {
    assert q * u == n - r;
  }

  lemma {:induction false} SpacingDivides(n: nat, k: nat)
    requires n < EXACT * TwoTo(k)
    ensures TwoTo(k) % Spacing(n) == 0
    decreases k
  {
    if n >= EXACT {
      SpacingDivides(n / 2, k - 1);
      var u, p := Spacing(n / 2), TwoTo(k - 1);
      assert p == u * (p / u);
      assert 2 * p == 2 * u * (p / u);
      Quotient(2 * p, 2 * u, p / u);
    }
  }

  function TwoTo(k: nat): (p: nat)
    ensures p > 0
  {
    if k == 0 then 1 else 2 * TwoTo(k - 1)
  }

  // So can every size of less than 2^53 blocks, for blocks of a power of two.
  lemma BlocksExact(k: nat, blocks: nat)
    requires blocks < EXACT
    ensures Rounded(TwoTo(k) * blocks) == TwoTo(k) * blocks
  {
    hide Rounded, Spacing, TwoTo;
    var p := TwoTo(k);
    var n := p * blocks;
    assert n < EXACT * p by { MulMono(p, blocks, EXACT - 1); }
    SpacingDivides(n, k);
    var u := Spacing(n);
    assert p == u * (p / u);
    assert n == u * (p / u * blocks);
    ModOfProduct(u, p / u * blocks);
    RoundedExactly(n);
  }

  lemma ModOfProduct(u: nat, x: nat)
    requires u > 0
    ensures u * x % u == 0
  {
    Quotient(u * x, u, x);
  }

  // A rebuilt disk is as large as the original if and only if the size asked for, in
  // whole MiB, reaches the original's bytes and not another block. When doubles hold the
  // byte count, that is exactly when it is a whole number of MiB; otherwise the copy
  // falls short, by less than a MiB when blocks divide a MiB, and by less than a MiB and
  // a block in any case.
  lemma RebuiltSize(info: Bdev)
    requires info.blockSize > 0 && !info.product.NvmeDisk?
    ensures var bytes := info.blockSize * info.numBlocks; var copy := Rebuilt(info);
      var asked := SizeMib(info) * MIB;
      && copy.blockSize == info.blockSize && copy.uuid == info.uuid && copy.name == info.name
      && copy.product == info.product
      && (copy.numBlocks == info.numBlocks <==> bytes <= asked < bytes + info.blockSize)
      && (Rounded(bytes) == bytes ==>
            && (copy.numBlocks == info.numBlocks <==> bytes % MIB == 0)
            && copy.numBlocks <= info.numBlocks
            && bytes - copy.blockSize * copy.numBlocks < MIB + info.blockSize
            && (MIB % info.blockSize == 0 ==> bytes - copy.blockSize * copy.numBlocks < MIB)
            && 0 <= bytes - asked < MIB)
  {
    hide Rounded;
    var bytes := info.blockSize * info.numBlocks;
    var asked := SizeMib(info) * MIB;
    QuotientIs(asked, info.blockSize, info.numBlocks);
    if Rounded(bytes) == bytes {
      assert bytes == asked + bytes % MIB;
      Quotient(asked, info.blockSize, info.numBlocks);
      if MIB % info.blockSize == 0 {
        WholeBlocks(SizeMib(info), MIB, info.blockSize);
      }
    }
  }

  lemma QuotientIs(a: nat, n: nat, q: nat)
    requires n > 0
    ensures a / n == q <==> n * q <= a < n * q + n
  {
    var p := a / n;
    assert a == n * p + a % n;
    if p < q {
      MulMono(n, p + 1, q);
      assert n * (p + 1) == n * p + n;
    } else if p > q {
      MulMono(n, q + 1, p);
      assert n * (q + 1) == n * q + n;
    }
  }

  lemma WholeBlocks(k: nat, m: nat, n: nat)
    requires n > 0 && m % n == 0
    ensures n * (k * m / n) == k * m
  {
    var q := m / n;
    assert m == n * q;
    assert k * m == n * (k * q);
    Quotient(k * m, n, k * q);
  }

  lemma Quotient(a: nat, n: nat, q: nat)
    requires n > 0 && a <= n * q
    ensures a / n <= q && (a / n == q <==> a == n * q)
    ensures a - n * (a / n) < n
  {
    assert a == n * (a / n) + a % n;
    if a == n * q && a / n < q {
      MulMono(n, a / n, q - 1);
      assert false;
    }
  }

  lemma MulMono(n: nat, x: nat, y: nat)
    requires x <= y
    ensures n * x <= n * y
  {
    assert n * y == n * x + n * (y - x);
  }

  // ----- Nothing is created twice -----

  datatype Thing =
    | BaseThing(base: Name) | DiskThing(disk: Name) | SubsysThing(nqn: string)
    | NsThing(key: NsKey) | UuidThing(uuid: string) | VblkThing(vblk: Id) | NvmeThing(nvme: Id)

  ghost function Makes(r: Rpc): set<Thing> {
    match r
    case AttachBase(base, _) => {BaseThing(base)}
    case CreateNull(name, _, _, _) => {DiskThing(name)}
    case CreateMalloc(name, _, _, _) => {DiskThing(name)}
    case CreateSubsystem(subsys) => {SubsysThing(subsys.nqn)}
    case CreateNamespace(nqn, ns) => {NsThing(NsKey(nqn, ns.nsid)), UuidThing(ns.uuid)}
    case CreateVblk(cfg, _, _) => {VblkThing(cfg.id)}
    case CreateNvme(cfg, _, _) => {NvmeThing(cfg.id)}
    case _ => {}
  }

  ghost predicate Has(p: Proc, t: Thing) {
    match t
    case BaseThing(base) => base in p.bases
    case DiskThing(disk) => disk in p.disks
    case SubsysThing(nqn) => nqn in p.subsystems
    case NsThing(key) => key in p.namespaces
    case UuidThing(uuid) => UuidTaken(p, uuid)
    case VblkThing(id) => id in p.vblk
    case NvmeThing(id) => id in p.nvme
  }

  lemma StepKeeps(w: World, m: Msg, t: Thing)
    requires Enabled(w, m) && OneWay(m) && Has(w.dst, t)
    ensures Has(Step(w, m).dst, t)
  {
    if t.UuidThing? {
      var k :| k in w.dst.namespaces && w.dst.namespaces[k].uuid == t.uuid;
      assert k in Step(w, m).dst.namespaces && Step(w, m).dst.namespaces[k].uuid == t.uuid;
    }
  }

  lemma StepMakes(w: World, m: Msg, t: Thing)
    requires Enabled(w, m) && OneWay(m) && t in Makes(m.rpc)
    ensures !Has(w.dst, t) && Has(Step(w, m).dst, t)
  {
    if t.UuidThing? {
      var k := NsKey(m.rpc.nqn, m.rpc.ns.nsid);
      assert k in Step(w, m).dst.namespaces && Step(w, m).dst.namespaces[k].uuid == t.uuid;
    }
  }

  lemma {:induction false} StaysMade(i: State, d: Directory, log: seq<Msg>, j: nat, k: nat, t: Thing)
    requires Feasible(i.world, log) && SafeRun(i, d, log) && j < k <= |log| && t in Makes(log[j].rpc)
    ensures Has(At(i, log, k).dst, t)
  {
    hide Enabled, Step, Has, Replay, OneWay, RemovalDue, SafeRun, Feasible;
    OneMore(i, d, log, k - 1);
    if j == k - 1 {
      StepMakes(At(i, log, j), log[j], t);
    } else {
      StaysMade(i, d, log, j, k - 1, t);
      StepKeeps(At(i, log, k - 1), log[k - 1], t);
    }
  }

  // Over a whole run, no base, disk, subsystem, namespace, uuid or controller is
  // created on the destination twice.
  lemma CreatedOnce(i: State, d: Directory, vblkPfs: seq<Pf>, nvmePfs: seq<Pf>, j: nat, k: nat, t: Thing)
    requires Launch(i, d, vblkPfs, nvmePfs)
    requires j < |RunLog(i, d, vblkPfs, nvmePfs)| && k < |RunLog(i, d, vblkPfs, nvmePfs)|
    requires t in Makes(RunLog(i, d, vblkPfs, nvmePfs)[j].rpc)
    requires t in Makes(RunLog(i, d, vblkPfs, nvmePfs)[k].rpc)
    ensures j == k
  {
    if j > k {
      CreatedOnce(i, d, vblkPfs, nvmePfs, k, j, t);
    } else if j < k {
      NeverStuck(i, d, vblkPfs, nvmePfs);
      hide Launch, Upgrade, Enabled, Step, Has, Replay, Makes, Safe;
      var log := RunLog(i, d, vblkPfs, nvmePfs);
      StaysMade(i, d, log, j, k, t);
      OneMore(i, d, log, k);
      StepMakes(At(i, log, k), log[k], t);
    }
  }

  // ----- The source's disks and bases go exactly when they should -----

  // The RPC that removes a Null or Malloc disk.
  ghost predicate Deletes(m: Msg, b: Name) {
    m == Msg(Src, DeleteNull(b)) || m == Msg(Src, DeleteMalloc(b))
  }

  ghost predicate Sized(i: State, b: Name) {
    b in i.bdevs && (i.bdevs[b].info.product.NullDisk? || i.bdevs[b].info.product.MallocDisk?)
  }

  ghost predicate BasesShrink(i: State, w: World) {
    && w.setting == i.world.setting
    && forall x | x in w.src.bases :: x in i.world.src.bases && w.src.bases[x] == i.world.src.bases[x]
  }

  lemma EffectOnDisk(g: Setting, p: Proc, peer: Proc, r: Rpc, b: Name)
    requires Accepts(g, p, r) && OneWay(Msg(Src, r))
    requires r.DetachBase? ==> b !in Exported(g, r.base, p.bases[r.base])
    ensures b in Effect(g, p, peer, r).disks <==> b in p.disks && !Deletes(Msg(Src, r), b)
    ensures Effect(g, p, peer, r).bases.Keys <= p.bases.Keys
    ensures forall x | x in Effect(g, p, peer, r).bases :: Effect(g, p, peer, r).bases[x] == p.bases[x]
  {
    hide Exported, VfsOf, IsVf;
  }

  lemma NoticeKeepsDisks(peer: Proc, r: Rpc)
    ensures Notice(peer, r).bases == peer.bases && Notice(peer, r).disks == peer.disks
  {
  }

  lemma StepDisk(i: State, w: World, m: Msg, b: Name)
    requires ReadyDisks(i) && Enabled(w, m) && OneWay(m) && BasesShrink(i, w) && Sized(i, b)
    ensures BasesShrink(i, Step(w, m))
    ensures b in Step(w, m).src.disks <==> b in w.src.disks && !Deletes(m, b)
  {
    assert ReadyDisk(i, b);
    if m.side == Src {
      if m.rpc.DetachBase? {
        var x := m.rpc.base;
        assert x in w.src.bases;
        assert ReadyBase(i, x);
        assert b !in OnBase(i, x);
      }
      EffectOnDisk(w.setting, w.src, w.dst, m.rpc, b);
    } else {
      NoticeKeepsDisks(w.src, m.rpc);
    }
    hide Effect, Notice, Accepts, ReadyDisks, ReadyBase, Exported;
  }

  // A sized disk is on the source until the RPC that deletes it.
  lemma {:induction false} DiskUntilDeleted(i: State, d: Directory, log: seq<Msg>, k: nat, b: Name)
    requires ReadyDisks(i) && Feasible(i.world, log) && SafeRun(i, d, log) && k <= |log| && Sized(i, b)
    ensures BasesShrink(i, At(i, log, k))
    ensures b in At(i, log, k).src.disks <==> forall j | 0 <= j < k :: !Deletes(log[j], b)
  {
    hide Enabled, Step, OneWay, Deletes, BasesShrink, RemovalDue, SafeRun, Feasible, At;
    if k == 0 {
      AtStart(i, log);
      StartsThere(i, b);
    } else {
      hide ReadyDisks, Sized;
      DiskUntilDeleted(i, d, log, k - 1, b);
      OneMore(i, d, log, k - 1);
      StepDisk(i, At(i, log, k - 1), log[k - 1], b);
    }
  }

  lemma StartsThere(i: State, b: Name)
    requires ReadyDisks(i) && b in i.bdevs
    ensures b in i.world.src.disks && BasesShrink(i, i.world)
  {
    assert ReadyDisk(i, b);
  }

  // Where the counts end when every controller has been moved.
  lemma EndCounts(i: State, d: Directory, vblkPfs: seq<Pf>, nvmePfs: seq<Pf>, b: Name)
    requires Launch(i, d, vblkPfs, nvmePfs) && Complete(d, vblkPfs, nvmePfs) && b in i.bdevs
    ensures var s := Upgrade(d, i, vblkPfs, nvmePfs).st;
      && Inv(i, d, s) && b in s.bdevs && s.bdevs[b].used == Slack(i, b)
      && (Spent(i, s, b) <==> i.bdevs[b].used >= 1 && Slack(i, b) <= 0)
  {
    hide Launch, Upgrade, Ready, DestBook, Hand, Traced, SrcBases, SrcDisks, Slack;
    RunWorks(i, d, vblkPfs, nvmePfs);
    var s := Upgrade(d, i, vblkPfs, nvmePfs).st;
    assert Count(i, s, None, b);
    assert VblkRefs(s.world.src, b) == {} && NsRefs(s.world.src, b) == {};
  }

  lemma Stands(i: State, d: Directory, vblkPfs: seq<Pf>, nvmePfs: seq<Pf>)
    requires Launch(i, d, vblkPfs, nvmePfs)
    ensures ReadyDisks(i)
  {
    hide ReadyDisks, ReadyCtrls, TreeOk;
  }

  // Over a run that moves every controller, a Null or Malloc disk is deleted on the
  // source at most once, and exactly when it was counted at least once and not
  // counted more often than it was referenced. At that moment the references still
  // held are those that were not counted: none, when every namespace was listed as
  // often as it was attached.
  lemma DeletedExactly(i: State, d: Directory, vblkPfs: seq<Pf>, nvmePfs: seq<Pf>, b: Name)
    requires Launch(i, d, vblkPfs, nvmePfs) && Complete(d, vblkPfs, nvmePfs) && Sized(i, b)
    ensures var log := RunLog(i, d, vblkPfs, nvmePfs);
      && ((exists k :: 0 <= k < |log| && Deletes(log[k], b)) <==> i.bdevs[b].used >= 1 && Slack(i, b) <= 0)
      && (forall j, k | 0 <= j < |log| && 0 <= k < |log| && Deletes(log[j], b) && Deletes(log[k], b) :: j == k)
      && (forall k | 0 <= k < |log| && Deletes(log[k], b) ::
            |LiveRefs(At(i, log, k + 1).src, b)| == -Slack(i, b))
  {
    hide Launch, Upgrade, ReadyDisks, Ready, DestBook, Hand, Traced, SrcBases, Counts, Slack, LiveRefs,
         Replay, SafeRun, Enabled;
    NeverStuck(i, d, vblkPfs, nvmePfs);
    EndCounts(i, d, vblkPfs, nvmePfs, b);
    Stands(i, d, vblkPfs, nvmePfs);
    var s := Upgrade(d, i, vblkPfs, nvmePfs).st;
    var log := RunLog(i, d, vblkPfs, nvmePfs);
    assert SrcDisk(i, s, b);
    DiskUntilDeleted(i, d, log, |log|, b);
    forall k | 0 <= k < |log| && Deletes(log[k], b)
      ensures |LiveRefs(At(i, log, k + 1).src, b)| == -Slack(i, b)
      ensures forall j | 0 <= j < k :: !Deletes(log[j], b)
    {
      DeletedWhen(i, d, log, k, b);
    }
  }

  lemma DeletedWhen(i: State, d: Directory, log: seq<Msg>, k: nat, b: Name)
    requires ReadyDisks(i) && Feasible(i.world, log) && SafeRun(i, d, log) && Sized(i, b)
    requires k < |log| && Deletes(log[k], b)
    ensures |LiveRefs(At(i, log, k + 1).src, b)| == -Slack(i, b)
    ensures forall j | 0 <= j < k :: !Deletes(log[j], b)
  {
    hide ReadyDisks, Slack, LiveRefs, SafeRun, Feasible, At;
    OneMore(i, d, log, k);
    DiskUntilDeleted(i, d, log, k, b);
  }

  // Read for one disk: it is deleted with no reference left, and deleted at all,
  // exactly when it had a reference and every one was counted.
  lemma DeletedAtLastReference(i: State, d: Directory, vblkPfs: seq<Pf>, nvmePfs: seq<Pf>, b: Name)
    requires Launch(i, d, vblkPfs, nvmePfs) && Complete(d, vblkPfs, nvmePfs) && Sized(i, b)
    ensures var log := RunLog(i, d, vblkPfs, nvmePfs);
      (exists k :: 0 <= k < |log| && Deletes(log[k], b) && LiveRefs(At(i, log, k + 1).src, b) == {})
      <==> Slack(i, b) == 0 && LiveRefs(i.world.src, b) != {}
  {
    hide Launch, Upgrade, Replay, Deletes, LiveRefs, Complete;
    DeletedExactly(i, d, vblkPfs, nvmePfs, b);
    var log := RunLog(i, d, vblkPfs, nvmePfs);
    if Slack(i, b) == 0 && LiveRefs(i.world.src, b) != {} {
      assert |LiveRefs(i.world.src, b)| >= 1;
      var k :| 0 <= k < |log| && Deletes(log[k], b);
      assert |LiveRefs(At(i, log, k + 1).src, b)| == 0;
    }
  }

  // ----- Base controllers -----

  lemma EffectOnBase(g: Setting, p: Proc, peer: Proc, r: Rpc, x: Name)
    requires Accepts(g, p, r) && !r.AttachBase?
    ensures x in Effect(g, p, peer, r).bases <==> x in p.bases && r != DetachBase(x)
  {
    hide Exported, VfsOf, IsVf;
  }

  lemma StepBase(w: World, m: Msg, x: Name)
    requires Enabled(w, m) && OneWay(m)
    ensures x in Step(w, m).src.bases <==> x in w.src.bases && m != Msg(Src, DetachBase(x))
  {
    hide Effect, Notice, Accepts;
    if m.side == Src {
      EffectOnBase(w.setting, w.src, w.dst, m.rpc, x);
    } else {
      NoticeKeepsDisks(w.src, m.rpc);
    }
  }

  lemma {:induction false} BaseUntilDetached(i: State, d: Directory, log: seq<Msg>, k: nat, x: Name)
    requires Feasible(i.world, log) && SafeRun(i, d, log) && k <= |log| && x in i.world.src.bases
    ensures x in At(i, log, k).src.bases <==> forall j | 0 <= j < k :: log[j] != Msg(Src, DetachBase(x))
  {
    hide Enabled, Step, OneWay, RemovalDue, SafeRun, Feasible, At;
    if k == 0 {
      AtStart(i, log);
    } else {
      BaseUntilDetached(i, d, log, k - 1, x);
      OneMore(i, d, log, k - 1);
      StepBase(At(i, log, k - 1), log[k - 1], x);
    }
  }

  lemma DetachedWhen(i: State, d: Directory, log: seq<Msg>, k: nat, x: Name)
    requires Feasible(i.world, log) && SafeRun(i, d, log) && x in i.world.src.bases
    requires k < |log| && log[k] == Msg(Src, DetachBase(x))
    ensures forall b | b in OnBase(i, x) :: RanOut(i, At(i, log, k + 1), b)
    ensures exists b :: b in OnBase(i, x) && AllReleased(i, At(i, log, k + 1), b)
    ensures forall j | 0 <= j < k :: log[j] != Msg(Src, DetachBase(x))
  {
    hide Replay, RanOut, AllReleased, SafeRun, Feasible, At;
    OneMore(i, d, log, k);
    BaseUntilDetached(i, d, log, k, x);
  }

  lemma EndBase(i: State, d: Directory, vblkPfs: seq<Pf>, nvmePfs: seq<Pf>, x: Name)
    requires Launch(i, d, vblkPfs, nvmePfs) && x in i.bases
    ensures var s := Upgrade(d, i, vblkPfs, nvmePfs).st;
      Frame(i, s) && SrcBase(i, s, x) && x in i.world.src.bases
  {
    hide Launch, Upgrade, Ready, DestBook, Hand, Traced, SrcDisks, Counts;
    RunWorks(i, d, vblkPfs, nvmePfs);
    Stands(i, d, vblkPfs, nvmePfs);
  }

  lemma BaseAtEnd(i: State, d: Directory, vblkPfs: seq<Pf>, nvmePfs: seq<Pf>, x: Name)
    requires Launch(i, d, vblkPfs, nvmePfs) && Complete(d, vblkPfs, nvmePfs) && x in i.bases
    ensures x in i.world.src.bases
    ensures x in RunEnd(i, d, vblkPfs, nvmePfs).src.bases <==>
      OnBase(i, x) == {} || exists b :: b in OnBase(i, x) && !(i.bdevs[b].used >= 1 && Slack(i, b) <= 0)
  {
    hide Launch, Upgrade, Slack, Complete, TreeIds, Spent, Inv;
    EndBase(i, d, vblkPfs, nvmePfs, x);
    var s := Upgrade(d, i, vblkPfs, nvmePfs).st;
    forall b | b in OnBase(i, x)
      ensures b in s.bdevs && (Spent(i, s, b) <==> i.bdevs[b].used >= 1 && Slack(i, b) <= 0)
    {
      EndCounts(i, d, vblkPfs, nvmePfs, b);
    }
    if OnBase(i, x) != {} {
      if Unspent(i, s, x) != {} {
        var b :| b in Unspent(i, s, x);
        assert b in OnBase(i, x) && !Spent(i, s, b);
      } else {
        forall b | b in OnBase(i, x) ensures Spent(i, s, b) {
          assert b !in Unspent(i, s, x);
        }
      }
    }
  }

  // Over a run that moves every controller, a base is detached at most once, only
  // when the count of every disk on it has run out, and exactly when it has a disk
  // and every one of them was counted but not too often. At that moment each of its
  // disks has at most its uncounted references left, and the one released last exactly
  // those.
  lemma DetachedExactly(i: State, d: Directory, vblkPfs: seq<Pf>, nvmePfs: seq<Pf>, x: Name)
    requires Launch(i, d, vblkPfs, nvmePfs) && Complete(d, vblkPfs, nvmePfs) && x in i.bases
    ensures var log := RunLog(i, d, vblkPfs, nvmePfs); var m := Msg(Src, DetachBase(x));
      && (m in log <==>
            OnBase(i, x) != {} && forall b | b in OnBase(i, x) :: i.bdevs[b].used >= 1 && Slack(i, b) <= 0)
      && (forall j, k | 0 <= j < |log| && 0 <= k < |log| && log[j] == m && log[k] == m :: j == k)
      && (forall k, b | 0 <= k < |log| && log[k] == m && b in OnBase(i, x) ::
            |LiveRefs(At(i, log, k + 1).src, b)| <= -Slack(i, b))
      && (forall k | 0 <= k < |log| && log[k] == m ::
            exists b :: b in OnBase(i, x) && |LiveRefs(At(i, log, k + 1).src, b)| == -Slack(i, b))
  {
    hide Launch, Upgrade, Slack, LiveRefs, Replay, SafeRun, Enabled, Complete, TreeIds, OnBase, At;
    BaseAtEnd(i, d, vblkPfs, nvmePfs, x);
    var log := RunLog(i, d, vblkPfs, nvmePfs);
    Runs(i, d, vblkPfs, nvmePfs);
    BaseUntilDetached(i, d, log, |log|, x);
    DetachMoments(i, d, log, x);
  }

  // A run as the lemmas about its log take it.
  lemma Runs(i: State, d: Directory, vblkPfs: seq<Pf>, nvmePfs: seq<Pf>)
    requires Launch(i, d, vblkPfs, nvmePfs)
    ensures var log := RunLog(i, d, vblkPfs, nvmePfs);
      && Feasible(i.world, log) && SafeRun(i, d, log)
      && At(i, log, |log|) == RunEnd(i, d, vblkPfs, nvmePfs)
  {
    hide Launch, Upgrade, Replay, SafeRun, Enabled;
    NeverStuck(i, d, vblkPfs, nvmePfs);
  }

  // A base is detached once, with these references left to its disks.
  lemma DetachMoments(i: State, d: Directory, log: seq<Msg>, x: Name)
    requires Feasible(i.world, log) && SafeRun(i, d, log) && x in i.world.src.bases
    ensures var m := Msg(Src, DetachBase(x));
      && (forall j, k | 0 <= j < |log| && 0 <= k < |log| && log[j] == m && log[k] == m :: j == k)
      && (forall k, b | 0 <= k < |log| && log[k] == m && b in OnBase(i, x) ::
            |LiveRefs(At(i, log, k + 1).src, b)| <= -Slack(i, b))
      && (forall k | 0 <= k < |log| && log[k] == m ::
            exists b :: b in OnBase(i, x) && |LiveRefs(At(i, log, k + 1).src, b)| == -Slack(i, b))
  {
    hide Slack, LiveRefs, SafeRun, Feasible, At;
    forall k | 0 <= k < |log| && log[k] == Msg(Src, DetachBase(x))
      ensures forall b | b in OnBase(i, x) :: RanOut(i, At(i, log, k + 1), b)
      ensures exists b :: b in OnBase(i, x) && AllReleased(i, At(i, log, k + 1), b)
      ensures forall j | 0 <= j < k :: log[j] != Msg(Src, DetachBase(x))
    {
      DetachedWhen(i, d, log, k, x);
    }
  }

  // Without disks that were counted too low, a base is detached exactly when each of its
  // disks had a reference and all were counted, and no reference to them is left then.
  lemma DetachedAtLastReference(i: State, d: Directory, vblkPfs: seq<Pf>, nvmePfs: seq<Pf>, x: Name)
    requires Launch(i, d, vblkPfs, nvmePfs) && Complete(d, vblkPfs, nvmePfs) && x in i.bases
    ensures var log := RunLog(i, d, vblkPfs, nvmePfs); var m := Msg(Src, DetachBase(x));
      && (forall k, b | 0 <= k < |log| && log[k] == m && b in OnBase(i, x) && Slack(i, b) >= 0 ::
            LiveRefs(At(i, log, k + 1).src, b) == {})
      && ((forall b | b in OnBase(i, x) :: Slack(i, b) >= 0) ==>
            (m in log <==>
               OnBase(i, x) != {}
               && forall b | b in OnBase(i, x) :: Slack(i, b) == 0 && LiveRefs(i.world.src, b) != {}))
  {
    hide Launch, Upgrade, Replay, LiveRefs, Complete;
    DetachedExactly(i, d, vblkPfs, nvmePfs, x);
  }
}
