/**
 A run as a flat list of actions, read off the function tree: which RPCs about
 controllers are sent, in which order and with which arguments, and where disks,
 subsystems and namespaces are asked for and let go in between.
 */
module UpgradePlan {
  import opened Common
  import opened UpgradeWorld
  import opened UpgradeSpec

  // One action: an RPC about a controller, a request for something on the destination, a
  // disk that one controller or namespace has stopped using, or a missing dictionary key.
  datatype Action =
    | Order(side: Side, rpc: Rpc)
    | NeedDisk(disk: Name)
    | NeedSubsys(subnqn: string)
    | NeedNs(nqn: string, ns: Ns)
    | LoseDisk(disk: Name)
    | Unknown

  predicate AboutVblk(r: Rpc) {
    r.SuspendVblk? || r.CreateVblk? || r.DestroyVblk?
  }

  predicate AboutNvme(r: Rpc) {
    r.SuspendNvme? || r.CreateNvme? || r.AttachNs? || r.DetachNs? || r.DestroyNvme?
  }

  predicate AboutController(r: Rpc) {
    AboutVblk(r) || AboutNvme(r)
  }

  predicate VblkOnly(plan: seq<Action>) {
    forall a | a in plan && a.Order? :: AboutVblk(a.rpc)
  }

  predicate NvmeOnly(plan: seq<Action>) {
    forall a | a in plan && a.Order? :: AboutNvme(a.rpc)
  }

  predicate Ordinary(plan: seq<Action>) {
    forall a | a in plan && a.Order? :: AboutController(a.rpc)
  }

  // ----- virtio-blk -----

  // Drop a controller on the source, then its disk.
  function VblkDropPlan(c: VblkCtrl, id: Id, force: bool): (plan: seq<Action>)
    ensures VblkOnly(plan)
  {
    [Order(Src, DestroyVblk(id, force))] + if c.bdev.Some? then [LoseDisk(c.bdev.value)] else []
  }

  // The disk, the two suspends, the passive copy; a virtual function is then dropped.
  function VblkPlan(d: Directory, f: Func): (plan: seq<Action>)
    ensures VblkOnly(plan)
  {
    if f.ctrl.None? then []
    else if f.ctrl.value !in d.vblk then [Unknown]
    else
      var id := f.ctrl.value;
      var c := d.vblk[id];
      (if c.bdev.Some? then [NeedDisk(c.bdev.value)] else [])
      + [Order(Src, SuspendVblk(id, EventsOnly)), Order(Src, SuspendVblk(c.id, LiveUpdate)),
         Order(Dst, CreateVblk(c, true, true))]
      + (if f.vfIndex.Some? then VblkDropPlan(c, id, true) else [])
  }

  function VblkVfsPlan(d: Directory, vfs: seq<Func>): (plan: seq<Action>)
    ensures VblkOnly(plan)
  {
    if vfs == [] then [] else VblkPlan(d, vfs[0]) + VblkVfsPlan(d, vfs[1..])
  }

  // A physical function, its virtual functions, and then the drop of the physical one.
  function VblkPfPlan(d: Directory, pf: Pf): (plan: seq<Action>)
    ensures VblkOnly(plan)
  {
    VblkPlan(d, pf.func) + VblkVfsPlan(d, pf.vfs)
    + if pf.func.ctrl.None? then []
      else if pf.func.ctrl.value !in d.vblk then [Unknown]
      else VblkDropPlan(d.vblk[pf.func.ctrl.value], pf.func.ctrl.value, false)
  }

  function VblkTreePlan(d: Directory, pfs: seq<Pf>): (plan: seq<Action>)
    ensures VblkOnly(plan)
  {
    if pfs == [] then [] else VblkPfPlan(d, pfs[0]) + VblkTreePlan(d, pfs[1..])
  }

  // ----- NVMe -----

  function NssPlan(nqn: string, nss: seq<Ns>): (plan: seq<Action>)
    ensures NvmeOnly(plan)
  {
    if nss == [] then [] else [NeedDisk(nss[0].bdev), NeedNs(nqn, nss[0])] + NssPlan(nqn, nss[1..])
  }

  function AttachPlan(id: Id, nss: seq<Ns>): (plan: seq<Action>)
    ensures NvmeOnly(plan)
  {
    if nss == [] then [] else [Order(Dst, AttachNs(id, nss[0].nsid))] + AttachPlan(id, nss[1..])
  }

  function DetachPlan(id: Id, nss: seq<Ns>): (plan: seq<Action>)
    ensures NvmeOnly(plan)
  {
    if nss == [] then []
    else [Order(Src, DetachNs(id, nss[0].nsid)), LoseDisk(nss[0].bdev)] + DetachPlan(id, nss[1..])
  }

  // Drop a controller on the source: each namespace with its disk, then the controller.
  function NvmeDropPlan(c: NvmeCtrl, id: Id): (plan: seq<Action>)
    ensures NvmeOnly(plan)
  {
    DetachPlan(id, c.namespaces) + [Order(Src, DestroyNvme(id))]
  }

  // Subsystem, disks and namespaces, the admin suspend, the passive copy with its
  // namespaces, the hand-over; a virtual function is then dropped.
  function NvmePlan(d: Directory, f: Func): (plan: seq<Action>)
    ensures NvmeOnly(plan)
  {
    if f.ctrl.None? then []
    else if f.ctrl.value !in d.nvme then [Unknown]
    else
      var id := f.ctrl.value;
      var c := d.nvme[id];
      [NeedSubsys(c.cfg.nqn)] + NssPlan(c.cfg.nqn, c.namespaces)
      + [Order(Src, SuspendNvme(c.cfg.id, AdminOnly)), Order(Dst, CreateNvme(c.cfg, true, true))]
      + AttachPlan(c.cfg.id, c.namespaces) + [Order(Src, SuspendNvme(c.cfg.id, LiveUpdate))]
      + (if f.vfIndex.Some? then NvmeDropPlan(c, id) else [])
  }

  function NvmeVfsPlan(d: Directory, vfs: seq<Func>): (plan: seq<Action>)
    ensures NvmeOnly(plan)
  {
    if vfs == [] then [] else NvmePlan(d, vfs[0]) + NvmeVfsPlan(d, vfs[1..])
  }

  function NvmePfPlan(d: Directory, pf: Pf): (plan: seq<Action>)
    ensures NvmeOnly(plan)
  {
    NvmePlan(d, pf.func) + NvmeVfsPlan(d, pf.vfs)
    + if pf.func.ctrl.None? then []
      else if pf.func.ctrl.value !in d.nvme then [Unknown]
      else NvmeDropPlan(d.nvme[pf.func.ctrl.value], pf.func.ctrl.value)
  }

  function NvmeTreePlan(d: Directory, pfs: seq<Pf>): (plan: seq<Action>)
    ensures NvmeOnly(plan)
  {
    if pfs == [] then [] else NvmePfPlan(d, pfs[0]) + NvmeTreePlan(d, pfs[1..])
  }

  // The whole run.
  function RunPlan(d: Directory, vblkPfs: seq<Pf>, nvmePfs: seq<Pf>): (plan: seq<Action>)
    ensures Ordinary(plan)
  {
    VblkTreePlan(d, vblkPfs) + NvmeTreePlan(d, nvmePfs)
  }

  // ----- Carrying out a plan -----

  function Do(d: Directory, s: State, a: Action): Run {
    match a
    case Order(side, rpc) => Send(s, side, rpc)
    case NeedDisk(b) => CreateBdev(s, b)
    case NeedSubsys(nqn) => EnsureSubsys(d, s, nqn)
    case NeedNs(nqn, ns) =>
      if UuidTaken(s.world.dst, ns.uuid) then Go(s) else Send(s, Dst, CreateNamespace(nqn, ns))
    case LoseDisk(b) => DestroyBdev(s, b)
    case Unknown => Halt(s)
  }

  function Perform(d: Directory, s: State, plan: seq<Action>): Run
    decreases |plan|
  {
    if plan == [] then Go(s)
    else
      var t :- Do(d, s, plan[0]);
      Perform(d, t, plan[1..])
  }

  lemma First(d: Directory, s: State, a: Action, rest: seq<Action>)
    ensures Perform(d, s, [a] + rest) == var t :- Do(d, s, a); Perform(d, t, rest)
    ensures Perform(d, s, []) == Go(s) && Perform(d, s, [a]) == Do(d, s, a)
  {
    hide Do;
    assert ([a] + rest)[1..] == rest && [a][1..] == [];
  }

  lemma {:induction false} InTurn(d: Directory, s: State, p: seq<Action>, q: seq<Action>)
    ensures Perform(d, s, p + q) == var t :- Perform(d, s, p); Perform(d, t, q)
    decreases |p|
  {
    hide Do;
    if p == [] {
      assert p + q == q;
    } else {
      assert (p + q)[1..] == p[1..] + q;
      if Do(d, s, p[0]).Go? {
        InTurn(d, Do(d, s, p[0]).st, p[1..], q);
      }
    }
  }

  // ----- Every operation carries out its plan -----

  lemma VblkDrops(d: Directory, s: State, id: Id, force: bool)
    requires id in d.vblk
    ensures DropVblk(d, s, id, force) == Perform(d, s, VblkDropPlan(d.vblk[id], id, force))
  {
    hide Perform, Send, DestroyBdev;
    var c, a := d.vblk[id], Order(Src, DestroyVblk(id, force));
    var last := if c.bdev.Some? then [LoseDisk(c.bdev.value)] else [];
    First(d, s, a, last);
    if c.bdev.Some? && Do(d, s, a).Go? {
      First(d, Do(d, s, a).st, LoseDisk(c.bdev.value), []);
    } else if Do(d, s, a).Go? {
      First(d, Do(d, s, a).st, a, []);
    }
  }

  lemma VblkHandsOver(d: Directory, s: State, id: Id, c: VblkCtrl)
    ensures Perform(d, s, [Order(Src, SuspendVblk(id, EventsOnly)), Order(Src, SuspendVblk(c.id, LiveUpdate)),
                           Order(Dst, CreateVblk(c, true, true))])
      == var t :- Send(s, Src, SuspendVblk(id, EventsOnly)); HandOverVblk(t, c)
  {
    hide Perform, Send;
    var a, b, e := Order(Src, SuspendVblk(id, EventsOnly)), Order(Src, SuspendVblk(c.id, LiveUpdate)),
      Order(Dst, CreateVblk(c, true, true));
    assert [a, b, e] == [a] + ([b] + [e]);
    First(d, s, a, [b] + [e]);
    var t := Send(s, Src, SuspendVblk(id, EventsOnly));
    if t.Go? {
      First(d, t.st, b, [e]);
      var u := Send(t.st, Src, SuspendVblk(c.id, LiveUpdate));
      if u.Go? {
        First(d, u.st, e, []);
      }
    }
  }

  lemma VblkMoves(d: Directory, s: State, f: Func)
    ensures UpgradeVblkFunc(d, s, f) == Perform(d, s, VblkPlan(d, f))
  {
    hide Perform, Send, CreateBdev, HandOverVblk, DropVblk, VblkDropPlan;
    First(d, s, Unknown, []);
    if f.ctrl.Some? && f.ctrl.value in d.vblk {
      var id := f.ctrl.value;
      var c := d.vblk[id];
      var disk := if c.bdev.Some? then [NeedDisk(c.bdev.value)] else [];
      var move := [Order(Src, SuspendVblk(id, EventsOnly)), Order(Src, SuspendVblk(c.id, LiveUpdate)),
                   Order(Dst, CreateVblk(c, true, true))];
      var drop := if f.vfIndex.Some? then VblkDropPlan(c, id, true) else [];
      InTurn(d, s, disk + move, drop);
      InTurn(d, s, disk, move);
      if c.bdev.Some? {
        First(d, s, NeedDisk(c.bdev.value), []);
      }
      var t := Perform(d, s, disk);
      if t.Go? {
        VblkHandsOver(d, t.st, id, c);
        var u := Perform(d, t.st, move);
        if u.Go? {
          First(d, u.st, Unknown, []);
          VblkDrops(d, u.st, id, true);
        }
      }
    }
  }

  lemma {:induction false} VblkVfsMove(d: Directory, s: State, vfs: seq<Func>)
    ensures UpgradeVblkVfs(d, s, vfs) == Perform(d, s, VblkVfsPlan(d, vfs))
    decreases |vfs|
  {
    hide Perform, UpgradeVblkFunc, VblkPlan;
    if vfs == [] {
      First(d, s, Unknown, []);
    } else {
      VblkMoves(d, s, vfs[0]);
      InTurn(d, s, VblkPlan(d, vfs[0]), VblkVfsPlan(d, vfs[1..]));
      if UpgradeVblkFunc(d, s, vfs[0]).Go? {
        VblkVfsMove(d, UpgradeVblkFunc(d, s, vfs[0]).st, vfs[1..]);
      }
    }
  }

  lemma VblkPfMoves(d: Directory, s: State, pf: Pf)
    ensures UpgradeVblkPf(d, s, pf) == Perform(d, s, VblkPfPlan(d, pf))
  {
    hide Perform, UpgradeVblkFunc, UpgradeVblkVfs, VblkPlan, VblkVfsPlan, VblkDropPlan, Do;
    var own, vfs := VblkPlan(d, pf.func), VblkVfsPlan(d, pf.vfs);
    var last := if pf.func.ctrl.None? then []
                else if pf.func.ctrl.value !in d.vblk then [Unknown]
                else VblkDropPlan(d.vblk[pf.func.ctrl.value], pf.func.ctrl.value, false);
    InTurn(d, s, own + vfs, last);
    InTurn(d, s, own, vfs);
    VblkMoves(d, s, pf.func);
    var t := UpgradeVblkFunc(d, s, pf.func);
    if t.Go? {
      VblkVfsMove(d, t.st, pf.vfs);
      var u := UpgradeVblkVfs(d, t.st, pf.vfs);
      if u.Go? {
        LastVblk(d, u.st, pf.func.ctrl);
      }
    }
  }

  lemma LastVblk(d: Directory, u: State, ctrl: Option<Id>)
    ensures ctrl.None? ==> Perform(d, u, []) == Go(u)
    ensures ctrl.Some? && ctrl.value !in d.vblk ==> Perform(d, u, [Unknown]) == DropVblk(d, u, ctrl.value, false)
    ensures ctrl.Some? && ctrl.value in d.vblk ==>
      Perform(d, u, VblkDropPlan(d.vblk[ctrl.value], ctrl.value, false)) == DropVblk(d, u, ctrl.value, false)
  {
    hide Perform, VblkDropPlan;
    First(d, u, Unknown, []);
    if ctrl.Some? && ctrl.value in d.vblk {
      VblkDrops(d, u, ctrl.value, false);
    }
  }

  lemma {:induction false} VblkTreeMoves(d: Directory, s: State, pfs: seq<Pf>)
    ensures UpgradeVblkPfs(d, s, pfs) == Perform(d, s, VblkTreePlan(d, pfs))
    decreases |pfs|
  {
    hide Perform, UpgradeVblkPf, VblkPfPlan;
    if pfs == [] {
      First(d, s, Unknown, []);
    } else {
      VblkPfMoves(d, s, pfs[0]);
      InTurn(d, s, VblkPfPlan(d, pfs[0]), VblkTreePlan(d, pfs[1..]));
      if UpgradeVblkPf(d, s, pfs[0]).Go? {
        VblkTreeMoves(d, UpgradeVblkPf(d, s, pfs[0]).st, pfs[1..]);
      }
    }
  }

  lemma {:induction false} NssDone(d: Directory, s: State, nqn: string, nss: seq<Ns>)
    ensures EnsureAllNs(s, nqn, nss) == Perform(d, s, NssPlan(nqn, nss))
    decreases |nss|
  {
    hide Perform, CreateBdev, Send, UuidTaken;
    if nss == [] {
      First(d, s, Unknown, []);
    } else {
      var a, b, rest := NeedDisk(nss[0].bdev), NeedNs(nqn, nss[0]), NssPlan(nqn, nss[1..]);
      assert [a, b] + rest == [a] + ([b] + rest);
      First(d, s, a, [b] + rest);
      var t := CreateBdev(s, nss[0].bdev);
      if t.Go? {
        First(d, t.st, b, rest);
        if EnsureNs(s, nqn, nss[0]).Go? {
          NssDone(d, EnsureNs(s, nqn, nss[0]).st, nqn, nss[1..]);
        }
      }
    }
  }

  lemma {:induction false} AttachesDone(d: Directory, s: State, id: Id, nss: seq<Ns>)
    ensures AttachAll(s, id, nss) == Perform(d, s, AttachPlan(id, nss))
    decreases |nss|
  {
    hide Perform, Send;
    if nss == [] {
      First(d, s, Unknown, []);
    } else {
      First(d, s, Order(Dst, AttachNs(id, nss[0].nsid)), AttachPlan(id, nss[1..]));
      var t := Send(s, Dst, AttachNs(id, nss[0].nsid));
      if t.Go? {
        AttachesDone(d, t.st, id, nss[1..]);
      }
    }
  }

  lemma {:induction false} DetachesDone(d: Directory, s: State, id: Id, nss: seq<Ns>)
    ensures ReleaseAll(s, id, nss) == Perform(d, s, DetachPlan(id, nss))
    decreases |nss|
  {
    hide Perform, Send, DestroyBdev;
    if nss == [] {
      First(d, s, Unknown, []);
    } else {
      var a, b, rest := Order(Src, DetachNs(id, nss[0].nsid)), LoseDisk(nss[0].bdev), DetachPlan(id, nss[1..]);
      assert [a, b] + rest == [a] + ([b] + rest);
      First(d, s, a, [b] + rest);
      var t := Send(s, Src, DetachNs(id, nss[0].nsid));
      if t.Go? {
        First(d, t.st, b, rest);
        if ReleaseNs(s, id, nss[0]).Go? {
          DetachesDone(d, ReleaseNs(s, id, nss[0]).st, id, nss[1..]);
        }
      }
    }
  }

  lemma NvmeDrops(d: Directory, s: State, id: Id)
    requires id in d.nvme
    ensures DropNvme(d, s, id) == Perform(d, s, NvmeDropPlan(d.nvme[id], id))
  {
    hide Perform, Send, ReleaseAll, DetachPlan;
    var nss := d.nvme[id].namespaces;
    InTurn(d, s, DetachPlan(id, nss), [Order(Src, DestroyNvme(id))]);
    DetachesDone(d, s, id, nss);
    if ReleaseAll(s, id, nss).Go? {
      First(d, ReleaseAll(s, id, nss).st, Order(Src, DestroyNvme(id)), []);
    }
  }

  lemma NvmeCopies(d: Directory, s: State, c: NvmeCtrl)
    ensures Perform(d, s, [Order(Src, SuspendNvme(c.cfg.id, AdminOnly)), Order(Dst, CreateNvme(c.cfg, true, true))]
                          + AttachPlan(c.cfg.id, c.namespaces) + [Order(Src, SuspendNvme(c.cfg.id, LiveUpdate))])
      == var t :- Send(s, Src, SuspendNvme(c.cfg.id, AdminOnly));
         var u :- CreatePassiveNvme(t, c);
         Send(u, Src, SuspendNvme(c.cfg.id, LiveUpdate))
  {
    hide Perform, Send, AttachAll, AttachPlan;
    var pause, copy, release := Order(Src, SuspendNvme(c.cfg.id, AdminOnly)), Order(Dst, CreateNvme(c.cfg, true, true)),
      Order(Src, SuspendNvme(c.cfg.id, LiveUpdate));
    var attach := AttachPlan(c.cfg.id, c.namespaces);
    assert [pause, copy] + attach + [release] == [pause] + ([copy] + (attach + [release]));
    First(d, s, pause, [copy] + (attach + [release]));
    var t := Do(d, s, pause);
    if t.Go? {
      First(d, t.st, copy, attach + [release]);
      var u := Do(d, t.st, copy);
      if u.Go? {
        InTurn(d, u.st, attach, [release]);
        AttachesDone(d, u.st, c.cfg.id, c.namespaces);
        var v := AttachAll(u.st, c.cfg.id, c.namespaces);
        if v.Go? {
          First(d, v.st, release, []);
        }
      }
    }
  }

  lemma NvmeMoves(d: Directory, s: State, f: Func)
    ensures UpgradeNvmeFunc(d, s, f) == Perform(d, s, NvmePlan(d, f))
  {
    hide Perform, Send, EnsureSubsys, EnsureAllNs, CreatePassiveNvme, DropNvme, NssPlan, AttachPlan, NvmeDropPlan;
    First(d, s, Unknown, []);
    if f.ctrl.Some? && f.ctrl.value in d.nvme {
      var id := f.ctrl.value;
      var c := d.nvme[id];
      var subsys, nss := [NeedSubsys(c.cfg.nqn)], NssPlan(c.cfg.nqn, c.namespaces);
      var copy := [Order(Src, SuspendNvme(c.cfg.id, AdminOnly)), Order(Dst, CreateNvme(c.cfg, true, true))]
        + AttachPlan(c.cfg.id, c.namespaces) + [Order(Src, SuspendNvme(c.cfg.id, LiveUpdate))];
      var drop := if f.vfIndex.Some? then NvmeDropPlan(c, id) else [];
      assert NvmePlan(d, f) == subsys + (nss + (copy + drop));
      First(d, s, NeedSubsys(c.cfg.nqn), nss + (copy + drop));
      var t := EnsureSubsys(d, s, c.cfg.nqn);
      if t.Go? {
        InTurn(d, t.st, nss, copy + drop);
        NssDone(d, t.st, c.cfg.nqn, c.namespaces);
        var u := EnsureAllNs(t.st, c.cfg.nqn, c.namespaces);
        if u.Go? {
          InTurn(d, u.st, copy, drop);
          NvmeCopies(d, u.st, c);
          var v := Perform(d, u.st, copy);
          if v.Go? {
            First(d, v.st, Unknown, []);
            NvmeDrops(d, v.st, id);
          }
        }
      }
    }
  }

  lemma {:induction false} NvmeVfsMove(d: Directory, s: State, vfs: seq<Func>)
    ensures UpgradeNvmeVfs(d, s, vfs) == Perform(d, s, NvmeVfsPlan(d, vfs))
    decreases |vfs|
  {
    hide Perform, UpgradeNvmeFunc, NvmePlan;
    if vfs == [] {
      First(d, s, Unknown, []);
    } else {
      NvmeMoves(d, s, vfs[0]);
      InTurn(d, s, NvmePlan(d, vfs[0]), NvmeVfsPlan(d, vfs[1..]));
      if UpgradeNvmeFunc(d, s, vfs[0]).Go? {
        NvmeVfsMove(d, UpgradeNvmeFunc(d, s, vfs[0]).st, vfs[1..]);
      }
    }
  }

  lemma LastNvme(d: Directory, u: State, ctrl: Option<Id>)
    ensures ctrl.None? ==> Perform(d, u, []) == Go(u)
    ensures ctrl.Some? && ctrl.value !in d.nvme ==> Perform(d, u, [Unknown]) == DropNvme(d, u, ctrl.value)
    ensures ctrl.Some? && ctrl.value in d.nvme ==>
      Perform(d, u, NvmeDropPlan(d.nvme[ctrl.value], ctrl.value)) == DropNvme(d, u, ctrl.value)
  {
    hide Perform, NvmeDropPlan;
    First(d, u, Unknown, []);
    if ctrl.Some? && ctrl.value in d.nvme {
      NvmeDrops(d, u, ctrl.value);
    }
  }

  lemma NvmePfMoves(d: Directory, s: State, pf: Pf)
    ensures UpgradeNvmePf(d, s, pf) == Perform(d, s, NvmePfPlan(d, pf))
  {
    hide Perform, UpgradeNvmeFunc, UpgradeNvmeVfs, NvmePlan, NvmeVfsPlan, NvmeDropPlan, Do;
    var own, vfs := NvmePlan(d, pf.func), NvmeVfsPlan(d, pf.vfs);
    var last := if pf.func.ctrl.None? then []
                else if pf.func.ctrl.value !in d.nvme then [Unknown]
                else NvmeDropPlan(d.nvme[pf.func.ctrl.value], pf.func.ctrl.value);
    InTurn(d, s, own + vfs, last);
    InTurn(d, s, own, vfs);
    NvmeMoves(d, s, pf.func);
    var t := UpgradeNvmeFunc(d, s, pf.func);
    if t.Go? {
      NvmeVfsMove(d, t.st, pf.vfs);
      var u := UpgradeNvmeVfs(d, t.st, pf.vfs);
      if u.Go? {
        LastNvme(d, u.st, pf.func.ctrl);
      }
    }
  }

  lemma {:induction false} NvmeTreeMoves(d: Directory, s: State, pfs: seq<Pf>)
    ensures UpgradeNvmePfs(d, s, pfs) == Perform(d, s, NvmeTreePlan(d, pfs))
    decreases |pfs|
  {
    hide Perform, UpgradeNvmePf, NvmePfPlan;
    if pfs == [] {
      First(d, s, Unknown, []);
    } else {
      NvmePfMoves(d, s, pfs[0]);
      InTurn(d, s, NvmePfPlan(d, pfs[0]), NvmeTreePlan(d, pfs[1..]));
      if UpgradeNvmePf(d, s, pfs[0]).Go? {
        NvmeTreeMoves(d, UpgradeNvmePf(d, s, pfs[0]).st, pfs[1..]);
      }
    }
  }

  // A run is its plan, carried out action by action up to the first that fails: from any
  // state, for any function tree and whatever the processes answer.
  lemma RunIsPlan(d: Directory, s: State, vblkPfs: seq<Pf>, nvmePfs: seq<Pf>)
    ensures Upgrade(d, s, vblkPfs, nvmePfs) == Perform(d, s, RunPlan(d, vblkPfs, nvmePfs))
  {
    hide Perform, UpgradeVblkPfs, UpgradeNvmePfs, VblkTreePlan, NvmeTreePlan;
    InTurn(d, s, VblkTreePlan(d, vblkPfs), NvmeTreePlan(d, nvmePfs));
    VblkTreeMoves(d, s, vblkPfs);
    if UpgradeVblkPfs(d, s, vblkPfs).Go? {
      NvmeTreeMoves(d, UpgradeVblkPfs(d, s, vblkPfs).st, nvmePfs);
    }
  }

  // ----- The RPCs about controllers -----

  function Controllers(log: seq<Msg>): seq<Msg> {
    if log == [] then []
    else Controllers(log[..|log| - 1]) + if AboutController(log[|log| - 1].rpc) then [log[|log| - 1]] else []
  }

  // The RPCs a plan orders.
  function Orders(plan: seq<Action>): seq<Msg> {
    if plan == [] then []
    else (if plan[0].Order? then [Msg(plan[0].side, plan[0].rpc)] else []) + Orders(plan[1..])
  }

  lemma SendControls(s: State, side: Side, r: Rpc)
    ensures var t := Send(s, side, r);
      Controllers(t.st.log) == Controllers(s.log) + if t.Go? && AboutController(r) then [Msg(side, r)] else []
  {
    hide Enabled, Step, AboutController;
    assert (s.log + [Msg(side, r)])[..|s.log|] == s.log;
  }

  lemma DoControls(d: Directory, s: State, a: Action)
    requires a.Order? ==> AboutController(a.rpc)
    ensures var t := Do(d, s, a);
      Controllers(t.st.log) == Controllers(s.log) + if t.Go? then Orders([a]) else []
  {
    hide Send, SizeMib, UuidTaken, Controllers;
    assert [a][1..] == [];
    match a
    case Order(side, rpc) => SendControls(s, side, rpc);
    case NeedDisk(b) =>
      if b in s.bdevs {
        var info := s.bdevs[b].info;
        match info.product
        case NvmeDisk(trid) =>
          if s.bdevs[b].base.Some? {
            SendControls(s, Dst, AttachBase(s.bdevs[b].base.value, trid));
          }
        case NullDisk => SendControls(s, Dst, CreateNull(info.name, SizeMib(info), info.blockSize, info.uuid));
        case MallocDisk => SendControls(s, Dst, CreateMalloc(info.name, SizeMib(info), info.blockSize, info.uuid));
        case OtherDisk(_) =>
      }
    case NeedSubsys(nqn) =>
      if nqn in d.subsys {
        SendControls(s, Dst, CreateSubsystem(d.subsys[nqn]));
      }
    case NeedNs(nqn, ns) => SendControls(s, Dst, CreateNamespace(nqn, ns));
    case LoseDisk(b) => LoseControls(s, b);
    case Unknown =>
  }

  lemma LoseControls(s: State, b: Name)
    ensures Controllers(DestroyBdev(s, b).st.log) == Controllers(s.log)
  {
    hide Send, Controllers;
    if b in s.bdevs {
      var t := s.(bdevs := s.bdevs[b := s.bdevs[b].(used := s.bdevs[b].used - 1)]);
      match t.bdevs[b].info.product
      case NvmeDisk(_) =>
        if t.bdevs[b].base.Some? && t.bdevs[b].base.value in t.bases {
          var x := t.bdevs[b].base.value;
          SendControls(t.(bases := t.bases[x := t.bases[x].(used := t.bases[x].used - 1)]), Src, DetachBase(x));
        }
      case NullDisk => SendControls(t, Src, DeleteNull(t.bdevs[b].info.name));
      case MallocDisk => SendControls(t, Src, DeleteMalloc(t.bdevs[b].info.name));
      case OtherDisk(_) =>
    }
  }

  lemma {:induction false} ControllersHave(log: seq<Msg>, m: Msg)
    ensures m in Controllers(log) <==> m in log && AboutController(m.rpc)
    decreases |log|
  {
    hide AboutController;
    if log != [] {
      ControllersHave(log[..|log| - 1], m);
      assert log == log[..|log| - 1] + [log[|log| - 1]];
    }
  }

  lemma {:induction false} OrdersHave(plan: seq<Action>, m: Msg)
    ensures m in Orders(plan) <==> Order(m.side, m.rpc) in plan
    decreases |plan|
  {
    if plan != [] {
      OrdersHave(plan[1..], m);
      assert plan == [plan[0]] + plan[1..];
    }
  }

  // What a plan sends about controllers: all it orders, or, when an action fails, what it
  // orders before that one.
  lemma {:induction false} PlanControls(d: Directory, s: State, plan: seq<Action>)
    requires Ordinary(plan)
    ensures var r := Perform(d, s, plan);
      exists k :: 0 <= k <= |plan| && (r.Go? <==> k == |plan|)
        && Controllers(r.st.log) == Controllers(s.log) + Orders(plan[..k])
    decreases |plan|
  {
    hide Do, AboutController, Controllers;
    if plan == [] {
      assert Orders(plan[..0]) == [];
    } else {
      var t := Do(d, s, plan[0]);
      DoControls(d, s, plan[0]);
      assert [plan[0]][1..] == [];
      if t.Go? {
        PlanControls(d, t.st, plan[1..]);
        var r := Perform(d, s, plan);
        var k :| 0 <= k <= |plan[1..]| && (r.Go? <==> k == |plan[1..]|)
          && Controllers(r.st.log) == Controllers(t.st.log) + Orders(plan[1..][..k]);
        assert plan[..k + 1][1..] == plan[1..][..k] && plan[..k + 1][0] == plan[0];
        assert Orders(plan[..k + 1]) == Orders([plan[0]]) + Orders(plan[1..][..k]);
      } else {
        assert Orders(plan[..0]) == [];
      }
    }
  }

  // The RPCs about controllers that a run sends are those of its plan, in order: all of
  // them when it goes through, and those before the first failure when it does not.
  lemma ControllersInOrder(d: Directory, s: State, vblkPfs: seq<Pf>, nvmePfs: seq<Pf>)
    requires s.log == []
    ensures var r, plan := Upgrade(d, s, vblkPfs, nvmePfs), RunPlan(d, vblkPfs, nvmePfs);
      exists k :: 0 <= k <= |plan| && (r.Go? <==> k == |plan|)
        && Controllers(r.st.log) == Orders(plan[..k])
  {
    hide Perform, RunPlan, Orders;
    RunIsPlan(d, s, vblkPfs, nvmePfs);
    PlanControls(d, s, RunPlan(d, vblkPfs, nvmePfs));
  }
}
