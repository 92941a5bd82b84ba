/**
 The order in which RPCs follow each other, in every run: also in one that an RPC
 failure cuts short, from any state and for any function tree.
 */
module UpgradeOrder {
  import opened Common
  import opened UpgradeWorld
  import opened UpgradeSpec
  import opened UpgradeInvariant
  import opened UpgradeSnapshot

  ghost predicate DropsReference(m: Msg) {
    m.side == Src && (m.rpc.DestroyVblk? || m.rpc.DetachNs?)
  }

  // What must come right before an RPC: events are off before a controller is handed
  // over, the passive copy is created right after that, an NVMe copy right after the
  // admin queue is stopped, and a disk is removed right after a reference is dropped.
  ghost predicate MayFollow(prev: Option<Msg>, m: Msg) {
    match m.rpc
    case SuspendVblk(id, LiveUpdate) => prev == Some(Msg(Src, SuspendVblk(id, EventsOnly)))
    case CreateVblk(cfg, _, _) => prev == Some(Msg(Src, SuspendVblk(cfg.id, LiveUpdate)))
    case CreateNvme(cfg, _, _) => prev == Some(Msg(Src, SuspendNvme(cfg.id, AdminOnly)))
    case DeleteNull(_) => prev.Some? && DropsReference(prev.value)
    case DeleteMalloc(_) => prev.Some? && DropsReference(prev.value)
    case DetachBase(_) => prev.Some? && DropsReference(prev.value)
    case _ => true
  }

  // What is created is what the tables say, and copies are passive.
  ghost predicate Stated(d: Directory, m: Msg) {
    match m.rpc
    case CreateSubsystem(subsys) => subsys.nqn in d.subsys && d.subsys[subsys.nqn] == subsys
    case CreateVblk(cfg, suspended, listening) =>
      suspended && listening && cfg.id in d.vblk && d.vblk[cfg.id] == cfg
    case CreateNvme(cfg, suspended, listening) =>
      suspended && listening && cfg.id in d.nvme && d.nvme[cfg.id].cfg == cfg
    case _ => true
  }

  ghost predicate InOrder(d: Directory, prev: Option<Msg>, m: Msg) {
    MayFollow(prev, m) && OneWay(m) && Stated(d, m)
  }

  ghost predicate Orderly(d: Directory, log: seq<Msg>) {
    forall k | 0 <= k < |log| :: InOrder(d, Last(log[..k]), log[k])
  }

  lemma SendOrderly(d: Directory, s: State, side: Side, r: Rpc)
    requires Orderly(d, s.log) && InOrder(d, Last(s.log), Msg(side, r))
    ensures var t := Send(s, side, r);
      Orderly(d, t.st.log) && (t.Go? ==> Last(t.st.log) == Some(Msg(side, r)))
  {
    hide Enabled, Step, InOrder;
    var l := Send(s, side, r).st.log;
    forall k | 0 <= k < |l| ensures InOrder(d, Last(l[..k]), l[k]) {
      if k < |s.log| {
        assert l[..k] == s.log[..k] && l[k] == s.log[k];
      } else {
        assert l[..k] == s.log;
      }
    }
  }

  lemma CreateBdevOrderly(d: Directory, s: State, b: Name)
    requires Orderly(d, s.log)
    ensures Orderly(d, CreateBdev(s, b).st.log)
  {
    hide Orderly, Send, SizeMib;
    if b in s.bdevs {
      var info := s.bdevs[b].info;
      match info.product
      case NvmeDisk(trid) =>
        if s.bdevs[b].base.Some? {
          SendOrderly(d, s, Dst, AttachBase(s.bdevs[b].base.value, trid));
        }
      case NullDisk => SendOrderly(d, s, Dst, CreateNull(info.name, SizeMib(info), info.blockSize, info.uuid));
      case MallocDisk => SendOrderly(d, s, Dst, CreateMalloc(info.name, SizeMib(info), info.blockSize, info.uuid));
      case OtherDisk(_) =>
    }
  }

  lemma DestroyBdevOrderly(d: Directory, s: State, b: Name)
    requires Orderly(d, s.log) && Last(s.log).Some? && DropsReference(Last(s.log).value)
    ensures Orderly(d, DestroyBdev(s, b).st.log)
  {
    hide Orderly, Send, Last, DropsReference;
    if b in s.bdevs {
      var t := s.(bdevs := s.bdevs[b := s.bdevs[b].(used := s.bdevs[b].used - 1)]);
      match t.bdevs[b].info.product
      case NvmeDisk(_) =>
        if t.bdevs[b].base.Some? && t.bdevs[b].base.value in t.bases {
          var x := t.bdevs[b].base.value;
          SendOrderly(d, t.(bases := t.bases[x := t.bases[x].(used := t.bases[x].used - 1)]), Src, DetachBase(x));
        }
      case NullDisk => SendOrderly(d, t, Src, DeleteNull(t.bdevs[b].info.name));
      case MallocDisk => SendOrderly(d, t, Src, DeleteMalloc(t.bdevs[b].info.name));
      case OtherDisk(_) =>
    }
  }

  lemma DropVblkOrderly(d: Directory, s: State, id: Id, force: bool)
    requires Orderly(d, s.log)
    ensures Orderly(d, DropVblk(d, s, id, force).st.log)
  {
    hide Orderly, Send, DestroyBdev, Last;
    SendOrderly(d, s, Src, DestroyVblk(id, force));
    var t := Send(s, Src, DestroyVblk(id, force));
    if id in d.vblk && t.Go? && d.vblk[id].bdev.Some? {
      DestroyBdevOrderly(d, t.st, d.vblk[id].bdev.value);
    }
  }

  // Controllers are looked up by their own ids.
  ghost predicate Keyed(d: Directory) {
    && (forall id | id in d.vblk :: d.vblk[id].id == id)
    && (forall id | id in d.nvme :: d.nvme[id].cfg.id == id)
    && (forall n | n in d.subsys :: d.subsys[n].nqn == n)
  }

  lemma TablesAreKeyed(v: Snapshot)
    ensures Keyed(Tables(v))
  {
    forall id | id in VblkDict(v.vblk) ensures VblkDict(v.vblk)[id].id == id {
      VblkDictHas(v.vblk, id);
    }
    forall id | id in NvmeDict(v.nvme) ensures NvmeDict(v.nvme)[id].cfg.id == id {
      NvmeDictHas(v.nvme, id);
    }
    forall n | n in SubsysDict(v.subsystems) ensures SubsysDict(v.subsystems)[n].nqn == n {
      SubsysDictHas(v.subsystems, n);
    }
  }

  lemma HandOverOrderly(d: Directory, s: State, c: VblkCtrl)
    requires Orderly(d, s.log) && Last(s.log) == Some(Msg(Src, SuspendVblk(c.id, EventsOnly)))
    requires c.id in d.vblk && d.vblk[c.id] == c
    ensures Orderly(d, HandOverVblk(s, c).st.log)
  {
    hide Orderly, Send, Last;
    SendOrderly(d, s, Src, SuspendVblk(c.id, LiveUpdate));
    var t := Send(s, Src, SuspendVblk(c.id, LiveUpdate));
    if t.Go? {
      SendOrderly(d, t.st, Dst, CreateVblk(c, true, true));
    }
  }

  lemma MoveVblkOrderly(d: Directory, s: State, id: Id)
    requires Keyed(d) && Orderly(d, s.log)
    ensures Orderly(d, MoveVblk(d, s, id).st.log)
  {
    hide Orderly, Send, CreateBdev, HandOverVblk, Last;
    if id in d.vblk {
      var c := d.vblk[id];
      var t := if c.bdev.Some? then CreateBdev(s, c.bdev.value) else Go(s);
      if c.bdev.Some? {
        CreateBdevOrderly(d, s, c.bdev.value);
      }
      SendOrderly(d, t.st, Src, SuspendVblk(id, EventsOnly));
      if t.Go? {
        var u := Send(t.st, Src, SuspendVblk(id, EventsOnly));
        if u.Go? {
          HandOverOrderly(d, u.st, c);
        }
      }
    }
  }

  lemma VblkFuncOrderly(d: Directory, s: State, f: Func)
    requires Keyed(d) && Orderly(d, s.log)
    ensures Orderly(d, UpgradeVblkFunc(d, s, f).st.log)
  {
    hide Keyed, Orderly, MoveVblk, DropVblk;
    if f.ctrl.Some? {
      MoveVblkOrderly(d, s, f.ctrl.value);
      DropVblkOrderly(d, MoveVblk(d, s, f.ctrl.value).st, f.ctrl.value, true);
    }
  }

  lemma {:induction false} VblkVfsOrderly(d: Directory, s: State, vfs: seq<Func>)
    requires Keyed(d) && Orderly(d, s.log)
    ensures Orderly(d, UpgradeVblkVfs(d, s, vfs).st.log)
    decreases |vfs|
  {
    hide Keyed, Orderly, UpgradeVblkFunc;
    if vfs != [] {
      VblkFuncOrderly(d, s, vfs[0]);
      VblkVfsOrderly(d, UpgradeVblkFunc(d, s, vfs[0]).st, vfs[1..]);
    }
  }

  lemma {:induction false} VblkPfsOrderly(d: Directory, s: State, pfs: seq<Pf>)
    requires Keyed(d) && Orderly(d, s.log)
    ensures Orderly(d, UpgradeVblkPfs(d, s, pfs).st.log)
    decreases |pfs|
  {
    hide Keyed, Orderly, UpgradeVblkFunc, UpgradeVblkVfs, DropVblk;
    if pfs != [] {
      var pf := pfs[0];
      VblkFuncOrderly(d, s, pf.func);
      var t := UpgradeVblkFunc(d, s, pf.func).st;
      VblkVfsOrderly(d, t, pf.vfs);
      if pf.func.ctrl.Some? {
        DropVblkOrderly(d, UpgradeVblkVfs(d, t, pf.vfs).st, pf.func.ctrl.value, false);
      }
      VblkPfsOrderly(d, UpgradeVblkPf(d, s, pf).st, pfs[1..]);
    }
  }

  // ----- NVMe -----

  lemma EnsureSubsysOrderly(d: Directory, s: State, nqn: string)
    requires Keyed(d) && Orderly(d, s.log)
    ensures Orderly(d, EnsureSubsys(d, s, nqn).st.log)
  {
    hide Orderly, Send, Last;
    if nqn in d.subsys {
      SendOrderly(d, s, Dst, CreateSubsystem(d.subsys[nqn]));
    }
  }

  lemma {:induction false} EnsureAllNsOrderly(d: Directory, s: State, nqn: string, nss: seq<Ns>)
    requires Orderly(d, s.log)
    ensures Orderly(d, EnsureAllNs(s, nqn, nss).st.log)
    decreases |nss|
  {
    hide Orderly, Send, CreateBdev, Last, UuidTaken;
    if nss != [] {
      CreateBdevOrderly(d, s, nss[0].bdev);
      var t := CreateBdev(s, nss[0].bdev);
      SendOrderly(d, t.st, Dst, CreateNamespace(nqn, nss[0]));
      EnsureAllNsOrderly(d, EnsureNs(s, nqn, nss[0]).st, nqn, nss[1..]);
    }
  }

  lemma {:induction false} AttachAllOrderly(d: Directory, s: State, id: Id, nss: seq<Ns>)
    requires Orderly(d, s.log)
    ensures Orderly(d, AttachAll(s, id, nss).st.log)
    decreases |nss|
  {
    hide Orderly, Send, Last;
    if nss != [] {
      SendOrderly(d, s, Dst, AttachNs(id, nss[0].nsid));
      AttachAllOrderly(d, Send(s, Dst, AttachNs(id, nss[0].nsid)).st, id, nss[1..]);
    }
  }

  lemma PassiveOrderly(d: Directory, s: State, c: NvmeCtrl)
    requires Orderly(d, s.log) && Last(s.log) == Some(Msg(Src, SuspendNvme(c.cfg.id, AdminOnly)))
    requires c.cfg.id in d.nvme && d.nvme[c.cfg.id] == c
    ensures Orderly(d, CreatePassiveNvme(s, c).st.log)
  {
    hide Orderly, Send, Last, AttachAll;
    SendOrderly(d, s, Dst, CreateNvme(c.cfg, true, true));
    AttachAllOrderly(d, Send(s, Dst, CreateNvme(c.cfg, true, true)).st, c.cfg.id, c.namespaces);
  }

  lemma MoveNvmeOrderly(d: Directory, s: State, id: Id)
    requires Keyed(d) && Orderly(d, s.log)
    ensures Orderly(d, MoveNvme(d, s, id).st.log)
  {
    hide Orderly, Send, Last, EnsureSubsys, EnsureAllNs, CreatePassiveNvme;
    if id in d.nvme {
      var c := d.nvme[id];
      EnsureSubsysOrderly(d, s, c.cfg.nqn);
      var s1 := EnsureSubsys(d, s, c.cfg.nqn).st;
      EnsureAllNsOrderly(d, s1, c.cfg.nqn, c.namespaces);
      var s2 := EnsureAllNs(s1, c.cfg.nqn, c.namespaces).st;
      SendOrderly(d, s2, Src, SuspendNvme(c.cfg.id, AdminOnly));
      var s3 := Send(s2, Src, SuspendNvme(c.cfg.id, AdminOnly));
      if s3.Go? {
        PassiveOrderly(d, s3.st, c);
        SendOrderly(d, CreatePassiveNvme(s3.st, c).st, Src, SuspendNvme(c.cfg.id, LiveUpdate));
      }
    }
  }

  lemma {:induction false} ReleaseAllOrderly(d: Directory, s: State, id: Id, nss: seq<Ns>)
    requires Orderly(d, s.log)
    ensures Orderly(d, ReleaseAll(s, id, nss).st.log)
    decreases |nss|
  {
    hide Orderly, Send, DestroyBdev, Last;
    if nss != [] {
      SendOrderly(d, s, Src, DetachNs(id, nss[0].nsid));
      var t := Send(s, Src, DetachNs(id, nss[0].nsid));
      if t.Go? {
        DestroyBdevOrderly(d, t.st, nss[0].bdev);
      }
      ReleaseAllOrderly(d, ReleaseNs(s, id, nss[0]).st, id, nss[1..]);
    }
  }

  lemma DropNvmeOrderly(d: Directory, s: State, id: Id)
    requires Orderly(d, s.log)
    ensures Orderly(d, DropNvme(d, s, id).st.log)
  {
    hide Orderly, Send, ReleaseAll, Last;
    if id in d.nvme {
      ReleaseAllOrderly(d, s, id, d.nvme[id].namespaces);
      SendOrderly(d, ReleaseAll(s, id, d.nvme[id].namespaces).st, Src, DestroyNvme(id));
    }
  }

  lemma NvmeFuncOrderly(d: Directory, s: State, f: Func)
    requires Keyed(d) && Orderly(d, s.log)
    ensures Orderly(d, UpgradeNvmeFunc(d, s, f).st.log)
  {
    hide Keyed, Orderly, MoveNvme, DropNvme;
    if f.ctrl.Some? {
      MoveNvmeOrderly(d, s, f.ctrl.value);
      DropNvmeOrderly(d, MoveNvme(d, s, f.ctrl.value).st, f.ctrl.value);
    }
  }

  lemma {:induction false} NvmeVfsOrderly(d: Directory, s: State, vfs: seq<Func>)
    requires Keyed(d) && Orderly(d, s.log)
    ensures Orderly(d, UpgradeNvmeVfs(d, s, vfs).st.log)
    decreases |vfs|
  {
    hide Keyed, Orderly, UpgradeNvmeFunc;
    if vfs != [] {
      NvmeFuncOrderly(d, s, vfs[0]);
      NvmeVfsOrderly(d, UpgradeNvmeFunc(d, s, vfs[0]).st, vfs[1..]);
    }
  }

  lemma {:induction false} NvmePfsOrderly(d: Directory, s: State, pfs: seq<Pf>)
    requires Keyed(d) && Orderly(d, s.log)
    ensures Orderly(d, UpgradeNvmePfs(d, s, pfs).st.log)
    decreases |pfs|
  {
    hide Keyed, Orderly, UpgradeNvmeFunc, UpgradeNvmeVfs, DropNvme;
    if pfs != [] {
      var pf := pfs[0];
      NvmeFuncOrderly(d, s, pf.func);
      var t := UpgradeNvmeFunc(d, s, pf.func).st;
      NvmeVfsOrderly(d, t, pf.vfs);
      if pf.func.ctrl.Some? {
        DropNvmeOrderly(d, UpgradeNvmeVfs(d, t, pf.vfs).st, pf.func.ctrl.value);
      }
      NvmePfsOrderly(d, UpgradeNvmePf(d, s, pf).st, pfs[1..]);
    }
  }

  // Every run sends its RPCs in order, to the right side and with the values of the
  // tables, whatever the two processes answer and wherever it stops.
  lemma RunOrderly(d: Directory, s: State, vblkPfs: seq<Pf>, nvmePfs: seq<Pf>)
    requires Keyed(d) && s.log == []
    ensures Orderly(d, Upgrade(d, s, vblkPfs, nvmePfs).st.log)
  {
    hide Keyed, InOrder, UpgradeVblkPfs, UpgradeNvmePfs;
    VblkPfsOrderly(d, s, vblkPfs);
    NvmePfsOrderly(d, UpgradeVblkPfs(d, s, vblkPfs).st, nvmePfs);
  }

  // So does every run that starts from what a source process reports, whether or not
  // its lists are well formed.
  lemma SnapshotOrderly(v: Snapshot, w: World, failsAt: Option<nat>)
    ensures Orderly(Tables(v), Upgrade(Tables(v), Initial(v, w).(failsAt := failsAt), v.vblkPfs, v.nvmePfs).st.log)
  {
    hide Tables, Initial, Upgrade, Orderly;
    TablesAreKeyed(v);
    InitialParts(v, w);
    RunOrderly(Tables(v), Initial(v, w).(failsAt := failsAt), v.vblkPfs, v.nvmePfs);
  }
}
