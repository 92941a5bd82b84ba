/**
 The loops over physical and virtual functions: every in-use function is moved, and
 dropped from the source after its virtual functions.
 */
module UpgradeRun {
  import opened Common
  import opened UpgradeWorld
  import opened UpgradeSpec
  import opened UpgradeInvariant
  import opened UpgradeVblk
  import opened UpgradeNvme

  // ----- The function tree -----

  ghost function FuncId(f: Func): seq<Id> {
    if f.ctrl.Some? then [f.ctrl.value] else []
  }

  // The controllers of the in-use functions, in order.
  ghost function FuncIds(fs: seq<Func>): seq<Id> {
    if fs == [] then [] else FuncId(fs[0]) + FuncIds(fs[1..])
  }

  ghost function PfIds(pf: Pf): seq<Id> {
    FuncId(pf.func) + FuncIds(pf.vfs)
  }

  ghost function TreeIds(pfs: seq<Pf>): seq<Id> {
    if pfs == [] then [] else PfIds(pfs[0]) + TreeIds(pfs[1..])
  }

  ghost predicate VfOk(vfs: map<Id, set<Id>>, f: Func) {
    f.vfIndex.Some? && (f.ctrl.Some? ==> VfsOf(vfs, f.ctrl.value) == {})
  }

  // A physical function's virtual functions are the ones the setting gives it.
  ghost predicate PfOk(vfs: map<Id, set<Id>>, pf: Pf) {
    && pf.func.vfIndex.None?
    && (forall f | f in pf.vfs :: VfOk(vfs, f))
    && (pf.func.ctrl.Some? ==>
          && !IsVf(vfs, pf.func.ctrl.value)
          && VfsOf(vfs, pf.func.ctrl.value) <= Elems(FuncIds(pf.vfs)))
  }

  ghost predicate TreeOk(vfs: map<Id, set<Id>>, pfs: seq<Pf>) {
    NoDup(TreeIds(pfs)) && forall pf | pf in pfs :: PfOk(vfs, pf)
  }

  // ----- virtio-blk -----

  ghost predicate Rest(i: State, d: Directory, s: State) {
    Inv(i, d, s) && Intact(d, s.world) && s.world.setting == i.world.setting
  }

  lemma RestOf(i: State, d: Directory, s: State)
    requires Inv(i, d, s) && Intact(d, s.world)
    ensures Rest(i, d, s)
  {
    hide SrcBook, Hand, Traced, Ready, Intact;
  }

  // t follows s: these controllers were moved, and those dropped.
  ghost predicate VblkMoved(s: State, t: State, moved: set<Id>, dropped: set<Id>) {
    && NvmeSame(s.world, t.world)
    && t.world.dst.vblk.Keys == s.world.dst.vblk.Keys + moved
    && t.world.src.vblk.Keys == s.world.src.vblk.Keys - dropped
  }

  // Controllers still to move are on the source and not on the destination.
  ghost predicate VblkTodo(d: Directory, s: State, ids: set<Id>) {
    ids <= d.vblk.Keys && ids <= s.world.src.vblk.Keys && ids !! s.world.dst.vblk.Keys
  }

  lemma VblkFuncWorks(i: State, d: Directory, s: State, f: Func)
    requires Rest(i, d, s) && VblkTodo(d, s, Elems(FuncId(f)))
    requires f.vfIndex.Some? ==> VfOk(i.world.setting.vblkVfs, f)
    ensures var r := UpgradeVblkFunc(d, s, f);
      && r.Go? && Rest(i, d, r.st)
      && VblkMoved(s, r.st, Elems(FuncId(f)), if f.vfIndex.Some? then Elems(FuncId(f)) else {})
  {
    hide Inv, MoveVblk, DropVblk, IsVf, Intact;
    if f.ctrl.Some? {
      var id := f.ctrl.value;
      assert id in Elems(FuncId(f));
      assert Elems(FuncId(f)) == {id};
      MoveVblkWorks(i, d, s, id);
      var t := MoveVblk(d, s, id).st;
      IntactKept(d, s.world, t.world);
      RestOf(i, d, t);
      if f.vfIndex.Some? {
        DropVblkWorks(i, d, t, id, true);
        var u := DropVblk(d, t, id, true).st;
        IntactKept(d, t.world, u.world);
        RestOf(i, d, u);
      }
    }
  }

  lemma IntactKept(d: Directory, w: World, w': World)
    requires Intact(d, w) && NvmeSame(w, w')
    ensures Intact(d, w')
  {
  }

  lemma NothingMoved(s: State)
    ensures Elems<Id>([]) == {} && VblkMoved(s, s, {}, {}) && NvmeMoved(s, s, {}, {})
  {
  }

  lemma {:induction false} VblkVfsWork(i: State, d: Directory, s: State, vfs: seq<Func>)
    requires Rest(i, d, s) && VblkTodo(d, s, Elems(FuncIds(vfs))) && NoDup(FuncIds(vfs))
    requires forall f | f in vfs :: VfOk(i.world.setting.vblkVfs, f)
    ensures var r := UpgradeVblkVfs(d, s, vfs);
      && r.Go? && Rest(i, d, r.st)
      && VblkMoved(s, r.st, Elems(FuncIds(vfs)), Elems(FuncIds(vfs)))
    decreases |vfs|
  {
    hide Rest, UpgradeVblkFunc, VfOk, FuncId, NoDup, Elems, VblkMoved;
    if vfs == [] {
      NothingMoved(s);
    } else {
      NoDupSplit(FuncId(vfs[0]), FuncIds(vfs[1..]));
      var own, rest := Elems(FuncId(vfs[0])), Elems(FuncIds(vfs[1..]));
      assert VfOk(i.world.setting.vblkVfs, vfs[0]);
      assert vfs[0].vfIndex.Some? by { IsVfFunc(i, vfs[0]); }
      VblkFuncWorks(i, d, s, vfs[0]);
      var t := UpgradeVblkFunc(d, s, vfs[0]).st;
      VblkStillTodo(d, s, t, rest, own, own);
      VblkVfsWork(i, d, t, vfs[1..]);
      VblkMovedTwice(s, t, UpgradeVblkVfs(d, t, vfs[1..]).st, own, own, rest, rest);
    }
  }

  lemma IsVfFunc(i: State, f: Func)
    ensures forall vfs :: VfOk(vfs, f) ==> f.vfIndex.Some?
  {
  }

  lemma OwnId(f: Func)
    ensures Elems(FuncId(f)) == if f.ctrl.Some? then {f.ctrl.value} else {}
  {
  }

  lemma VblkMovedTwice(s: State, t: State, u: State, a: set<Id>, b: set<Id>, c: set<Id>, e: set<Id>)
    requires VblkMoved(s, t, a, b) && VblkMoved(t, u, c, e)
    ensures VblkMoved(s, u, a + c, b + e)
  {
  }

  lemma VblkStillTodo(d: Directory, s: State, t: State, ids: set<Id>, moved: set<Id>, dropped: set<Id>)
    requires VblkTodo(d, s, ids) && VblkMoved(s, t, moved, dropped) && ids !! moved && ids !! dropped
    ensures VblkTodo(d, t, ids)
  {
  }

  // The physical function goes last: it and its virtual functions have been moved,
  // and the virtual ones dropped.
  lemma VblkPfDrops(i: State, d: Directory, s: State, u: State, pf: Pf)
    requires Rest(i, d, u) && PfOk(i.world.setting.vblkVfs, pf)
    requires VblkTodo(d, s, Elems(PfIds(pf))) && NoDup(PfIds(pf))
    requires VblkMoved(s, u, Elems(PfIds(pf)), Elems(FuncIds(pf.vfs)))
    requires pf.func.ctrl.Some?
    ensures var r := DropVblk(d, u, pf.func.ctrl.value, false);
      r.Go? && Rest(i, d, r.st) && VblkMoved(u, r.st, {}, {pf.func.ctrl.value})
  {
    hide Inv, Intact, VfOk, DropVblk, IsVf;
    var id := pf.func.ctrl.value;
    NoDupSplit(FuncId(pf.func), FuncIds(pf.vfs));
    OwnId(pf.func);
    hide NoDup, FuncId, FuncIds;
    assert id in Elems(PfIds(pf)) && id !in Elems(FuncIds(pf.vfs));
    hide Elems;
    DropVblkWorks(i, d, u, id, false);
    var v := DropVblk(d, u, id, false).st;
    IntactKept(d, u.world, v.world);
    RestOf(i, d, v);
  }

  lemma VblkPfWorks(i: State, d: Directory, s: State, pf: Pf)
    requires Rest(i, d, s) && VblkTodo(d, s, Elems(PfIds(pf))) && NoDup(PfIds(pf))
    requires PfOk(i.world.setting.vblkVfs, pf)
    ensures var r := UpgradeVblkPf(d, s, pf);
      && r.Go? && Rest(i, d, r.st) && VblkMoved(s, r.st, Elems(PfIds(pf)), Elems(PfIds(pf)))
  {
    hide Rest, UpgradeVblkFunc, UpgradeVblkVfs, VfOk, DropVblk, IsVf, VfsOf, VblkMoved;
    NoDupSplit(FuncId(pf.func), FuncIds(pf.vfs));
    OwnId(pf.func);
    hide FuncId, FuncIds, NoDup;
    var own, vfs := Elems(FuncId(pf.func)), Elems(FuncIds(pf.vfs));
    hide Elems;
    VblkFuncWorks(i, d, s, pf.func);
    var t := UpgradeVblkFunc(d, s, pf.func).st;
    VblkStillTodo(d, s, t, vfs, own, {});
    hide VblkTodo;
    VblkVfsWork(i, d, t, pf.vfs);
    var u := UpgradeVblkVfs(d, t, pf.vfs).st;
    VblkMovedTwice(s, t, u, own, {}, vfs, vfs);
    assert {} + vfs == vfs;
    if pf.func.ctrl.Some? {
      VblkPfDrops(i, d, s, u, pf);
      var v := DropVblk(d, u, pf.func.ctrl.value, false).st;
      VblkMovedTwice(s, u, v, own + vfs, vfs, {}, own);
      assert own + vfs + {} == own + vfs && vfs + own == own + vfs;
    } else {
      assert own + vfs == vfs;
    }
  }

  lemma {:induction false} VblkPfsWork(i: State, d: Directory, s: State, pfs: seq<Pf>)
    requires Rest(i, d, s) && VblkTodo(d, s, Elems(TreeIds(pfs))) && TreeOk(i.world.setting.vblkVfs, pfs)
    ensures var r := UpgradeVblkPfs(d, s, pfs);
      && r.Go? && Rest(i, d, r.st) && VblkMoved(s, r.st, Elems(TreeIds(pfs)), Elems(TreeIds(pfs)))
    decreases |pfs|
  {
    hide Rest, UpgradeVblkPf, PfOk, PfIds, NoDup, Elems, VblkMoved;
    if pfs == [] {
      NothingMoved(s);
    } else {
      NoDupSplit(PfIds(pfs[0]), TreeIds(pfs[1..]));
      var own, rest := Elems(PfIds(pfs[0])), Elems(TreeIds(pfs[1..]));
      VblkPfWorks(i, d, s, pfs[0]);
      var t := UpgradeVblkPf(d, s, pfs[0]).st;
      VblkStillTodo(d, s, t, rest, own, own);
      VblkPfsWork(i, d, t, pfs[1..]);
      VblkMovedTwice(s, t, UpgradeVblkPfs(d, t, pfs[1..]).st, own, own, rest, rest);
    }
  }

  // ----- NVMe -----

  ghost predicate NvmeMoved(s: State, t: State, moved: set<Id>, dropped: set<Id>) {
    && VblkSame(s.world, t.world)
    && t.world.dst.nvme.Keys == s.world.dst.nvme.Keys + moved
    && t.world.src.nvme.Keys == s.world.src.nvme.Keys - dropped
  }

  ghost predicate NvmeTodo(d: Directory, s: State, ids: set<Id>) {
    ids <= d.nvme.Keys && ids <= s.world.src.nvme.Keys && ids !! s.world.dst.nvme.Keys
  }

  lemma NvmeFuncWorks(i: State, d: Directory, s: State, f: Func)
    requires Rest(i, d, s) && NvmeTodo(d, s, Elems(FuncId(f)))
    requires f.vfIndex.Some? ==> VfOk(i.world.setting.nvmeVfs, f)
    ensures var r := UpgradeNvmeFunc(d, s, f);
      && r.Go? && Rest(i, d, r.st)
      && NvmeMoved(s, r.st, Elems(FuncId(f)), if f.vfIndex.Some? then Elems(FuncId(f)) else {})
  {
    hide Inv, MoveNvme, DropNvme, IsVf, Intact;
    if f.ctrl.Some? {
      var id := f.ctrl.value;
      assert id in Elems(FuncId(f));
      assert Elems(FuncId(f)) == {id};
      MoveNvmeWorks(i, d, s, id);
      var t := MoveNvme(d, s, id).st;
      RestOf(i, d, t);
      if f.vfIndex.Some? {
        DropNvmeWorks(i, d, t, id);
        RestOf(i, d, DropNvme(d, t, id).st);
      }
    }
  }

  lemma {:induction false} NvmeVfsWork(i: State, d: Directory, s: State, vfs: seq<Func>)
    requires Rest(i, d, s) && NvmeTodo(d, s, Elems(FuncIds(vfs))) && NoDup(FuncIds(vfs))
    requires forall f | f in vfs :: VfOk(i.world.setting.nvmeVfs, f)
    ensures var r := UpgradeNvmeVfs(d, s, vfs);
      && r.Go? && Rest(i, d, r.st)
      && NvmeMoved(s, r.st, Elems(FuncIds(vfs)), Elems(FuncIds(vfs)))
    decreases |vfs|
  {
    hide Rest, UpgradeNvmeFunc, VfOk, FuncId, NoDup, Elems, NvmeMoved;
    if vfs == [] {
      NothingMoved(s);
    } else {
      NoDupSplit(FuncId(vfs[0]), FuncIds(vfs[1..]));
      var own, rest := Elems(FuncId(vfs[0])), Elems(FuncIds(vfs[1..]));
      assert VfOk(i.world.setting.nvmeVfs, vfs[0]);
      assert vfs[0].vfIndex.Some? by { IsVfFunc(i, vfs[0]); }
      NvmeFuncWorks(i, d, s, vfs[0]);
      var t := UpgradeNvmeFunc(d, s, vfs[0]).st;
      NvmeStillTodo(d, s, t, rest, own, own);
      NvmeVfsWork(i, d, t, vfs[1..]);
      NvmeMovedTwice(s, t, UpgradeNvmeVfs(d, t, vfs[1..]).st, own, own, rest, rest);
    }
  }

  lemma NvmeMovedTwice(s: State, t: State, u: State, a: set<Id>, b: set<Id>, c: set<Id>, e: set<Id>)
    requires NvmeMoved(s, t, a, b) && NvmeMoved(t, u, c, e)
    ensures NvmeMoved(s, u, a + c, b + e)
  {
  }

  lemma NvmeStillTodo(d: Directory, s: State, t: State, ids: set<Id>, moved: set<Id>, dropped: set<Id>)
    requires NvmeTodo(d, s, ids) && NvmeMoved(s, t, moved, dropped) && ids !! moved && ids !! dropped
    ensures NvmeTodo(d, t, ids)
  {
  }

  // The physical function goes last: it and its virtual functions have been moved,
  // and the virtual ones dropped.
  lemma NvmePfDrops(i: State, d: Directory, s: State, u: State, pf: Pf)
    requires Rest(i, d, u) && PfOk(i.world.setting.nvmeVfs, pf)
    requires NvmeTodo(d, s, Elems(PfIds(pf))) && NoDup(PfIds(pf))
    requires NvmeMoved(s, u, Elems(PfIds(pf)), Elems(FuncIds(pf.vfs)))
    requires pf.func.ctrl.Some?
    ensures var r := DropNvme(d, u, pf.func.ctrl.value);
      r.Go? && Rest(i, d, r.st) && NvmeMoved(u, r.st, {}, {pf.func.ctrl.value})
  {
    hide Inv, Intact, VfOk, DropNvme, IsVf;
    var id := pf.func.ctrl.value;
    NoDupSplit(FuncId(pf.func), FuncIds(pf.vfs));
    OwnId(pf.func);
    hide NoDup, FuncId, FuncIds;
    assert id in Elems(PfIds(pf)) && id !in Elems(FuncIds(pf.vfs));
    hide Elems;
    DropNvmeWorks(i, d, u, id);
    var v := DropNvme(d, u, id).st;
    RestOf(i, d, v);
  }

  lemma NvmePfWorks(i: State, d: Directory, s: State, pf: Pf)
    requires Rest(i, d, s) && NvmeTodo(d, s, Elems(PfIds(pf))) && NoDup(PfIds(pf))
    requires PfOk(i.world.setting.nvmeVfs, pf)
    ensures var r := UpgradeNvmePf(d, s, pf);
      && r.Go? && Rest(i, d, r.st) && NvmeMoved(s, r.st, Elems(PfIds(pf)), Elems(PfIds(pf)))
  {
    hide Rest, UpgradeNvmeFunc, UpgradeNvmeVfs, VfOk, DropNvme, IsVf, VfsOf, NvmeMoved;
    NoDupSplit(FuncId(pf.func), FuncIds(pf.vfs));
    OwnId(pf.func);
    hide FuncId, FuncIds, NoDup;
    var own, vfs := Elems(FuncId(pf.func)), Elems(FuncIds(pf.vfs));
    hide Elems;
    NvmeFuncWorks(i, d, s, pf.func);
    var t := UpgradeNvmeFunc(d, s, pf.func).st;
    NvmeStillTodo(d, s, t, vfs, own, {});
    hide NvmeTodo;
    NvmeVfsWork(i, d, t, pf.vfs);
    var u := UpgradeNvmeVfs(d, t, pf.vfs).st;
    NvmeMovedTwice(s, t, u, own, {}, vfs, vfs);
    assert {} + vfs == vfs;
    if pf.func.ctrl.Some? {
      NvmePfDrops(i, d, s, u, pf);
      var v := DropNvme(d, u, pf.func.ctrl.value).st;
      NvmeMovedTwice(s, u, v, own + vfs, vfs, {}, own);
      assert own + vfs + {} == own + vfs && vfs + own == own + vfs;
    } else {
      assert own + vfs == vfs;
    }
  }

  lemma {:induction false} NvmePfsWork(i: State, d: Directory, s: State, pfs: seq<Pf>)
    requires Rest(i, d, s) && NvmeTodo(d, s, Elems(TreeIds(pfs))) && TreeOk(i.world.setting.nvmeVfs, pfs)
    ensures var r := UpgradeNvmePfs(d, s, pfs);
      && r.Go? && Rest(i, d, r.st) && NvmeMoved(s, r.st, Elems(TreeIds(pfs)), Elems(TreeIds(pfs)))
    decreases |pfs|
  {
    hide Rest, UpgradeNvmePf, PfOk, PfIds, NoDup, Elems, NvmeMoved;
    if pfs == [] {
      NothingMoved(s);
    } else {
      NoDupSplit(PfIds(pfs[0]), TreeIds(pfs[1..]));
      var own, rest := Elems(PfIds(pfs[0])), Elems(TreeIds(pfs[1..]));
      NvmePfWorks(i, d, s, pfs[0]);
      var t := UpgradeNvmePf(d, s, pfs[0]).st;
      NvmeStillTodo(d, s, t, rest, own, own);
      NvmePfsWork(i, d, t, pfs[1..]);
      NvmeMovedTwice(s, t, UpgradeNvmePfs(d, t, pfs[1..]).st, own, own, rest, rest);
    }
  }

  // ----- The start -----

  lemma StartDest(i: State, d: Directory)
    requires Ready(i, d)
    ensures DestBook(i, i)
  {
    hide ReadyCtrls;
    forall b | b in i.bdevs ensures DestDisk(i, i, b) {
      assert ReadyDisk(i, b);
      if i.bdevs[b].base.Some? {
        assert ReadyBase(i, i.bdevs[b].base.value);
      }
    }
    forall x | x in i.bases ensures DestBase(i, i, x) {
      assert ReadyBase(i, x);
    }
    forall n ensures DestSubsys(i, n) {
      assert n in i.subsysHist ==> i.subsysHist[n] == 0 by { StartHist(i, d); }
    }
    forall k ensures DestNs(i, i, k) {
    }
  }

  lemma StartHist(i: State, d: Directory)
    requires ReadyCtrls(i, d)
    ensures forall n | n in i.subsysHist :: i.subsysHist[n] == 0
  {
  }

  lemma StartSrc(i: State, d: Directory)
    requires Ready(i, d)
    ensures SrcBook(i, i, None)
  {
    hide ReadyCtrls, LiveRefs;
    forall b | b in i.bdevs ensures Count(i, i, None, b) && SrcDisk(i, i, b) {
      assert ReadyDisk(i, b);
    }
    forall x | x in i.bases ensures SrcBase(i, i, x) {
      assert ReadyBase(i, x);
      assert Unspent(i, i, x) == OnBase(i, x);
    }
  }

  lemma StartHand(i: State, d: Directory)
    requires Ready(i, d)
    ensures Hand(d, i.world, {}, {}) && Intact(d, i.world)
  {
    hide ReadyDisks, NsMap;
    forall id | id in d.vblk ensures VblkSettled(d, i.world, id) {
      assert ReadyVblk(i, d, id);
    }
    forall id | id in d.nvme ensures NvmeSettled(d, i.world, id) {
      assert ReadyNvme(i, d, id);
    }
  }

  lemma Start(i: State, d: Directory)
    requires Ready(i, d)
    ensures Rest(i, d, i)
  {
    StartDest(i, d);
    StartSrc(i, d);
    StartHand(i, d);
    assert ReadyDisks(i) && i.log == [] by { hide ReadyDisks, ReadyCtrls, Blank; }
    CountsKeepDisks(i, i, None);
    hide DestBook, SrcBook, Intact, Ready, ReadyDisks;
    assert Safe(i, d, i.world, None) by {
      hide DiskSafe, RemovalDue;
      forall id | id in d.nvme ensures NvmeSafe(d, i.world, id) {
        assert NvmeSettled(d, i.world, id);
      }
      forall id | id in d.vblk ensures VblkSafe(d, i.world, None, id) {
        assert VblkSettled(d, i.world, id);
      }
    }
  }

  // ----- The whole run -----

  // The snapshot is well formed and the functions of the two trees are distinct.
  ghost predicate Launch(i: State, d: Directory, vblkPfs: seq<Pf>, nvmePfs: seq<Pf>) {
    && Ready(i, d)
    && TreeOk(i.world.setting.vblkVfs, vblkPfs) && Elems(TreeIds(vblkPfs)) <= d.vblk.Keys
    && TreeOk(i.world.setting.nvmeVfs, nvmePfs) && Elems(TreeIds(nvmePfs)) <= d.nvme.Keys
  }

  lemma RunWorks(i: State, d: Directory, vblkPfs: seq<Pf>, nvmePfs: seq<Pf>)
    requires Launch(i, d, vblkPfs, nvmePfs)
    ensures var r := Upgrade(d, i, vblkPfs, nvmePfs);
      && r.Go? && Inv(i, d, r.st)
      && r.st.world.dst.vblk.Keys == Elems(TreeIds(vblkPfs))
      && r.st.world.src.vblk.Keys == d.vblk.Keys - Elems(TreeIds(vblkPfs))
      && r.st.world.dst.nvme.Keys == Elems(TreeIds(nvmePfs))
      && r.st.world.src.nvme.Keys == d.nvme.Keys - Elems(TreeIds(nvmePfs))
  {
    hide Launch, Rest, Inv, UpgradeVblkPfs, UpgradeNvmePfs, TreeOk;
    Begins(i, d, vblkPfs, nvmePfs);
    Launched(i, d, vblkPfs, nvmePfs);
    VblkPfsWork(i, d, i, vblkPfs);
    var t := UpgradeVblkPfs(d, i, vblkPfs).st;
    NvmePfsWork(i, d, t, nvmePfs);
    RestIs(i, d, UpgradeNvmePfs(d, t, nvmePfs).st);
  }

  lemma RestIs(i: State, d: Directory, s: State)
    requires Rest(i, d, s)
    ensures Inv(i, d, s)
  {
    hide Inv;
  }

  lemma Begins(i: State, d: Directory, vblkPfs: seq<Pf>, nvmePfs: seq<Pf>)
    requires Launch(i, d, vblkPfs, nvmePfs)
    ensures Rest(i, d, i)
    ensures i.world.src.vblk.Keys == d.vblk.Keys && i.world.src.nvme.Keys == d.nvme.Keys
    ensures i.world.dst.vblk == map[] && i.world.dst.nvme == map[]
  {
    hide Rest, TreeOk, ReadyDisks;
    Start(i, d);
  }

  lemma Launched(i: State, d: Directory, vblkPfs: seq<Pf>, nvmePfs: seq<Pf>)
    requires Launch(i, d, vblkPfs, nvmePfs)
    ensures TreeOk(i.world.setting.vblkVfs, vblkPfs) && Elems(TreeIds(vblkPfs)) <= d.vblk.Keys
    ensures TreeOk(i.world.setting.nvmeVfs, nvmePfs) && Elems(TreeIds(nvmePfs)) <= d.nvme.Keys
  {
    hide Ready, TreeOk;
  }
}
