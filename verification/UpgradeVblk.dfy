/**
 Moving one virtio-blk controller to the destination, and dropping it from the
 source afterwards.
 */
module UpgradeVblk {
  import opened Common
  import opened UpgradeWorld
  import opened UpgradeSpec
  import opened UpgradeInvariant
  import opened UpgradeDisks

  // w' differs from w at one virtio-blk controller only.
  ghost predicate VblkDiffer(w: World, w': World, id: Id) {
    && w'.setting == w.setting
    && w'.src == w.src.(vblk := w'.src.vblk)
    && w'.dst == w.dst.(vblk := w'.dst.vblk)
    && w'.src.vblk - {id} == w.src.vblk - {id}
    && w'.dst.vblk - {id} == w.dst.vblk - {id}
  }

  lemma OthersKept(d: Directory, w: World, w': World, id: Id)
    requires Hand(d, w, {id}, {}) && VblkDiffer(w, w', id)
    requires id in d.vblk
    ensures Hand(d, w', {id}, {})
  {
    forall o | o in d.vblk && o != id ensures VblkSettled(d, w', o) {
      assert VblkSettled(d, w, o);
      assert (o in w'.src.vblk - {id}) == (o in w.src.vblk - {id});
      assert (o in w'.dst.vblk - {id}) == (o in w.dst.vblk - {id});
      if o in w.src.vblk {
        assert (w'.src.vblk - {id})[o] == (w.src.vblk - {id})[o];
      }
      if o in w.dst.vblk {
        assert (w'.dst.vblk - {id})[o] == (w.dst.vblk - {id})[o];
      }
    }
    forall o | o in d.nvme ensures NvmeSettled(d, w', o) {
      assert NvmeSettled(d, w, o);
    }
    forall o | o in w'.src.vblk ensures o in d.vblk {
      assert o == id || o in w'.src.vblk - {id};
    }
    forall o | o in w'.dst.vblk ensures o in d.vblk {
      assert o == id || o in w'.dst.vblk - {id};
    }
  }

  lemma Depart(d: Directory, w: World, id: Id)
    requires Hand(d, w, {}, {})
    ensures Hand(d, w, {id}, {})
  {
  }

  lemma Arrive(d: Directory, w: World, id: Id)
    requires Hand(d, w, {id}, {}) && (id in d.vblk ==> VblkSettled(d, w, id))
    ensures Hand(d, w, {}, {})
  {
  }

  // The state after sending m.
  ghost function After(s: State, m: Msg): State {
    Send(s, m.side, m.rpc).st
  }

  // One RPC about one virtio-blk controller that changes no reference.
  lemma VblkSent(i: State, d: Directory, s: State, m: Msg, id: Id)
    requires Held(i, d, s, None, {id}, {}) && id in d.vblk
    requires Enabled(s.world, m) && OneWay(m) && RemovalDue(i, s.world, m.rpc)
    requires !m.rpc.DeleteNull? && !m.rpc.DeleteMalloc? && !m.rpc.DetachBase?
    requires VblkDiffer(s.world, Step(s.world, m), id)
    requires SameRefs(s.world.src, Step(s.world, m).src)
    requires VblkSafe(d, Step(s.world, m), Some(m), id)
    ensures Held(i, d, After(s, m), None, {id}, {})
  {
    hide Enabled, Step, VblkSafe, Ready, Replay, Traced, Right;
    var t := After(s, m);
    assert ReadyDisks(i) by { Readied(i, d); }
    RightNow(i, s);
    BooksKept(i, s, t, None);
    hide DestBook, SrcBook;
    OthersKept(d, s.world, t.world, id);
    hide Hand, ReadyDisks;
    assert Sent(s, t, m);
    assert RemovalDue(i, t.world, m.rpc);
    hide RemovalDue;
    SentInTransit(i, d, s, t, None, m, {id}, {});
  }

  lemma Readied(i: State, d: Directory)
    requires Ready(i, d)
    ensures ReadyDisks(i) && ReadyCtrls(i, d)
  {
  }

  // A moved or dropped controller leaves every NVMe controller as it was.
  ghost predicate NvmeSame(w: World, w': World) {
    w'.src.nvme == w.src.nvme && w'.dst.nvme == w.dst.nvme
  }

  ghost predicate VblkSame(w: World, w': World) {
    w'.src.vblk == w.src.vblk && w'.dst.vblk == w.dst.vblk
  }

  // Warning the driver changes nothing that matters here.
  lemma EventsOnlyWorks(i: State, d: Directory, s: State, id: Id)
    requires Inv(i, d, s) && id in d.vblk && VblkHome(d, s.world, id)
    ensures var m := Msg(Src, SuspendVblk(id, EventsOnly));
      Send(s, Src, m.rpc) == Go(After(s, m)) && Inv(i, d, After(s, m)) && After(s, m).world == s.world
  {
    hide Ready, DestBook, SrcBook, Traced, Hand;
    var m := Msg(Src, SuspendVblk(id, EventsOnly));
    Depart(d, s.world, id);
    VblkSent(i, d, s, m, id);
    Arrive(d, s.world, id);
  }

  // The live-update suspend opens the gap.
  lemma HandOverSuspends(i: State, d: Directory, s: State, id: Id)
    requires Inv(i, d, s) && id in d.vblk && VblkHome(d, s.world, id)
    ensures var m := Msg(Src, SuspendVblk(id, LiveUpdate)); var t := After(s, m);
      && Send(s, Src, m.rpc) == Go(t) && Held(i, d, t, None, {id}, {}) && VblkGap(d, t.world, id)
      && VblkDiffer(s.world, t.world, id) && t.world.src.vblk.Keys == s.world.src.vblk.Keys
      && t.world.dst.vblk == s.world.dst.vblk
  {
    hide Ready, DestBook, SrcBook, Traced, Hand;
    var m := Msg(Src, SuspendVblk(id, LiveUpdate));
    Depart(d, s.world, id);
    VblkSent(i, d, s, m, id);
  }

  // The create on the destination closes it.
  lemma HandOverCreates(i: State, d: Directory, s: State, id: Id)
    requires Held(i, d, s, None, {id}, {}) && id in d.vblk && VblkGap(d, s.world, id) && d.vblk[id].id == id
    requires d.vblk[id].bdev.Some? ==> d.vblk[id].bdev.value in s.world.dst.disks
    ensures var m := Msg(Dst, CreateVblk(d.vblk[id], true, true)); var t := After(s, m);
      && Send(s, Dst, m.rpc) == Go(t) && Inv(i, d, t)
      && VblkDiffer(s.world, t.world, id) && t.world.src.vblk == s.world.src.vblk
      && t.world.dst.vblk.Keys == s.world.dst.vblk.Keys + {id}
  {
    hide Ready, DestBook, SrcBook, Traced, Hand;
    var m := Msg(Dst, CreateVblk(d.vblk[id], true, true));
    VblkSent(i, d, s, m, id);
    Arrive(d, After(s, m).world, id);
  }

  lemma MoveVblkWorks(i: State, d: Directory, s: State, id: Id)
    requires Inv(i, d, s) && id in d.vblk && id !in s.world.dst.vblk
    ensures var r := MoveVblk(d, s, id);
      && r.Go? && Inv(i, d, r.st) && NvmeSame(s.world, r.st.world)
      && r.st.world.src.vblk.Keys == s.world.src.vblk.Keys
      && r.st.world.dst.vblk.Keys == s.world.dst.vblk.Keys + {id}
  {
    hide DestBook, SrcBook, Traced, ReadyDisks, Send, CreateBdev, Movable;
    assert VblkSettled(d, s.world, id) && ReadyVblk(i, d, id);
    var c := d.vblk[id];
    var t := s;
    if c.bdev.Some? {
      CreateBdevWorks(i, d, s, c.bdev.value);
      t := CreateBdev(s, c.bdev.value).st;
    }
    hide Ready, Hand;
    EventsOnlyWorks(i, d, t, id);
    var u := After(t, Msg(Src, SuspendVblk(id, EventsOnly)));
    HandOverSuspends(i, d, u, id);
    var v := After(u, Msg(Src, SuspendVblk(id, LiveUpdate)));
    HandOverCreates(i, d, v, id);
  }

  // ----- Dropping -----

  lemma DestroyVblkWorks(i: State, d: Directory, s: State, id: Id, force: bool)
    requires Inv(i, d, s) && id in d.vblk && id in s.world.src.vblk && id in s.world.dst.vblk
    requires IsVf(s.world.setting.vblkVfs, id) ==> force
    requires VfsOf(s.world.setting.vblkVfs, id) !! s.world.src.vblk.Keys
    ensures var m := Msg(Src, DestroyVblk(id, force)); var t := After(s, m);
      && Send(s, Src, m.rpc) == Go(t) && Held(i, d, t, d.vblk[id].bdev, {}, {})
      && NvmeSame(s.world, t.world) && t.world.dst == s.world.dst
      && t.world.src.vblk.Keys == s.world.src.vblk.Keys - {id}
  {
    hide DestBook, SrcBook, Traced, ReadyDisks, ReadyCtrls, IsVf, Right;
    RightNow(i, s);
    assert VblkSettled(d, s.world, id);
    var m := Msg(Src, DestroyVblk(id, force));
    assert Enabled(s.world, m);
    var t := After(s, m);
    Depart(d, s.world, id);
    OthersKept(d, s.world, t.world, id);
    Arrive(d, t.world, id);
    hide Hand;
    DropBooks(i, s, t, id);
    SentInTransit(i, d, s, t, d.vblk[id].bdev, m, {}, {});
  }

  lemma DropBooks(i: State, s: State, t: State, id: Id)
    requires DestBook(i, s) && SrcBook(i, s, None) && id in s.world.src.vblk
    requires t == s.(world := t.world, log := t.log, trail := t.trail)
    requires t.world == s.world.(src := s.world.src.(vblk := s.world.src.vblk - {id}))
    ensures DestBook(i, t) && SrcBook(i, t, s.world.src.vblk[id].cfg.bdev)
  {
    hide LiveRefs, Slack;
    DestBookSame(i, s, t);
    hide DestBook;
    var pending := s.world.src.vblk[id].cfg.bdev;
    SrcRestMoved(i, s, t);
    hide SrcBases, SrcDisks;
    forall b | b in i.bdevs ensures Count(i, t, pending, b) {
      assert Count(i, s, None, b);
      VblkRefDropped(s.world.src, id, b);
    }
  }

  lemma DropVblkWorks(i: State, d: Directory, s: State, id: Id, force: bool)
    requires Inv(i, d, s) && id in d.vblk && id in s.world.src.vblk && id in s.world.dst.vblk
    requires IsVf(s.world.setting.vblkVfs, id) ==> force
    requires VfsOf(s.world.setting.vblkVfs, id) !! s.world.src.vblk.Keys
    ensures var r := DropVblk(d, s, id, force);
      && r.Go? && Inv(i, d, r.st) && NvmeSame(s.world, r.st.world)
      && r.st.world.src.vblk.Keys == s.world.src.vblk.Keys - {id}
      && r.st.world.dst.vblk == s.world.dst.vblk
  {
    hide DestBook, SrcBook, Traced, ReadyDisks, Send, Hand, DestroyBdev, IsVf;
    assert ReadyVblk(i, d, id);
    DestroyVblkWorks(i, d, s, id, force);
    if d.vblk[id].bdev.Some? {
      DestroyBdevWorks(i, d, After(s, Msg(Src, DestroyVblk(id, force))), d.vblk[id].bdev.value);
    }
  }
}
