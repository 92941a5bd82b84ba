/**
 Creating and releasing disks: each operation of the bookkeeping keeps the
 invariant, and says exactly what it does to the two processes.
 */
module UpgradeDisks {
  import opened Common
  import opened UpgradeWorld
  import opened UpgradeSpec
  import opened UpgradeInvariant

  // w' is w with more objects on the destination and the same controllers.
  ghost predicate Grown(w: World, w': World) {
    && w'.setting == w.setting && w'.src == w.src
    && w'.dst.vblk == w.dst.vblk && w'.dst.nvme == w.dst.nvme
    && w.dst.disks.Keys <= w'.dst.disks.Keys
    && w.dst.subsystems.Keys <= w'.dst.subsystems.Keys
    && w.dst.namespaces.Keys <= w'.dst.namespaces.Keys
  }

  // w' is w with fewer disks and bases on the source.
  ghost predicate Released(w: World, w': World) {
    && w'.setting == w.setting && w'.dst == w.dst
    && w'.src.vblk == w.src.vblk && w'.src.nvme == w.src.nvme
    && w'.src.namespaces == w.src.namespaces && w'.src.subsystems == w.src.subsystems
  }

  // t is s after sending m, whatever else the bookkeeping noted.
  ghost predicate Sent(s: State, t: State, m: Msg) {
    && Enabled(s.world, m) && t.world == Step(s.world, m) && t.log == s.log + [m]
    && t.trail != [] && t.trail == s.trail + [Noted(t)] && Noted(t).world == s.world
  }

  // The moment at which the last RPC was sent.
  ghost function Noted(t: State): Moment
    requires t.trail != []
  {
    t.trail[|t.trail| - 1]
  }

  lemma HandMonotone(d: Directory, w: World, w': World, vblk: set<Id>, nvme: set<Id>)
    requires Hand(d, w, vblk, nvme)
    requires w'.src.vblk == w.src.vblk && w'.src.nvme == w.src.nvme
    requires w'.dst.vblk == w.dst.vblk && w'.dst.nvme == w.dst.nvme
    requires w.dst.disks.Keys <= w'.dst.disks.Keys
    ensures Hand(d, w', vblk, nvme)
  {
    forall id | id in d.vblk && id !in vblk ensures VblkSettled(d, w', id) {
      assert VblkSettled(d, w, id);
    }
    forall id | id in d.nvme && id !in nvme ensures NvmeSettled(d, w', id) {
      assert NvmeSettled(d, w, id);
    }
  }

  // A world in which the counts are right is safe, if the controllers in transit are.
  lemma TransitIsSafe(i: State, d: Directory, s: State, pending: Option<Name>, m: Msg, vblk: set<Id>, nvme: set<Id>)
    requires ReadyDisks(i) && SrcBook(i, s, pending) && Hand(d, s.world, vblk, nvme)
    requires forall id | id in vblk && id in d.vblk :: VblkSafe(d, s.world, Some(m), id)
    requires forall id | id in nvme && id in d.nvme :: NvmeSafe(d, s.world, id)
    requires OneWay(m) && RemovalDue(i, s.world, m.rpc)
    ensures Safe(i, d, s.world, Some(m))
  {
    hide SrcBook, ReadyDisks, DiskSafe, RemovalDue;
    CountsKeepDisks(i, s, pending);
    forall id | id in d.nvme ensures NvmeSafe(d, s.world, id) {
      if id !in nvme {
        assert NvmeSettled(d, s.world, id);
      }
    }
    forall id | id in d.vblk ensures VblkSafe(d, s.world, Some(m), id) {
      if id !in vblk {
        assert VblkSettled(d, s.world, id);
      }
    }
  }

  // Sending one RPC that leaves a safe transit keeps the trace good.
  lemma SentInTransit(i: State, d: Directory, s: State, t: State, pending: Option<Name>, m: Msg,
                      vblk: set<Id>, nvme: set<Id>)
    requires Traced(i, d, s) && Sent(s, t, m) && ReadyDisks(i)
    requires SrcBook(i, t, pending) && Hand(d, t.world, vblk, nvme)
    requires forall id | id in vblk && id in d.vblk :: VblkSafe(d, t.world, Some(m), id)
    requires forall id | id in nvme && id in d.nvme :: NvmeSafe(d, t.world, id)
    requires OneWay(m) && RemovalDue(i, t.world, m.rpc) && Right(i, Noted(t))
    ensures Traced(i, d, t)
  {
    hide SrcBook, Hand, Safe, RemovalDue, ReadyDisks, Traced, VblkSafe, NvmeSafe, Right;
    TransitIsSafe(i, d, t, pending, m, vblk, nvme);
    Extend(i, d, s, t, m, Noted(t));
  }

  // The counts depend only on what the controllers reference.
  lemma CountsSame(i: State, s: State, t: State, pending: Option<Name>)
    requires Frame(i, s) && Frame(i, t) && Counts(i, s, pending)
    requires t.world.src.vblk == s.world.src.vblk && t.world.src.nvme == s.world.src.nvme
    requires forall b {:trigger t.bdevs[b]} | b in i.bdevs :: t.bdevs[b].used == s.bdevs[b].used
    ensures Counts(i, t, pending)
  {
    hide LiveRefs, Slack;
    RefsDependOn(s.world.src, t.world.src);
    forall b | b in i.bdevs ensures Count(i, t, pending, b) {
      assert Count(i, s, pending, b);
    }
  }

  // The source side of the bookkeeping depends only on this.
  lemma SrcBookSame(i: State, s: State, t: State, pending: Option<Name>)
    requires SrcBook(i, s, pending) && Frame(i, t) && t.world.src == s.world.src
    requires forall b {:trigger t.bdevs[b]} | b in i.bdevs :: t.bdevs[b].used == s.bdevs[b].used
    requires forall x {:trigger t.bases[x]} | x in i.bases :: t.bases[x].used == s.bases[x].used
    ensures SrcBook(i, t, pending)
  {
    hide LiveRefs, Slack, Counts;
    CountsSame(i, s, t, pending);
    forall x | x in i.bases ensures SrcBase(i, t, x) {
      assert SrcBase(i, s, x);
      assert Unspent(i, t, x) == Unspent(i, s, x);
    }
    forall b | b in i.bdevs ensures SrcDisk(i, t, b) {
      assert SrcDisk(i, s, b);
    }
  }

  // What the books say of the source's disks and bases depends only on them.
  lemma SrcRestMoved(i: State, s: State, t: State)
    requires Frame(i, s) && Frame(i, t) && SrcBases(i, s) && SrcDisks(i, s)
    requires t.bases == s.bases && t.bdevs == s.bdevs
    requires t.world.src.bases == s.world.src.bases && t.world.src.disks == s.world.src.disks
    ensures SrcBases(i, t) && SrcDisks(i, t)
  {
    forall x | x in i.bases ensures SrcBase(i, t, x) {
      assert SrcBase(i, s, x);
      assert Unspent(i, t, x) == Unspent(i, s, x);
    }
    forall c | c in i.bdevs ensures SrcDisk(i, t, c) {
      assert SrcDisk(i, s, c);
    }
  }

  // The destination side depends only on this.
  lemma DestBookSame(i: State, s: State, t: State)
    requires DestBook(i, s) && Frame(i, t) && t.world.dst == s.world.dst && t.subsysHist == s.subsysHist
    requires forall b {:trigger t.bdevs[b]} | b in i.bdevs :: t.bdevs[b].created == s.bdevs[b].created
    requires forall x {:trigger t.bases[x]} | x in i.bases :: t.bases[x].created == s.bases[x].created
    ensures DestBook(i, t)
  {
    forall b | b in i.bdevs ensures DestDisk(i, t, b) {
      assert DestDisk(i, s, b);
    }
    forall x | x in i.bases ensures DestBase(i, t, x) {
      assert DestBase(i, s, x);
    }
    forall n ensures DestSubsys(t, n) {
      assert DestSubsys(s, n);
    }
    forall k ensures DestNs(i, t, k) {
      assert DestNs(i, s, k);
    }
  }

  // An RPC that only changes controllers, and no reference of theirs, keeps the books.
  lemma BooksKept(i: State, s: State, t: State, pending: Option<Name>)
    requires DestBook(i, s) && SrcBook(i, s, pending)
    requires t == s.(world := t.world, log := t.log, trail := t.trail) && t.world.setting == s.world.setting
    requires t.world.src == s.world.src.(vblk := t.world.src.vblk, nvme := t.world.src.nvme)
    requires t.world.dst == s.world.dst.(vblk := t.world.dst.vblk, nvme := t.world.dst.nvme)
    requires SameRefs(s.world.src, t.world.src)
    ensures DestBook(i, t) && SrcBook(i, t, pending)
  {
    hide LiveRefs, Slack;
    RefsDependOn(s.world.src, t.world.src);
    assert SrcBook(i, t, pending) by {
      hide DestBook;
      forall b | b in i.bdevs ensures Count(i, t, pending, b) {
        assert Count(i, s, pending, b);
      }
      hide Counts;
      SrcRestMoved(i, s, t);
    }
    hide SrcBook;
    forall b | b in i.bdevs ensures DestDisk(i, t, b) {
      assert DestDisk(i, s, b);
    }
    DestRest(i, s, t);
  }

  // ----- Creation -----

  lemma CreateBdevWorks(i: State, d: Directory, s: State, b: Name)
    requires Inv(i, d, s) && Movable(i, b)
    ensures CreateBdev(s, b).Go?
    ensures Inv(i, d, CreateBdev(s, b).st)
    ensures Grown(s.world, CreateBdev(s, b).st.world)
    ensures b in CreateBdev(s, b).st.world.dst.disks
    ensures CreateBdev(s, b).st.subsysHist == s.subsysHist
  {
    hide SrcBook, Hand, Traced, ReadyCtrls, Blank, Right;
    assert ReadyDisk(i, b) && DestDisk(i, s, b);
    RightNow(i, s);
    var e := s.bdevs[b];
    if e.created != 1 {
      var t := CreateBdev(s, b).st;
      if !e.info.product.NvmeDisk? {
        SizedCreateWorks(i, s, b);
        CreateKeepsRest(i, d, s, t, CreateOf(i, b));
      } else if s.bases[e.base.value].created == 1 {
        MarkKeeps(i, s, b);
        TracedSame(i, d, s, t);
      } else {
        AttachBaseWorks(i, s, b);
        CreateKeepsRest(i, d, s, t, Msg(Dst, AttachBase(e.base.value, e.info.product.trid)));
      }
    }
  }

  lemma CreateKeepsRest(i: State, d: Directory, s: State, t: State, m: Msg)
    requires ReadyDisks(i) && Hand(d, s.world, {}, {}) && Traced(i, d, s)
    requires SrcBook(i, t, None) && Sent(s, t, m) && Grown(s.world, t.world)
    requires m.side == Dst && OneWay(m) && Right(i, Noted(t))
    ensures Hand(d, t.world, {}, {}) && Traced(i, d, t)
  {
    hide SrcBook, Traced, ReadyDisks;
    HandMonotone(d, s.world, t.world, {}, {});
    hide Hand;
    SentInTransit(i, d, s, t, None, m, {}, {});
  }

  lemma MarkKeeps(i: State, s: State, b: Name)
    requires ReadyDisks(i) && DestBook(i, s) && SrcBook(i, s, None) && Movable(i, b)
    requires i.bdevs[b].info.product.NvmeDisk? && Made(i, s, b)
    ensures DestBook(i, MarkCreated(s, b)) && SrcBook(i, MarkCreated(s, b), None)
  {
    hide SrcBook, ReadyDisks;
    var t := MarkCreated(s, b);
    SrcBookSame(i, s, t, None);
    forall c | c in i.bdevs ensures DestDisk(i, t, c) {
      assert DestDisk(i, s, c);
    }
    DestRest(i, s, t);
  }

  // The parts of the destination's bookkeeping that a disk does not touch.
  lemma DestRest(i: State, s: State, t: State)
    requires DestBook(i, s) && Frame(i, t) && t.subsysHist == s.subsysHist
    requires t.world.dst.namespaces == s.world.dst.namespaces
    requires t.world.dst.subsystems == s.world.dst.subsystems
    requires t.world.dst.bases == s.world.dst.bases && t.bases == s.bases
    requires forall b {:trigger DestDisk(i, t, b)} | b in i.bdevs :: DestDisk(i, t, b)
    ensures DestBook(i, t)
  {
    forall x | x in i.bases ensures DestBase(i, t, x) {
      assert DestBase(i, s, x);
    }
    forall n ensures DestSubsys(t, n) {
      assert DestSubsys(s, n);
    }
    forall k ensures DestNs(i, t, k) {
      assert DestNs(i, s, k);
    }
  }

  lemma AttachBaseEnabled(i: State, s: State, b: Name)
    requires ReadyDisks(i) && DestBook(i, s) && Movable(i, b)
    requires i.bdevs[b].info.product.NvmeDisk? && ReadyDisk(i, b)
    requires s.bases[i.bdevs[b].base.value].created != 1
    ensures var x, trid := i.bdevs[b].base.value, i.bdevs[b].info.product.trid;
      && Enabled(s.world, Msg(Dst, AttachBase(x, trid)))
      && Exported(s.world.setting, x, trid).Keys == OnBase(i, x)
      && forall c | c in OnBase(i, x) :: Exported(s.world.setting, x, trid)[c] == i.bdevs[c].info
  {
    var x := i.bdevs[b].base.value;
    assert ReadyBase(i, x) && DestBase(i, s, x);
    forall n | n in OnBase(i, x) ensures n !in s.world.dst.disks {
      assert ReadyDisk(i, n) && DestDisk(i, s, n);
      assert !Made(i, s, n);
    }
  }

  // What is there when a base has been attached for the sake of disk b.
  ghost function BaseThere(i: State, s: State, b: Name, x: Name, m: Msg): State
    requires b in s.bdevs && x in s.bases && m.rpc.AttachBase?
  {
    var shown := Exported(s.world.setting, x, m.rpc.trid);
    var dst := s.world.dst.(
        bases := s.world.dst.bases[x := m.rpc.trid], disks := s.world.dst.disks + shown);
    MarkCreated(s, b).(
      bases := s.bases[x := s.bases[x].(created := 1)], world := s.world.(dst := dst),
      log := s.log + [m], trail := s.trail + [Now(s)])
  }

  lemma AttachBaseIs(i: State, s: State, b: Name)
    requires ReadyDisks(i) && DestBook(i, s) && Movable(i, b)
    requires i.bdevs[b].info.product.NvmeDisk? && ReadyDisk(i, b)
    requires s.bdevs[b].created != 1 && s.bases[i.bdevs[b].base.value].created != 1
    ensures var m := Msg(Dst, AttachBase(i.bdevs[b].base.value, i.bdevs[b].info.product.trid));
      var t := BaseThere(i, s, b, i.bdevs[b].base.value, m);
      CreateBdev(s, b) == Go(t) && Sent(s, t, m) && Grown(s.world, t.world)
  {
    hide DestDisk, DestBase, DestSubsys, DestNs, ReadyBase;
    AttachBaseEnabled(i, s, b);
  }

  // Attaching m's base shows on the destination exactly the disks that sit on x.
  ghost predicate Shows(i: State, s: State, x: Name, m: Msg) {
    m.rpc.AttachBase? && x in i.world.src.bases && m.rpc.trid == i.world.src.bases[x]
    && var shown := Exported(s.world.setting, x, m.rpc.trid);
       shown.Keys == OnBase(i, x) && forall c | c in OnBase(i, x) :: shown[c] == i.bdevs[c].info
  }

  lemma AttachBaseDisk(i: State, s: State, b: Name, x: Name, m: Msg, c: Name)
    requires ReadyDisks(i) && DestBook(i, s) && Shows(i, s, x, m)
    requires b in i.bdevs && i.bdevs[b].base == Some(x) && i.bdevs[b].info.product.NvmeDisk?
    requires c in i.bdevs && x in i.bases
    ensures Frame(i, BaseThere(i, s, b, x, m)) && DestDisk(i, BaseThere(i, s, b, x, m), c)
  {
    hide Exported;
    assert DestDisk(i, s, c) && ReadyDisk(i, c);
  }

  lemma AttachBaseDest(i: State, s: State, b: Name, x: Name, m: Msg)
    requires ReadyDisks(i) && DestBook(i, s) && Shows(i, s, x, m)
    requires b in i.bdevs && i.bdevs[b].base == Some(x) && i.bdevs[b].info.product.NvmeDisk? && x in i.bases
    ensures DestBook(i, BaseThere(i, s, b, x, m))
    ensures b in BaseThere(i, s, b, x, m).world.dst.disks
  {
    hide Exported, ReadyDisks, DestDisk;
    var t := BaseThere(i, s, b, x, m);
    assert b in OnBase(i, x);
    forall c | c in i.bdevs ensures DestDisk(i, t, c) {
      AttachBaseDisk(i, s, b, x, m, c);
    }
    forall y | y in i.bases ensures DestBase(i, t, y) {
      assert DestBase(i, s, y);
    }
    forall n ensures DestSubsys(t, n) {
      assert DestSubsys(s, n);
    }
    forall k ensures DestNs(i, t, k) {
      assert DestNs(i, s, k);
    }
  }

  lemma AttachBaseWorks(i: State, s: State, b: Name)
    requires ReadyDisks(i) && DestBook(i, s) && SrcBook(i, s, None) && Movable(i, b)
    requires i.bdevs[b].info.product.NvmeDisk? && ReadyDisk(i, b)
    requires s.bdevs[b].created != 1 && s.bases[i.bdevs[b].base.value].created != 1
    ensures var m := Msg(Dst, AttachBase(i.bdevs[b].base.value, i.bdevs[b].info.product.trid));
      var t := BaseThere(i, s, b, i.bdevs[b].base.value, m);
      && CreateBdev(s, b) == Go(t) && DestBook(i, t) && SrcBook(i, t, None)
      && Sent(s, t, m) && Grown(s.world, t.world) && b in t.world.dst.disks
  {
    hide LiveRefs, Slack, SrcBook;
    AttachBaseEnabled(i, s, b);
    AttachBaseIs(i, s, b);
    hide CreateBdev, Sent, Enabled, Grown;
    var x, trid := i.bdevs[b].base.value, i.bdevs[b].info.product.trid;
    AttachBaseDest(i, s, b, x, Msg(Dst, AttachBase(x, trid)));
    SrcBookSame(i, s, BaseThere(i, s, b, x, Msg(Dst, AttachBase(x, trid))), None);
  }

  ghost function CreateOf(i: State, b: Name): Msg
    requires b in i.bdevs
  {
    var info := i.bdevs[b].info;
    Msg(Dst, if info.product.NullDisk? then CreateNull(b, SizeMib(info), info.blockSize, info.uuid)
             else CreateMalloc(b, SizeMib(info), info.blockSize, info.uuid))
  }

  // What is there when a Null or Malloc disk has been created.
  ghost function SizedThere(i: State, s: State, b: Name): State
    requires b in s.bdevs && b in i.bdevs && i.bdevs[b].info.blockSize > 0
  {
    var dst := s.world.dst.(disks := s.world.dst.disks[b := Rebuilt(i.bdevs[b].info)]);
    MarkCreated(s, b).(
      world := s.world.(dst := dst), log := s.log + [CreateOf(i, b)], trail := s.trail + [Now(s)])
  }

  lemma SizedCreateIs(i: State, s: State, b: Name)
    requires ReadyDisks(i) && DestBook(i, s) && Movable(i, b) && ReadyDisk(i, b)
    requires !i.bdevs[b].info.product.NvmeDisk? && s.bdevs[b].created != 1
    ensures var t := SizedThere(i, s, b);
      && CreateBdev(s, b) == Go(t) && Sent(s, t, CreateOf(i, b)) && Grown(s.world, t.world)
  {
    hide ReadyDisks, SizeMib;
    assert DestDisk(i, s, b);
  }

  lemma SizedCreateDest(i: State, s: State, b: Name)
    requires ReadyDisks(i) && DestBook(i, s) && Movable(i, b) && ReadyDisk(i, b)
    requires !i.bdevs[b].info.product.NvmeDisk?
    ensures DestBook(i, SizedThere(i, s, b)) && b in SizedThere(i, s, b).world.dst.disks
  {
    hide ReadyDisks, Rebuilt;
    var t := SizedThere(i, s, b);
    forall c | c in i.bdevs ensures DestDisk(i, t, c) {
      assert DestDisk(i, s, c);
    }
    DestRest(i, s, t);
  }

  lemma SizedCreateWorks(i: State, s: State, b: Name)
    requires ReadyDisks(i) && DestBook(i, s) && SrcBook(i, s, None) && Movable(i, b)
    requires !i.bdevs[b].info.product.NvmeDisk? && s.bdevs[b].created != 1 && ReadyDisk(i, b)
    ensures var t := SizedThere(i, s, b);
      && CreateBdev(s, b) == Go(t) && DestBook(i, t) && SrcBook(i, t, None)
      && Sent(s, t, CreateOf(i, b)) && Grown(s.world, t.world) && b in t.world.dst.disks
  {
    hide CreateBdev, Sent, Rebuilt, SrcBook, ReadyDisks, Grown;
    SizedCreateIs(i, s, b);
    SizedCreateDest(i, s, b);
    SrcBookSame(i, s, SizedThere(i, s, b), None);
  }

  // ----- Release -----

  ghost function Decremented(s: State, b: Name): State
    requires b in s.bdevs
  {
    s.(bdevs := s.bdevs[b := s.bdevs[b].(used := s.bdevs[b].used - 1)])
  }

  // The step that releases one reference, with the decrement still owed before it.
  lemma DestroyBdevWorks(i: State, d: Directory, s: State, b: Name)
    requires Held(i, d, s, Some(b), {}, {}) && Movable(i, b)
    ensures DestroyBdev(s, b).Go?
    ensures Inv(i, d, DestroyBdev(s, b).st)
    ensures Released(s.world, DestroyBdev(s, b).st.world)
  {
    hide Ready, Hand, Traced, SrcBook, DestDisk, DestBase, Inv, DestroyBdev;
    if s.bdevs[b].used != 1 {
      MoreReferences(i, d, s, b);
    } else if i.bdevs[b].info.product.NvmeDisk? {
      NvmeReleased(i, d, s, b);
    } else {
      SizedReleased(i, d, s, b);
    }
  }

  lemma MoreReferences(i: State, d: Directory, s: State, b: Name)
    requires Held(i, d, s, Some(b), {}, {}) && Movable(i, b)
    requires b in s.bdevs && s.bdevs[b].used != 1
    ensures var r := DestroyBdev(s, b); r.Go? && Inv(i, d, r.st) && Released(s.world, r.st.world)
  {
    hide Hand, Traced, ReadyDisks, ReadyCtrls, Blank, DestroyBdev, Counts, SrcBases, SrcDisks;
    NotLast(i, s, b);
    DestBookSame(i, s, Decremented(s, b));
    TracedSame(i, d, s, Decremented(s, b));
  }

  lemma NvmeReleased(i: State, d: Directory, s: State, b: Name)
    requires Held(i, d, s, Some(b), {}, {}) && Movable(i, b) && b in s.bdevs && s.bdevs[b].used == 1
    requires i.bdevs[b].info.product.NvmeDisk?
    ensures var r := DestroyBdev(s, b); r.Go? && Inv(i, d, r.st) && Released(s.world, r.st.world)
  {
    hide Hand, Traced, ReadyDisks, ReadyCtrls, Blank, RemovalDue, DestroyBdev, Counts, SrcBases, SrcDisks, Sent, Right;
    LastOfNvme(i, s, b);
    RightForDetach(i, s, b);
    var t := DestroyBdev(s, b).st;
    DestBookSame(i, s, t);
    if t.log == s.log && t.trail == s.trail && t.world == s.world {
      TracedSame(i, d, s, t);
    } else {
      ReleaseKeepsRest(i, d, s, t, Msg(Src, DetachBase(i.bdevs[b].base.value)));
    }
  }

  lemma SizedReleased(i: State, d: Directory, s: State, b: Name)
    requires Held(i, d, s, Some(b), {}, {}) && Movable(i, b) && b in s.bdevs && s.bdevs[b].used == 1
    requires !i.bdevs[b].info.product.NvmeDisk?
    ensures var r := DestroyBdev(s, b); r.Go? && Inv(i, d, r.st) && Released(s.world, r.st.world)
  {
    hide Hand, Traced, ReadyDisks, ReadyCtrls, Blank, RemovalDue, DestroyBdev, Counts, SrcBases, SrcDisks, Sent, Right;
    LastOfSized(i, s, b);
    RightForDelete(i, s, b);
    var t := SizedGone(i, s, b);
    DestBookSame(i, s, t);
    ReleaseKeepsRest(i, d, s, t, DeleteOf(i, b));
  }

  ghost function DeleteOf(i: State, b: Name): Msg
    requires b in i.bdevs
  {
    Msg(Src, if i.bdevs[b].info.product.NullDisk? then DeleteNull(b) else DeleteMalloc(b))
  }

  lemma ReleaseKeepsRest(i: State, d: Directory, s: State, t: State, m: Msg)
    requires ReadyDisks(i) && Hand(d, s.world, {}, {}) && Traced(i, d, s)
    requires SrcBook(i, t, None) && Sent(s, t, m) && Released(s.world, t.world)
    requires m.side == Src && OneWay(m) && RemovalDue(i, t.world, m.rpc) && Right(i, Noted(t))
    ensures Hand(d, t.world, {}, {}) && Traced(i, d, t)
  {
    hide SrcBook, Traced, ReadyDisks, RemovalDue;
    HandMonotone(d, s.world, t.world, {}, {});
    hide Hand;
    SentInTransit(i, d, s, t, None, m, {}, {});
  }

  // When Spent does not change, neither does anything that rests on it.
  lemma SrcRestSame(i: State, s: State, t: State)
    requires Frame(i, s) && Frame(i, t) && SrcBases(i, s) && SrcDisks(i, s)
    requires t.bases == s.bases && t.world.src == s.world.src
    requires forall c {:trigger t.bdevs[c]} | c in i.bdevs :: Spent(i, t, c) == Spent(i, s, c)
    ensures SrcBases(i, t) && SrcDisks(i, t)
  {
    hide LiveRefs, Slack;
    forall x | x in i.bases ensures SrcBase(i, t, x) {
      assert SrcBase(i, s, x);
      assert Unspent(i, t, x) == Unspent(i, s, x);
    }
    forall c | c in i.bdevs ensures SrcDisk(i, t, c) {
      assert SrcDisk(i, s, c);
      assert Spent(i, t, c) == Spent(i, s, c) by { var _ := t.bdevs[c]; }
    }
  }

  lemma DecrementSettles(i: State, s: State, b: Name)
    requires Frame(i, s) && Counts(i, s, Some(b)) && b in i.bdevs
    ensures Frame(i, Decremented(s, b)) && Counts(i, Decremented(s, b), None)
    ensures i.bdevs[b].used >= s.bdevs[b].used
  {
    hide LiveRefs, Slack;
    var t := Decremented(s, b);
    forall c | c in i.bdevs ensures Count(i, t, None, c) {
      assert Count(i, s, Some(b), c);
    }
    assert Count(i, s, Some(b), b);
  }

  lemma NotLast(i: State, s: State, b: Name)
    requires SrcBook(i, s, Some(b)) && Movable(i, b) && s.bdevs[b].used != 1
    ensures DestroyBdev(s, b) == Go(Decremented(s, b))
    ensures SrcBook(i, Decremented(s, b), None)
  {
    hide LiveRefs, Slack;
    DecrementSettles(i, s, b);
    SrcRestSame(i, s, Decremented(s, b));
  }

  // What is left when a Null or Malloc disk has been deleted.
  ghost function SizedGone(i: State, s: State, b: Name): State
    requires b in s.bdevs && b in i.bdevs
  {
    var src := s.world.src.(disks := s.world.src.disks - {b});
    Decremented(s, b).(world := s.world.(src := src), log := s.log + [DeleteOf(i, b)],
                       trail := s.trail + [Now(Decremented(s, b))])
  }

  lemma DeleteIs(i: State, s: State, b: Name)
    requires ReadyDisks(i) && Frame(i, s) && Movable(i, b) && SrcDisk(i, s, b)
    requires s.bdevs[b].used == 1 && !i.bdevs[b].info.product.NvmeDisk?
    ensures DestroyBdev(s, b) == Go(SizedGone(i, s, b))
    ensures Sent(s, SizedGone(i, s, b), DeleteOf(i, b))
  {
    assert ReadyDisk(i, b);
  }

  // The count of a Null or Malloc disk runs out: the disk is deleted.
  lemma LastOfSized(i: State, s: State, b: Name)
    requires ReadyDisks(i) && SrcBook(i, s, Some(b)) && Movable(i, b)
    requires s.bdevs[b].used == 1 && !i.bdevs[b].info.product.NvmeDisk?
    ensures var t := SizedGone(i, s, b);
      && DestroyBdev(s, b) == Go(t) && SrcBook(i, t, None) && t.failsAt == None
      && Sent(s, t, DeleteOf(i, b)) && RemovalDue(i, t.world, DeleteOf(i, b).rpc)
      && Released(s.world, t.world)
  {
    hide LiveRefs, Slack, DestroyBdev, Sent, ReadyDisks, Counts, SrcDisks, SrcBases;
    assert SrcDisk(i, s, b) && ReadyDisk(i, b) by { AboutDisk(i, s, b); }
    DeleteIs(i, s, b);
    SizedGoneCounts(i, s, b);
    SizedGoneRest(i, s, b);
  }

  lemma AboutDisk(i: State, s: State, b: Name)
    requires ReadyDisks(i) && Frame(i, s) && SrcDisks(i, s) && b in i.bdevs
    ensures SrcDisk(i, s, b) && ReadyDisk(i, b)
  {
    hide SrcDisk, ReadyDisk;
  }

  lemma SizedGoneCounts(i: State, s: State, b: Name)
    requires Frame(i, s) && Counts(i, s, Some(b)) && b in i.bdevs && s.bdevs[b].used == 1
    ensures var t := SizedGone(i, s, b);
      && Frame(i, t) && Counts(i, t, None) && i.bdevs[b].used >= 1
      && |LiveRefs(t.world.src, b)| + Slack(i, b) == 0
  {
    hide LiveRefs, Slack;
    DecrementSettles(i, s, b);
    CountsSame(i, Decremented(s, b), SizedGone(i, s, b), None);
    assert Count(i, SizedGone(i, s, b), None, b);
  }

  lemma SizedGoneRest(i: State, s: State, b: Name)
    requires Frame(i, s) && SrcBases(i, s) && SrcDisks(i, s) && Movable(i, b) && ReadyDisk(i, b)
    requires s.bdevs[b].used == 1 && i.bdevs[b].used >= 1 && !i.bdevs[b].info.product.NvmeDisk?
    ensures var t := SizedGone(i, s, b); Frame(i, t) && SrcBases(i, t) && SrcDisks(i, t)
  {
    hide LiveRefs, Slack;
    var t := SizedGone(i, s, b);
    UnspentKept(i, s, t, b);
    forall c | c in i.bdevs ensures SrcDisk(i, t, c) {
      assert SrcDisk(i, s, c);
    }
    forall x | x in i.bases ensures SrcBase(i, t, x) {
      assert SrcBase(i, s, x);
    }
  }

  // The decrement is settled when the delete is sent.
  lemma RightForDelete(i: State, s: State, b: Name)
    requires ReadyDisks(i) && DestBook(i, s) && SrcBook(i, s, Some(b)) && Movable(i, b)
    requires s.bdevs[b].used == 1 && !i.bdevs[b].info.product.NvmeDisk?
    ensures Right(i, Now(Decremented(s, b)))
  {
    hide LiveRefs, Slack, Right;
    var t := Decremented(s, b);
    DecrementSettles(i, s, b);
    assert ReadyDisk(i, b);
    UnspentKept(i, s, t, b);
    forall c | c in i.bdevs ensures RightDisk(i, t, c) {
      assert Count(i, t, None, c) && DestDisk(i, s, c);
      if c != b && Movable(i, c) && !Spent(i, s, c) {
        StillThere(i, s, c);
      }
    }
    forall x | x in i.bases ensures RightBase(i, t, x) {
      assert SrcBase(i, s, x) && DestBase(i, s, x);
    }
    RightFrom(i, t);
  }

  lemma StillThere(i: State, s: State, c: Name)
    requires ReadyDisks(i) && Frame(i, s) && SrcBases(i, s) && SrcDisks(i, s)
    requires Movable(i, c) && !Spent(i, s, c)
    ensures c in s.world.src.disks
  {
    assert SrcDisk(i, s, c) && ReadyDisk(i, c);
    if i.bdevs[c].info.product.NvmeDisk? {
      assert SrcBase(i, s, i.bdevs[c].base.value);
      assert c in Unspent(i, s, i.bdevs[c].base.value);
    }
  }

  // A disk without a base counts for no base.
  lemma UnspentKept(i: State, s: State, t: State, b: Name)
    requires Frame(i, s) && Frame(i, t) && b in i.bdevs && i.bdevs[b].base == None
    requires forall c {:trigger t.bdevs[c]} | c in i.bdevs && c != b :: t.bdevs[c] == s.bdevs[c]
    ensures forall x :: Unspent(i, t, x) == Unspent(i, s, x)
  {
    forall x ensures Unspent(i, t, x) == Unspent(i, s, x) {
    }
  }

  lemma UnspentShrinks(i: State, s: State, u: State, b: Name, x: Name)
    requires Frame(i, s) && Frame(i, u) && b in i.bdevs && i.bdevs[b].base == Some(x)
    requires i.bdevs[b].used >= 1 && s.bdevs[b].used == 1 && u.bdevs[b].used == 0
    requires forall c {:trigger u.bdevs[c]} | c in i.bdevs && c != b :: u.bdevs[c] == s.bdevs[c]
    ensures b in Unspent(i, s, x)
    ensures Unspent(i, u, x) == Unspent(i, s, x) - {b}
    ensures |Unspent(i, u, x)| == |Unspent(i, s, x)| - 1
    ensures forall y | y != x :: Unspent(i, u, y) == Unspent(i, s, y)
  {
    assert b in Unspent(i, s, x);
    assert Unspent(i, u, x) == Unspent(i, s, x) - {b};
    forall y | y != x ensures Unspent(i, u, y) == Unspent(i, s, y) {
    }
  }

  // The bookkeeping when the count of an NVMe disk has run out.
  ghost function BaseDecremented(s: State, b: Name, x: Name): State
    requires b in s.bdevs && x in s.bases
  {
    Decremented(s, b).(bases := s.bases[x := s.bases[x].(used := s.bases[x].used - 1)])
  }

  // The count of an NVMe disk runs out, and its base keeps the others.
  lemma NvmeRunsOut(i: State, s: State, b: Name, x: Name)
    requires ReadyDisks(i) && SrcBook(i, s, Some(b)) && Movable(i, b)
    requires s.bdevs[b].used == 1 && i.bdevs[b].base == Some(x) && x in i.bases
    ensures var u := BaseDecremented(s, b, x);
      && Frame(i, u) && Counts(i, u, None) && SrcDisks(i, u)
      && (forall y {:trigger SrcBase(i, u, y)} | y in i.bases && y != x :: SrcBase(i, u, y))
      && u.bases[x].used == |Unspent(i, u, x)|
      && x in s.world.src.bases && s.world.src.bases[x] == i.world.src.bases[x]
      && i.bdevs[b].used >= 1
  {
    hide LiveRefs, Slack;
    var u := BaseDecremented(s, b, x);
    DecrementSettles(i, s, b);
    UnspentShrinks(i, s, u, b, x);
    forall c | c in i.bdevs ensures Count(i, u, None, c) && SrcDisk(i, u, c) {
      assert Count(i, Decremented(s, b), None, c) && SrcDisk(i, s, c) && ReadyDisk(i, c);
    }
    forall y | y in i.bases && y != x ensures SrcBase(i, u, y) {
      assert SrcBase(i, s, y);
    }
    assert SrcBase(i, s, x);
  }

  // The count of an NVMe disk runs out: its base loses one disk, and goes when it
  // has none left.
  lemma LastOfNvme(i: State, s: State, b: Name)
    requires ReadyDisks(i) && SrcBook(i, s, Some(b)) && Movable(i, b)
    requires s.bdevs[b].used == 1 && i.bdevs[b].info.product.NvmeDisk?
    ensures ReadyDisk(i, b)
    ensures var t, x := DestroyBdev(s, b).st, i.bdevs[b].base.value;
      && DestroyBdev(s, b).Go? && SrcBook(i, t, None) && Released(s.world, t.world)
      && t == BaseDecremented(s, b, x).(world := t.world, log := t.log, trail := t.trail)
      && ((t.world == s.world && t.log == s.log && t.trail == s.trail)
          || (&& Noted(t) == Now(BaseDecremented(s, b, x))
              && Sent(s, t, Msg(Src, DetachBase(x)))
              && RemovalDue(i, t.world, DetachBase(x))))
  {
    hide LiveRefs, Slack, RemovalDue;
    assert ReadyDisk(i, b);
    var x := i.bdevs[b].base.value;
    var u := BaseDecremented(s, b, x);
    NvmeRunsOut(i, s, b, x);
    if u.bases[x].used != 0 {
      assert DestroyBdev(s, b) == Go(u);
      assert SrcBase(i, u, x);
    } else {
      hide Frame;
      assert b in OnBase(i, x);
      DetachBaseWorks(i, u, x, b);
      assert DestroyBdev(s, b) == Send(u, Src, DetachBase(x));
    }
  }

  // Both decrements are settled when the detach is sent.
  lemma RightForDetach(i: State, s: State, b: Name)
    requires ReadyDisks(i) && DestBook(i, s) && SrcBook(i, s, Some(b)) && Movable(i, b) && ReadyDisk(i, b)
    requires s.bdevs[b].used == 1 && i.bdevs[b].info.product.NvmeDisk?
    ensures Right(i, Now(BaseDecremented(s, b, i.bdevs[b].base.value)))
  {
    hide LiveRefs, Slack, Right;
    var x := i.bdevs[b].base.value;
    var u := BaseDecremented(s, b, x);
    NvmeRunsOut(i, s, b, x);
    forall c | c in i.bdevs ensures RightDisk(i, u, c) {
      assert Count(i, u, None, c) && DestDisk(i, s, c) && SrcDisk(i, u, c);
      if c != b && Movable(i, c) && !Spent(i, u, c) {
        StillThere(i, s, c);
      }
    }
    forall y | y in i.bases ensures RightBase(i, u, y) {
      assert DestBase(i, s, y);
      if y != x {
        assert SrcBase(i, u, y);
      }
    }
    RightFrom(i, u);
  }

  // What is left when a base has been detached.
  ghost function BaseGone(i: State, u: State, x: Name): State {
    var src := u.world.src.(
        bases := u.world.src.bases - {x}, disks := u.world.src.disks - OnBase(i, x));
    u.(world := u.world.(src := src), log := u.log + [Msg(Src, DetachBase(x))], trail := u.trail + [Now(u)])
  }

  lemma DetachIs(i: State, u: State, x: Name)
    requires ReadyDisks(i) && Frame(i, u)
    requires x in i.bases && x in u.world.src.bases && u.world.src.bases[x] == i.world.src.bases[x]
    ensures Send(u, Src, DetachBase(x)) == Go(BaseGone(i, u, x))
    ensures Sent(u, BaseGone(i, u, x), Msg(Src, DetachBase(x)))
  {
    hide OnBase;
    assert ReadyBase(i, x);
  }

  // Every base is as it should be but x, whose last disk b has just been released.
  lemma DetachBaseWorks(i: State, u: State, x: Name, b: Name)
    requires ReadyDisks(i) && Frame(i, u) && Counts(i, u, None) && SrcDisks(i, u)
    requires u.world.src.bases.Keys <= i.bases.Keys && b in OnBase(i, x)
    requires i.bdevs[b].used >= 1 && u.bdevs[b].used == 0
    requires x in i.bases && x in u.world.src.bases && u.world.src.bases[x] == i.world.src.bases[x]
    requires u.bases[x].used == 0 == |Unspent(i, u, x)|
    requires forall y {:trigger SrcBase(i, u, y)} | y in i.bases && y != x :: SrcBase(i, u, y)
    ensures var m := Msg(Src, DetachBase(x)); var t := BaseGone(i, u, x);
      && Send(u, Src, m.rpc) == Go(t) && Sent(u, t, m) && SrcBook(i, t, None) && Released(u.world, t.world)
      && RemovalDue(i, t.world, m.rpc)
  {
    hide LiveRefs, Slack, Send, Sent, ReadyDisks, Counts, SrcDisks, SrcBases, RanOut, AllReleased;
    DetachIs(i, u, x);
    CountsSame(i, u, BaseGone(i, u, x), None);
    BaseGoneRest(i, u, x);
    forall c | c in OnBase(i, x) ensures RanOut(i, BaseGone(i, u, x).world, c) {
      BaseGoneRanOut(i, u, x, c);
    }
    BaseGoneReleased(i, u, x, b);
  }

  lemma BaseGoneRest(i: State, u: State, x: Name)
    requires ReadyDisks(i) && Frame(i, u) && SrcDisks(i, u) && x in i.bases && OnBase(i, x) != {}
    requires u.world.src.bases.Keys <= i.bases.Keys
    requires u.bases[x].used == 0 == |Unspent(i, u, x)|
    requires forall y {:trigger SrcBase(i, u, y)} | y in i.bases && y != x :: SrcBase(i, u, y)
    ensures var t := BaseGone(i, u, x); Frame(i, t) && SrcBases(i, t) && SrcDisks(i, t)
  {
    hide LiveRefs, Slack;
    var t := BaseGone(i, u, x);
    forall c | c in i.bdevs ensures SrcDisk(i, t, c) {
      assert SrcDisk(i, u, c) && ReadyDisk(i, c);
    }
    forall y | y in i.bases ensures SrcBase(i, t, y) {
      assert Unspent(i, t, y) == Unspent(i, u, y);
      if y != x {
        assert SrcBase(i, u, y);
      }
    }
  }

  lemma BaseGoneReleased(i: State, u: State, x: Name, b: Name)
    requires Frame(i, u) && Counts(i, BaseGone(i, u, x), None)
    requires b in OnBase(i, x) && i.bdevs[b].used >= 1 && u.bdevs[b].used == 0
    ensures AllReleased(i, BaseGone(i, u, x).world, b)
  {
    hide LiveRefs, Slack;
    assert Count(i, BaseGone(i, u, x), None, b);
  }

  lemma BaseGoneRanOut(i: State, u: State, x: Name, c: Name)
    requires Frame(i, u) && Frame(i, BaseGone(i, u, x)) && Counts(i, BaseGone(i, u, x), None)
    requires Unspent(i, u, x) == {} && c in OnBase(i, x)
    ensures RanOut(i, BaseGone(i, u, x).world, c)
  {
    hide LiveRefs, Slack;
    assert c !in Unspent(i, u, x);
    assert Count(i, BaseGone(i, u, x), None, c);
  }
}
