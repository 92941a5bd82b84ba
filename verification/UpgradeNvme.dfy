/**
 Moving one NVMe controller to the destination, and dropping it from the source
 afterwards.
 */
module UpgradeNvme {
  import opened Common
  import opened UpgradeWorld
  import opened UpgradeSpec
  import opened UpgradeInvariant
  import opened UpgradeDisks
  import opened UpgradeVblk

  // ----- One RPC about one NVMe controller -----

  // w' differs from w at one NVMe controller only.
  ghost predicate NvmeDiffer(w: World, w': World, id: Id) {
    && w'.setting == w.setting
    && w'.src == w.src.(nvme := w'.src.nvme)
    && w'.dst == w.dst.(nvme := w'.dst.nvme)
    && w'.src.nvme - {id} == w.src.nvme - {id}
    && w'.dst.nvme - {id} == w.dst.nvme - {id}
  }

  lemma NvmeOthersKept(d: Directory, w: World, w': World, id: Id)
    requires Hand(d, w, {}, {id}) && NvmeDiffer(w, w', id)
    requires id in d.nvme
    ensures Hand(d, w', {}, {id})
  {
    forall o | o in d.nvme && o != id ensures NvmeSettled(d, w', o) {
      assert NvmeSettled(d, w, o);
      assert (o in w'.src.nvme - {id}) == (o in w.src.nvme - {id});
      assert (o in w'.dst.nvme - {id}) == (o in w.dst.nvme - {id});
      if o in w.src.nvme {
        assert (w'.src.nvme - {id})[o] == (w.src.nvme - {id})[o];
      }
      if o in w.dst.nvme {
        assert (w'.dst.nvme - {id})[o] == (w.dst.nvme - {id})[o];
      }
    }
    forall o | o in d.vblk ensures VblkSettled(d, w', o) {
      assert VblkSettled(d, w, o);
    }
    forall o | o in w'.src.nvme ensures o in d.nvme {
      assert o == id || o in w'.src.nvme - {id};
    }
    forall o | o in w'.dst.nvme ensures o in d.nvme {
      assert o == id || o in w'.dst.nvme - {id};
    }
  }

  lemma NvmeDepart(d: Directory, w: World, id: Id)
    requires Hand(d, w, {}, {})
    ensures Hand(d, w, {}, {id})
  {
  }

  lemma NvmeArrive(d: Directory, w: World, id: Id)
    requires Hand(d, w, {}, {id}) && (id in d.nvme ==> NvmeSettled(d, w, id))
    ensures Hand(d, w, {}, {})
  {
  }

  // An RPC that changes no reference.
  lemma NvmeSent(i: State, d: Directory, s: State, m: Msg, id: Id)
    requires Held(i, d, s, None, {}, {id}) && id in d.nvme
    requires Enabled(s.world, m) && OneWay(m) && RemovalDue(i, s.world, m.rpc)
    requires !m.rpc.DeleteNull? && !m.rpc.DeleteMalloc? && !m.rpc.DetachBase?
    requires NvmeDiffer(s.world, Step(s.world, m), id)
    requires SameRefs(s.world.src, Step(s.world, m).src)
    requires NvmeSafe(d, Step(s.world, m), id)
    ensures Held(i, d, After(s, m), None, {}, {id})
  {
    hide Enabled, Step, NvmeSafe, Ready, Replay, Traced, Right;
    var t := After(s, m);
    assert ReadyDisks(i) by { Readied(i, d); }
    RightNow(i, s);
    BooksKept(i, s, t, None);
    hide DestBook, SrcBook;
    NvmeOthersKept(d, s.world, t.world, id);
    hide Hand, ReadyDisks;
    assert Sent(s, t, m);
    assert RemovalDue(i, t.world, m.rpc);
    hide RemovalDue;
    SentInTransit(i, d, s, t, None, m, {}, {id});
  }

  // ----- What the destination needs first -----

  // An RPC that adds a subsystem or a namespace leaves the source's books alone.
  lemma ObjectSent(i: State, d: Directory, s: State, t: State, m: Msg)
    requires Ready(i, d) && SrcBook(i, s, None) && Hand(d, s.world, {}, {}) && Traced(i, d, s)
    requires Sent(s, t, m) && DestBook(i, t) && Grown(s.world, t.world) && t.failsAt == None
    requires DestBook(i, s) && Noted(t) == Now(s)
    requires t.bdevs == s.bdevs && t.bases == s.bases
    requires m.rpc.CreateSubsystem? || m.rpc.CreateNamespace?
    requires m.side == Dst
    ensures Inv(i, d, t)
  {
    hide Traced, Hand, ReadyDisks, ReadyCtrls, Sent, Right;
    assert ReadyDisks(i) by { Readied(i, d); }
    RightNow(i, s);
    SrcBookSame(i, s, t, None);
    hide DestBook, SrcBook;
    CreateKeepsRest(i, d, s, t, m);
  }

  lemma EnsureSubsysWorks(i: State, d: Directory, s: State, nqn: string)
    requires Inv(i, d, s) && nqn in i.subsysHist
    ensures var r := EnsureSubsys(d, s, nqn);
      && r.Go? && Inv(i, d, r.st) && Grown(s.world, r.st.world) && nqn in r.st.world.dst.subsystems
  {
    hide SrcBook, Hand, Traced, ReadyDisks;
    assert DestSubsys(s, nqn);
    assert nqn in d.subsys && d.subsys[nqn].nqn == nqn;
    if s.subsysHist[nqn] == 0 {
      var t := EnsureSubsys(d, s, nqn).st;
      SubsysDest(i, s, t, nqn);
      if nqn in s.world.dst.subsystems {
        hide DestBook;
        assert SrcBook(i, t, None) by { SrcBookSame(i, s, t, None); }
        TracedSame(i, d, s, t);
      } else {
        hide DestBook;
        ObjectSent(i, d, s, t, Msg(Dst, CreateSubsystem(d.subsys[nqn])));
      }
    }
  }

  lemma SubsysDest(i: State, s: State, t: State, nqn: string)
    requires DestBook(i, s) && nqn in i.subsysHist
    requires t.bdevs == s.bdevs && t.bases == s.bases && t.subsysHist == s.subsysHist[nqn := 1]
    requires t.failsAt == s.failsAt
    requires t.world == s.world.(dst := s.world.dst.(subsystems := t.world.dst.subsystems))
    requires nqn in t.world.dst.subsystems && s.world.dst.subsystems.Keys <= t.world.dst.subsystems.Keys
    ensures DestBook(i, t)
  {
    forall b | b in i.bdevs ensures DestDisk(i, t, b) {
      assert DestDisk(i, s, b);
    }
    forall x | x in i.bases ensures DestBase(i, t, x) {
      assert DestBase(i, s, x);
    }
    forall n ensures DestSubsys(t, n) {
      assert DestSubsys(s, n);
    }
    forall k ensures DestNs(i, t, k) {
      assert DestNs(i, s, k);
    }
  }

  ghost function KeyOf(c: NvmeCtrl, ns: Ns): NsKey {
    NsKey(c.cfg.nqn, ns.nsid)
  }

  // The destination has this namespace and its disk.
  ghost predicate NsThere(w: World, c: NvmeCtrl, ns: Ns) {
    && KeyOf(c, ns) in w.dst.namespaces && w.dst.namespaces[KeyOf(c, ns)] == ns
    && ns.bdev in w.dst.disks
  }

  lemma NsKept(i: State, d: Directory, s: State, t: State, c: NvmeCtrl, ns: Ns)
    requires DestBook(i, t) && Grown(s.world, t.world) && ReadyNs(i, d, c, ns) && NsThere(s.world, c, ns)
    ensures NsThere(t.world, c, ns)
  {
    assert DestNs(i, t, KeyOf(c, ns));
  }

  // A uuid is taken on the destination only by the very same namespace.
  lemma UuidNames(i: State, d: Directory, s: State, c: NvmeCtrl, ns: Ns)
    requires ReadyCtrls(i, d) && DestBook(i, s) && ReadyNs(i, d, c, ns)
    ensures UuidTaken(s.world.dst, ns.uuid) <==> KeyOf(c, ns) in s.world.dst.namespaces
    ensures KeyOf(c, ns) in s.world.dst.namespaces ==> s.world.dst.namespaces[KeyOf(c, ns)] == ns
  {
    assert DestNs(i, s, KeyOf(c, ns));
    if UuidTaken(s.world.dst, ns.uuid) {
      var k :| k in s.world.dst.namespaces && s.world.dst.namespaces[k].uuid == ns.uuid;
      assert DestNs(i, s, k);
      assert k == KeyOf(c, ns);
    }
  }

  lemma EnsureNsWorks(i: State, d: Directory, s: State, c: NvmeCtrl, ns: Ns)
    requires Inv(i, d, s) && ReadyNs(i, d, c, ns) && c.cfg.nqn in s.world.dst.subsystems
    ensures var r := EnsureNs(s, c.cfg.nqn, ns);
      && r.Go? && Inv(i, d, r.st) && Grown(s.world, r.st.world) && NsThere(r.st.world, c, ns)
  {
    hide SrcBook, Hand, Traced, ReadyDisks, CreateBdev, Movable;
    CreateBdevWorks(i, d, s, ns.bdev);
    var t := CreateBdev(s, ns.bdev).st;
    UuidNames(i, d, t, c, ns);
    if !UuidTaken(t.world.dst, ns.uuid) {
      var m := Msg(Dst, CreateNamespace(c.cfg.nqn, ns));
      assert Enabled(t.world, m);
      var u := After(t, m);
      NamespaceDest(i, d, t, u, c, ns);
      hide DestBook, ReadyCtrls;
      assert Sent(t, u, m) && Grown(t.world, u.world);
      ObjectSent(i, d, t, u, m);
    }
  }

  lemma NamespaceDest(i: State, d: Directory, s: State, t: State, c: NvmeCtrl, ns: Ns)
    requires DestBook(i, s) && ReadyNs(i, d, c, ns)
    requires t == s.(world := t.world, log := t.log, trail := t.trail)
    requires t.world == s.world.(dst := s.world.dst.(namespaces := s.world.dst.namespaces[KeyOf(c, ns) := ns]))
    ensures DestBook(i, t)
  {
    forall b | b in i.bdevs ensures DestDisk(i, t, b) {
      assert DestDisk(i, s, b);
    }
    forall x | x in i.bases ensures DestBase(i, t, x) {
      assert DestBase(i, s, x);
    }
    forall n ensures DestSubsys(t, n) {
      assert DestSubsys(s, n);
    }
    forall k ensures DestNs(i, t, k) {
      assert DestNs(i, s, k);
    }
  }

  ghost predicate AllNsThere(w: World, c: NvmeCtrl, nss: seq<Ns>) {
    forall ns {:trigger NsThere(w, c, ns)} | ns in nss :: NsThere(w, c, ns)
  }

  lemma {:induction false} EnsureAllNsWorks(i: State, d: Directory, s: State, c: NvmeCtrl, nss: seq<Ns>)
    requires Inv(i, d, s) && c.cfg.nqn in s.world.dst.subsystems
    requires forall ns {:trigger ReadyNs(i, d, c, ns)} | ns in nss :: ReadyNs(i, d, c, ns)
    ensures var r := EnsureAllNs(s, c.cfg.nqn, nss);
      && r.Go? && Inv(i, d, r.st) && Grown(s.world, r.st.world) && AllNsThere(r.st.world, c, nss)
    decreases |nss|
  {
    hide SrcBook, Hand, Traced, Ready, EnsureNs, ReadyNs, NsThere;
    if nss != [] {
      assert ReadyNs(i, d, c, nss[0]);
      EnsureNsWorks(i, d, s, c, nss[0]);
      var t := EnsureNs(s, c.cfg.nqn, nss[0]).st;
      forall ns | ns in nss[1..] ensures ReadyNs(i, d, c, ns) {
        assert ns in nss;
      }
      EnsureAllNsWorks(i, d, t, c, nss[1..]);
      var u := EnsureAllNs(t, c.cfg.nqn, nss[1..]).st;
      NsKept(i, d, t, u, c, nss[0]);
      hide DestBook;
      forall ns | ns in nss ensures NsThere(u.world, c, ns) {
        assert ns == nss[0] || ns in nss[1..];
      }
    }
  }

  // ----- The passive copy and the handover -----

  // Pausing the admin queue changes nothing that matters here.
  lemma AdminOnlyWorks(i: State, d: Directory, s: State, id: Id)
    requires Inv(i, d, s) && id in d.nvme && NvmeHome(d, s.world, id) && id !in s.world.dst.nvme
    ensures var m := Msg(Src, SuspendNvme(id, AdminOnly));
      && Enabled(s.world, m) && Inv(i, d, After(s, m)) && After(s, m).world == s.world
  {
    hide Ready, DestBook, SrcBook, Traced, Hand;
    var m := Msg(Src, SuspendNvme(id, AdminOnly));
    NvmeDepart(d, s.world, id);
    NvmeSent(i, d, s, m, id);
    NvmeArrive(d, s.world, id);
  }

  lemma CreatePassiveWorks(i: State, d: Directory, s: State, id: Id)
    requires Inv(i, d, s) && id in d.nvme && NvmeHome(d, s.world, id) && id !in s.world.dst.nvme
    requires d.nvme[id].cfg.id == id && d.nvme[id].cfg.nqn in s.world.dst.subsystems
    ensures var m := Msg(Dst, CreateNvme(d.nvme[id].cfg, true, true));
      && Send(s, m.side, m.rpc) == Go(After(s, m))
      && var t := After(s, m);
        && Held(i, d, t, None, {}, {id}) && NvmeListens(d, t.world, id, map[])
        && NvmeDiffer(s.world, t.world, id) && t.world.src == s.world.src
        && t.world.dst.nvme.Keys == s.world.dst.nvme.Keys + {id}
  {
    hide Ready, DestBook, SrcBook, Traced, Hand;
    var m := Msg(Dst, CreateNvme(d.nvme[id].cfg, true, true));
    NvmeDepart(d, s.world, id);
    NvmeSent(i, d, s, m, id);
  }

  lemma AttachWorks(i: State, d: Directory, s: State, id: Id, attached: map<nat, Ns>, ns: Ns)
    requires Held(i, d, s, None, {}, {id}) && id in d.nvme && NvmeHome(d, s.world, id)
    requires NvmeListens(d, s.world, id, attached) && ns.nsid !in attached && NsThere(s.world, d.nvme[id], ns)
    ensures var m := Msg(Dst, AttachNs(id, ns.nsid));
      && Send(s, m.side, m.rpc) == Go(After(s, m))
      && var t := After(s, m);
        && Held(i, d, t, None, {}, {id}) && NvmeListens(d, t.world, id, attached[ns.nsid := ns])
        && NvmeDiffer(s.world, t.world, id) && t.world.src == s.world.src
        && t.world.dst.nvme.Keys == s.world.dst.nvme.Keys
  {
    hide Ready, DestBook, SrcBook, Traced, Hand;
    NvmeSent(i, d, s, Msg(Dst, AttachNs(id, ns.nsid)), id);
  }

  lemma HomeDependsOn(d: Directory, w: World, w': World, id: Id)
    requires id in d.nvme && NvmeHome(d, w, id) && w'.src == w.src
    ensures NvmeHome(d, w', id)
  {
  }

  lemma ThereDependsOn(w: World, w': World, c: NvmeCtrl, nss: seq<Ns>)
    requires AllNsThere(w, c, nss)
    requires w'.dst.namespaces == w.dst.namespaces && w'.dst.disks == w.dst.disks
    ensures AllNsThere(w', c, nss)
  {
    forall ns | ns in nss ensures NsThere(w', c, ns) {
      assert NsThere(w, c, ns);
    }
  }

  // Attaching the namespaces from the k-th on, when the first k are attached.
  lemma {:induction false} AttachFrom(i: State, d: Directory, s: State, id: Id, k: nat)
    requires Held(i, d, s, None, {}, {id}) && id in d.nvme && NvmeHome(d, s.world, id)
    requires k <= |d.nvme[id].namespaces| && AllNsThere(s.world, d.nvme[id], d.nvme[id].namespaces)
    requires NvmeListens(d, s.world, id, NsMap(d.nvme[id].namespaces[..k]))
    requires forall j, l | 0 <= j < l < |d.nvme[id].namespaces| ::
      d.nvme[id].namespaces[j].nsid != d.nvme[id].namespaces[l].nsid
    ensures var nss := d.nvme[id].namespaces; var r := AttachAll(s, id, nss[k..]);
      && r.Go? && Held(i, d, r.st, None, {}, {id}) && NvmeListens(d, r.st.world, id, NsMap(nss))
      && r.st.world.src == s.world.src && r.st.world.dst.nvme.Keys == s.world.dst.nvme.Keys
      && r.st.world.dst.vblk == s.world.dst.vblk
    decreases |d.nvme[id].namespaces| - k
  {
    hide Held, NvmeListens, NvmeHome, NsMap, Send, NsThere, After;
    var nss := d.nvme[id].namespaces;
    if k == |nss| {
      assert nss[..k] == nss;
    } else {
      NsMapHas(nss[..k], nss[k].nsid);
      assert NsThere(s.world, d.nvme[id], nss[k]);
      AttachWorks(i, d, s, id, NsMap(nss[..k]), nss[k]);
      var t := After(s, Msg(Dst, AttachNs(id, nss[k].nsid)));
      NsMapPrefix(nss, k);
      assert NvmeHome(d, t.world, id) by { HomeDependsOn(d, s.world, t.world, id); }
      assert AllNsThere(t.world, d.nvme[id], nss) by { ThereDependsOn(s.world, t.world, d.nvme[id], nss); }
      AttachFrom(i, d, t, id, k + 1);
      assert nss[k..][0] == nss[k] && nss[k..][1..] == nss[k + 1..];
    }
  }

  // The live-update suspend hands over to the copy that listens.
  lemma NotifyWorks(i: State, d: Directory, s: State, id: Id)
    requires Held(i, d, s, None, {}, {id}) && id in d.nvme && NvmeHome(d, s.world, id)
    requires NvmeListens(d, s.world, id, NsMap(d.nvme[id].namespaces))
    ensures var m := Msg(Src, SuspendNvme(id, LiveUpdate));
      && Send(s, m.side, m.rpc) == Go(After(s, m))
      && var t := After(s, m);
        && Inv(i, d, t) && NvmeDiffer(s.world, t.world, id)
        && t.world.src.nvme.Keys == s.world.src.nvme.Keys
        && t.world.src.nvme[id].attached == s.world.src.nvme[id].attached
        && t.world.dst.nvme.Keys == s.world.dst.nvme.Keys
  {
    hide Ready, DestBook, SrcBook, Traced, Hand, NsMap;
    var m := Msg(Src, SuspendNvme(id, LiveUpdate));
    NvmeSent(i, d, s, m, id);
    assert NvmeAway(d, After(s, m).world, id);
    NvmeArrive(d, After(s, m).world, id);
  }

  // Every controller still on the source has all its namespaces attached there.
  ghost predicate Intact(d: Directory, w: World) {
    forall id | id in d.nvme && id in w.src.nvme :: w.src.nvme[id].attached == NsMap(d.nvme[id].namespaces)
  }

  lemma IntactAfterNotify(d: Directory, w: World, w': World, id: Id)
    requires Intact(d, w) && NvmeDiffer(w, w', id) && id in w.src.nvme && id in d.nvme
    requires w'.src.nvme.Keys == w.src.nvme.Keys && w'.src.nvme[id].attached == w.src.nvme[id].attached
    ensures Intact(d, w')
  {
    forall o | o in d.nvme && o in w'.src.nvme ensures w'.src.nvme[o].attached == NsMap(d.nvme[o].namespaces) {
      if o != id {
        assert (w'.src.nvme - {id})[o] == (w.src.nvme - {id})[o];
      }
    }
  }

  // The steps of a move up to the passive copy with everything attached.
  lemma PrepareNvme(i: State, d: Directory, s: State, id: Id) returns (t: State)
    requires Inv(i, d, s) && id in d.nvme && id !in s.world.dst.nvme
    ensures MoveNvme(d, s, id) == Send(t, Src, SuspendNvme(id, LiveUpdate))
    ensures Held(i, d, t, None, {}, {id}) && NvmeHome(d, t.world, id)
    ensures NvmeListens(d, t.world, id, NsMap(d.nvme[id].namespaces))
    ensures t.world.src == s.world.src && t.world.dst.nvme.Keys == s.world.dst.nvme.Keys + {id}
    ensures t.world.dst.vblk == s.world.dst.vblk
  {
    hide DestBook, SrcBook, Traced, ReadyDisks, EnsureSubsys, EnsureAllNs, AttachAll, NsMap, ReadyNs, NsThere;
    assert NvmeSettled(d, s.world, id) && ReadyNvme(i, d, id);
    var c := d.nvme[id];
    EnsureSubsysWorks(i, d, s, c.cfg.nqn);
    var s1 := EnsureSubsys(d, s, c.cfg.nqn).st;
    EnsureAllNsWorks(i, d, s1, c, c.namespaces);
    var s2 := EnsureAllNs(s1, c.cfg.nqn, c.namespaces).st;
    hide Hand, Ready;
    AdminOnlyWorks(i, d, s2, id);
    var s3 := After(s2, Msg(Src, SuspendNvme(id, AdminOnly)));
    CreatePassiveWorks(i, d, s3, id);
    var s4 := After(s3, Msg(Dst, CreateNvme(c.cfg, true, true)));
    assert NsMap(c.namespaces[..0]) == map[] by { NoNs(c.namespaces); }
    ThereDependsOn(s2.world, s4.world, c, c.namespaces);
    HomeDependsOn(d, s2.world, s4.world, id);
    hide Held, NvmeHome, NvmeListens, Enabled, Step, AllNsThere;
    AttachFrom(i, d, s4, id, 0);
    assert c.namespaces[0..] == c.namespaces;
    t := AttachAll(s4, id, c.namespaces).st;
    HomeDependsOn(d, s4.world, t.world, id);
  }

  lemma NoNs(nss: seq<Ns>)
    ensures NsMap(nss[..0]) == map[]
  {
  }

  lemma MoveNvmeWorks(i: State, d: Directory, s: State, id: Id)
    requires Inv(i, d, s) && id in d.nvme && id !in s.world.dst.nvme && Intact(d, s.world)
    ensures var r := MoveNvme(d, s, id);
      && r.Go? && Inv(i, d, r.st) && VblkSame(s.world, r.st.world) && Intact(d, r.st.world)
      && r.st.world.src.nvme.Keys == s.world.src.nvme.Keys
      && r.st.world.dst.nvme.Keys == s.world.dst.nvme.Keys + {id}
  {
    hide MoveNvme, Held, NsMap, NvmeListens, Send, After;
    var t := PrepareNvme(i, d, s, id);
    NotifyWorks(i, d, t, id);
    var u := After(t, Msg(Src, SuspendNvme(id, LiveUpdate)));
    IntactAfterNotify(d, t.world, u.world, id);
  }

  // ----- Dropping -----

  ghost function Nsids(nss: seq<Ns>): set<nat> {
    set ns | ns in nss :: ns.nsid
  }

  lemma DetachBooks(i: State, s: State, t: State, id: Id, n: nat)
    requires DestBook(i, s) && SrcBook(i, s, None) && id in s.world.src.nvme
    requires n in s.world.src.nvme[id].attached
    requires t == s.(world := t.world, log := t.log, trail := t.trail)
    requires var dev := s.world.src.nvme[id];
      t.world == s.world.(src := s.world.src.(
          nvme := s.world.src.nvme[id := dev.(attached := dev.attached - {n})]))
    ensures DestBook(i, t) && SrcBook(i, t, Some(s.world.src.nvme[id].attached[n].bdev))
  {
    hide LiveRefs, Slack;
    DestBookSame(i, s, t);
    hide DestBook;
    var pending := Some(s.world.src.nvme[id].attached[n].bdev);
    SrcRestMoved(i, s, t);
    hide SrcBases, SrcDisks;
    forall b | b in i.bdevs ensures Count(i, t, pending, b) {
      assert Count(i, s, None, b);
      NsRefDropped(s.world.src, id, n, b);
    }
  }

  // Detaching one namespace on the source, with the decrement still owed.
  lemma DetachWorks(i: State, d: Directory, s: State, id: Id, n: nat)
    requires Inv(i, d, s) && id in d.nvme && id in s.world.src.nvme && id in s.world.dst.nvme
    requires n in s.world.src.nvme[id].attached
    ensures var m := Msg(Src, DetachNs(id, n));
      && Send(s, m.side, m.rpc) == Go(After(s, m))
      && var t := After(s, m);
        && Held(i, d, t, Some(s.world.src.nvme[id].attached[n].bdev), {}, {})
        && NvmeDiffer(s.world, t.world, id) && t.world.dst == s.world.dst
        && t.world.src.nvme.Keys == s.world.src.nvme.Keys
        && t.world.src.nvme[id].attached == s.world.src.nvme[id].attached - {n}
  {
    hide DestBook, SrcBook, Traced, ReadyDisks, ReadyCtrls, NsMap, Right;
    RightNow(i, s);
    assert NvmeSettled(d, s.world, id);
    var m := Msg(Src, DetachNs(id, n));
    var t := After(s, m);
    NvmeDepart(d, s.world, id);
    NvmeOthersKept(d, s.world, t.world, id);
    NvmeArrive(d, t.world, id);
    hide Hand;
    DetachBooks(i, s, t, id, n);
    SentInTransit(i, d, s, t, Some(s.world.src.nvme[id].attached[n].bdev), m, {}, {});
  }

  // w' is w with one source controller's attachments reduced and disks released.
  ghost predicate Stripped(w: World, w': World, id: Id) {
    && w'.setting == w.setting && w'.dst == w.dst
    && w'.src.vblk == w.src.vblk
    && w'.src.nvme.Keys == w.src.nvme.Keys
    && w'.src.nvme - {id} == w.src.nvme - {id}
  }

  lemma ReleaseNsWorks(i: State, d: Directory, s: State, id: Id, ns: Ns)
    requires Inv(i, d, s) && id in d.nvme && id in s.world.src.nvme && id in s.world.dst.nvme
    requires ns.nsid in s.world.src.nvme[id].attached && s.world.src.nvme[id].attached[ns.nsid] == ns
    requires Movable(i, ns.bdev)
    ensures var r := ReleaseNs(s, id, ns);
      && r.Go? && Inv(i, d, r.st) && Stripped(s.world, r.st.world, id)
      && r.st.world.src.nvme[id].attached == s.world.src.nvme[id].attached - {ns.nsid}
  {
    hide Held, DestroyBdev, Movable, Send, After;
    DetachWorks(i, d, s, id, ns.nsid);
    DestroyBdevWorks(i, d, After(s, Msg(Src, DetachNs(id, ns.nsid))), ns.bdev);
  }

  // Releasing the namespaces from the k-th on, when the first k are gone.
  lemma {:induction false} ReleaseFrom(i: State, d: Directory, s: State, id: Id, k: nat)
    requires Inv(i, d, s) && id in d.nvme && id in s.world.src.nvme && id in s.world.dst.nvme
    requires ReadyNvme(i, d, id) && k <= |d.nvme[id].namespaces|
    requires s.world.src.nvme[id].attached ==
             NsMap(d.nvme[id].namespaces) - Nsids(d.nvme[id].namespaces[..k])
    ensures var r := ReleaseAll(s, id, d.nvme[id].namespaces[k..]);
      && r.Go? && Inv(i, d, r.st) && Stripped(s.world, r.st.world, id)
      && r.st.world.src.nvme[id].attached == map[]
    decreases |d.nvme[id].namespaces| - k
  {
    hide Inv, NsMap, Movable, ReleaseNs;
    var nss := d.nvme[id].namespaces;
    if k == |nss| {
      assert nss[..k] == nss;
      forall n ensures n !in s.world.src.nvme[id].attached {
        NsMapHas(nss, n);
      }
    } else {
      var ns := nss[k];
      NsMapAt(nss, k);
      assert ns.nsid !in Nsids(nss[..k]);
      assert ReadyNs(i, d, d.nvme[id], ns);
      ReleaseNsWorks(i, d, s, id, ns);
      var t := ReleaseNs(s, id, ns).st;
      assert Nsids(nss[..k + 1]) == Nsids(nss[..k]) + {ns.nsid} by {
        assert nss[..k + 1] == nss[..k] + [ns];
      }
      ReleaseFrom(i, d, t, id, k + 1);
      assert nss[k..][0] == ns && nss[k..][1..] == nss[k + 1..];
    }
  }

  lemma DestroyBooks(i: State, s: State, t: State, id: Id)
    requires DestBook(i, s) && SrcBook(i, s, None) && id in s.world.src.nvme
    requires s.world.src.nvme[id].attached == map[]
    requires t == s.(world := t.world, log := t.log, trail := t.trail)
    requires t.world == s.world.(src := s.world.src.(nvme := s.world.src.nvme - {id}))
    ensures DestBook(i, t) && SrcBook(i, t, None)
  {
    hide LiveRefs, Slack;
    DestBookSame(i, s, t);
    hide DestBook;
    SrcRestMoved(i, s, t);
    hide SrcBases, SrcDisks;
    forall b | b in i.bdevs ensures Count(i, t, None, b) {
      assert Count(i, s, None, b);
      NoRefDropped(s.world.src, id, b);
    }
  }

  lemma DestroyIs(s: State, id: Id)
    requires id in s.world.src.nvme && s.world.src.nvme[id].attached == map[] && s.failsAt == None
    requires VfsOf(s.world.setting.nvmeVfs, id) !! s.world.src.nvme.Keys
    ensures var m := Msg(Src, DestroyNvme(id)); var t := After(s, m);
      && Send(s, m.side, m.rpc) == Go(t) && Sent(s, t, m) && Noted(t) == Now(s)
      && t == s.(world := t.world, log := t.log, trail := t.trail)
      && t.world == s.world.(src := s.world.src.(nvme := s.world.src.nvme - {id}))
  {
  }

  lemma DestroyNvmeWorks(i: State, d: Directory, s: State, id: Id)
    requires Inv(i, d, s) && id in d.nvme && id in s.world.src.nvme && id in s.world.dst.nvme
    requires s.world.src.nvme[id].attached == map[]
    requires VfsOf(s.world.setting.nvmeVfs, id) !! s.world.src.nvme.Keys
    ensures var m := Msg(Src, DestroyNvme(id));
      && Send(s, m.side, m.rpc) == Go(After(s, m))
      && var t := After(s, m);
        && Inv(i, d, t) && VblkSame(s.world, t.world) && t.world.dst == s.world.dst
        && t.world.src.nvme == s.world.src.nvme - {id}
  {
    hide DestBook, SrcBook, Traced, ReadyDisks, ReadyCtrls, NsMap, Right, Send, After, VfsOf;
    RightNow(i, s);
    assert NvmeSettled(d, s.world, id);
    var m := Msg(Src, DestroyNvme(id));
    var t := After(s, m);
    DestroyIs(s, id);
    NvmeDepart(d, s.world, id);
    NvmeOthersKept(d, s.world, t.world, id);
    NvmeArrive(d, t.world, id);
    hide Hand;
    DestroyBooks(i, s, t, id);
    SentInTransit(i, d, s, t, None, m, {}, {});
  }

  lemma DropNvmeWorks(i: State, d: Directory, s: State, id: Id)
    requires Inv(i, d, s) && id in d.nvme && id in s.world.src.nvme && id in s.world.dst.nvme
    requires Intact(d, s.world)
    requires VfsOf(s.world.setting.nvmeVfs, id) !! s.world.src.nvme.Keys
    ensures var r := DropNvme(d, s, id);
      && r.Go? && Inv(i, d, r.st) && VblkSame(s.world, r.st.world) && Intact(d, r.st.world)
      && r.st.world.src.nvme.Keys == s.world.src.nvme.Keys - {id}
      && r.st.world.dst.nvme == s.world.dst.nvme
  {
    var nss := d.nvme[id].namespaces;
    assert ReadyNvme(i, d, id) by {
      hide DestBook, SrcBook, Traced, Hand, ReadyDisks, ReadyNvme;
      assert Ready(i, d);
    }
    hide Inv, NsMap, ReleaseAll, ReadyNvme;
    assert Nsids(nss[..0]) == {};
    ReleaseFrom(i, d, s, id, 0);
    assert nss[0..] == nss;
    var t := ReleaseAll(s, id, nss).st;
    DestroyNvmeWorks(i, d, t, id);
    var u := After(t, Msg(Src, DestroyNvme(id)));
    forall o | o in d.nvme && o in u.world.src.nvme
      ensures u.world.src.nvme[o].attached == NsMap(d.nvme[o].namespaces)
    {
      assert (t.world.src.nvme - {id})[o] == (s.world.src.nvme - {id})[o];
    }
  }
}
