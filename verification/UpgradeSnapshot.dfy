/**
 What the manager reads from the source when it starts, the state it builds from it,
 and when that state is a good starting point. Every table is built entry by entry, or
 described by its keys and values: no map comprehension, because the verifier's axioms
 let two empty ones with different values contradict each other.
 */
module UpgradeSnapshot {
  import opened Common
  import opened UpgradeWorld
  import opened UpgradeSpec
  import opened UpgradeInvariant
  import opened UpgradeRun

  // One entry of the source's namespace list.
  datatype NsInfo = NsInfo(nqn: string, ns: Ns)

  // The lists the source reports.
  datatype Snapshot = Snapshot(
    bdevs: seq<Bdev>, bases: seq<BaseCtrl>, vblk: seq<VblkCtrl>, nvme: seq<NvmeCtrl>,
    subsystems: seq<Subsys>, namespaces: seq<NsInfo>, vblkPfs: seq<Pf>, nvmePfs: seq<Pf>)

  // ----- Dictionaries built from lists; a later entry replaces an earlier one -----

  function VblkDict(l: seq<VblkCtrl>): map<Id, VblkCtrl> {
    if l == [] then map[] else VblkDict(l[..|l| - 1])[l[|l| - 1].id := l[|l| - 1]]
  }

  function NvmeDict(l: seq<NvmeCtrl>): map<Id, NvmeCtrl> {
    if l == [] then map[] else NvmeDict(l[..|l| - 1])[l[|l| - 1].cfg.id := l[|l| - 1]]
  }

  function SubsysDict(l: seq<Subsys>): map<string, Subsys> {
    if l == [] then map[] else SubsysDict(l[..|l| - 1])[l[|l| - 1].nqn := l[|l| - 1]]
  }

  function SubsysZeros(l: seq<Subsys>): (zeros: map<string, int>)
    ensures zeros.Keys == SubsysDict(l).Keys
    ensures forall n | n in zeros :: zeros[n] == 0
  {
    if l == [] then map[] else SubsysZeros(l[..|l| - 1])[l[|l| - 1].nqn := 0]
  }

  // The base controller an NVMe disk sits on: the last one with its transport id.
  function BaseOf(bases: seq<BaseCtrl>, trid: Trid): Option<Name> {
    if bases == [] then None
    else if bases[|bases| - 1].trid == trid then Some(bases[|bases| - 1].name)
    else BaseOf(bases[..|bases| - 1], trid)
  }

  // The bdev dictionary before references are counted. An NVMe disk without a base
  // controller is left out.
  function BdevTable(bdevs: seq<Bdev>, bases: seq<BaseCtrl>): map<Name, Entry> {
    if bdevs == [] then map[]
    else
      var before := BdevTable(bdevs[..|bdevs| - 1], bases);
      var b := bdevs[|bdevs| - 1];
      match b.product
      case NvmeDisk(trid) =>
        var x := BaseOf(bases, trid);
        if x.None? then before else before[b.name := Entry(b, x, 0, 0)]
      case _ => before[b.name := Entry(b, None, 0, 0)]
  }

  // How often a base of this name has this transport id.
  function Matches(bases: seq<BaseCtrl>, x: Name, trid: Trid): nat {
    if bases == [] then 0
    else
      Matches(bases[..|bases| - 1], x, trid)
      + if bases[|bases| - 1] == BaseCtrl(x, trid) then 1 else 0
  }

  // How many disks the start-up loop counts on a base.
  function BaseUses(bdevs: seq<Bdev>, bases: seq<BaseCtrl>, x: Name): nat {
    if bdevs == [] then 0
    else
      var b := bdevs[|bdevs| - 1];
      BaseUses(bdevs[..|bdevs| - 1], bases, x)
      + if b.product.NvmeDisk? then Matches(bases, x, b.product.trid) else 0
  }

  function BaseNames(bases: seq<BaseCtrl>): set<Name> {
    set b | b in bases :: b.name
  }

  // The entries of the listed base controllers.
  function BaseRows(bdevs: seq<Bdev>, bases: seq<BaseCtrl>, listed: seq<BaseCtrl>): (rows: map<Name, Hist>)
    ensures rows.Keys == BaseNames(listed)
    ensures forall x | x in rows :: rows[x] == Hist(0, BaseUses(bdevs, bases, x))
  {
    if listed == [] then map[]
    else
      assert listed == listed[..|listed| - 1] + [listed[|listed| - 1]];
      var x := listed[|listed| - 1].name;
      BaseRows(bdevs, bases, listed[..|listed| - 1])[x := Hist(0, BaseUses(bdevs, bases, x))]
  }

  function BaseTable(bdevs: seq<Bdev>, bases: seq<BaseCtrl>): map<Name, Hist> {
    BaseRows(bdevs, bases, bases)
  }

  // How many listed namespaces use a disk.
  function NsUses(l: seq<NsInfo>, b: Name): nat {
    if l == [] then 0
    else NsUses(l[..|l| - 1], b) + if l[|l| - 1].ns.bdev == b then 1 else 0
  }

  // The virtio-blk controllers that use a disk.
  function VblkOn(vblk: map<Id, VblkCtrl>, b: Name): set<Id> {
    set id | id in vblk && vblk[id].bdev == Some(b)
  }

  // A disk's entry with its references added.
  ghost function Tallied(e: Entry, l: seq<NsInfo>, vblk: map<Id, VblkCtrl>, b: Name): Entry {
    e.(used := e.used + NsUses(l, b) + |VblkOn(vblk, b)|)
  }

  // The bdev dictionary with references counted, whatever order it is walked in.
  ghost function Counted(table: map<Name, Entry>, l: seq<NsInfo>, vblk: map<Id, VblkCtrl>)
      : (counted: map<Name, Entry>)
    ensures counted.Keys == table.Keys
    ensures forall b | b in table :: counted[b] == Tallied(table[b], l, vblk, b)
    decreases |table|
  {
    hide Tallied;
    if table == map[] then map[]
    else
      var b :| b in table;
      assert |table - {b}| == |table| - 1;
      Counted(table - {b}, l, vblk)[b := Tallied(table[b], l, vblk, b)]
  }

  function Tables(v: Snapshot): Directory {
    Directory(VblkDict(v.vblk), NvmeDict(v.nvme), SubsysDict(v.subsystems))
  }

  // The state the manager starts from.
  ghost function Initial(v: Snapshot, w: World): State {
    State(
      Counted(BdevTable(v.bdevs, v.bases), v.namespaces, VblkDict(v.vblk)),
      BaseTable(v.bdevs, v.bases), SubsysZeros(v.subsystems), w, [], [], None)
  }

  // ----- The world a snapshot describes -----

  ghost function DiskMap(l: seq<Bdev>): map<Name, Bdev> {
    if l == [] then map[] else DiskMap(l[..|l| - 1])[l[|l| - 1].name := l[|l| - 1]]
  }

  ghost function BaseMap(l: seq<BaseCtrl>): map<Name, Trid> {
    if l == [] then map[] else BaseMap(l[..|l| - 1])[l[|l| - 1].name := l[|l| - 1].trid]
  }

  ghost function NsTable(l: seq<NsInfo>): map<NsKey, Ns> {
    if l == [] then map[]
    else NsTable(l[..|l| - 1])[NsKey(l[|l| - 1].nqn, l[|l| - 1].ns.nsid) := l[|l| - 1].ns]
  }

  // The source process that reports this snapshot.
  ghost predicate Reports(p: Proc, v: Snapshot) {
    && p.disks == DiskMap(v.bdevs)
    && p.bases == BaseMap(v.bases)
    && p.namespaces == NsTable(v.namespaces)
    && p.vblk.Keys == VblkDict(v.vblk).Keys
    && (forall id | id in p.vblk :: p.vblk[id] == VblkDev(VblkDict(v.vblk)[id], Serving))
    && p.nvme.Keys == NvmeDict(v.nvme).Keys
    && (forall id | id in p.nvme ::
          var c := NvmeDict(v.nvme)[id]; p.nvme[id] == NvmeDev(c.cfg, NsMap(c.namespaces), Serving))
  }

  // Attaching a base exports the disks that sit on its target.
  ghost predicate Exports(g: Setting, v: Snapshot) {
    forall b | b in v.bases ::
      && b in g.exports
      && var disks := DiskMap(v.bdevs);
         forall n ::
           && (n in g.exports[b] <==> n in disks && disks[n].product == NvmeDisk(b.trid))
           && (n in g.exports[b] ==> g.exports[b][n] == disks[n])
  }

  // ----- Well-formed snapshots -----

  // A disk the manager can find and rebuild.
  ghost predicate Known(v: Snapshot, b: Name) {
    exists x :: x in v.bdevs && x.name == b && x.blockSize > 0
      && match x.product
         case NvmeDisk(trid) => BaseOf(v.bases, trid).Some?
         case OtherDisk(_) => false
         case _ => true
  }

  ghost predicate VblkWell(v: Snapshot, c: VblkCtrl) {
    c.bdev.Some? ==> Known(v, c.bdev.value)
  }

  ghost predicate NvmeWell(v: Snapshot, c: NvmeCtrl) {
    && (exists u :: u in v.subsystems && u.nqn == c.cfg.nqn)
    && (forall j, k | 0 <= j < k < |c.namespaces| :: c.namespaces[j].nsid != c.namespaces[k].nsid)
    && (forall ns | ns in c.namespaces :: Known(v, ns.bdev) && NsInfo(c.cfg.nqn, ns) in v.namespaces)
  }

  ghost predicate BdevsDistinct(l: seq<Bdev>) {
    forall j, k | 0 <= j < k < |l| :: l[j].name != l[k].name
  }

  ghost predicate BasesDistinct(l: seq<BaseCtrl>) {
    forall j, k | 0 <= j < k < |l| :: l[j].name != l[k].name && l[j].trid != l[k].trid
  }

  ghost predicate NsDistinct(l: seq<NsInfo>) {
    forall j, k | 0 <= j < k < |l| ::
      && NsKey(l[j].nqn, l[j].ns.nsid) != NsKey(l[k].nqn, l[k].ns.nsid)
      && l[j].ns.uuid != l[k].ns.uuid
  }

  // Keys are unique, and what controllers refer to is in the lists.
  ghost predicate WellFormed(v: Snapshot) {
    && BdevsDistinct(v.bdevs) && BasesDistinct(v.bases) && NsDistinct(v.namespaces)
    && (forall b | b in v.bdevs :: b.blockSize > 0)
    && (forall c | c in v.vblk :: VblkWell(v, c))
    && (forall c | c in v.nvme :: NvmeWell(v, c))
  }

  // A world in which the source reports v and the destination is new.
  ghost predicate Pristine(v: Snapshot, w: World) {
    Reports(w.src, v) && Exports(w.setting, v) && Blank(w.dst)
  }

  // ----- Dictionary facts -----

  lemma {:induction false} VblkDictHas(l: seq<VblkCtrl>, id: Id)
    ensures id in VblkDict(l) ==> VblkDict(l)[id] in l && VblkDict(l)[id].id == id
  {
    if l != [] {
      VblkDictHas(l[..|l| - 1], id);
    }
  }

  lemma {:induction false} NvmeDictHas(l: seq<NvmeCtrl>, id: Id)
    ensures id in NvmeDict(l) ==> NvmeDict(l)[id] in l && NvmeDict(l)[id].cfg.id == id
  {
    if l != [] {
      NvmeDictHas(l[..|l| - 1], id);
    }
  }

  lemma {:induction false} SubsysDictHas(l: seq<Subsys>, n: string)
    ensures n in SubsysDict(l) <==> exists u :: u in l && u.nqn == n
    ensures n in SubsysDict(l) ==> SubsysDict(l)[n].nqn == n
  {
    if l != [] {
      SubsysDictHas(l[..|l| - 1], n);
      assert l == l[..|l| - 1] + [l[|l| - 1]];
    }
  }

  lemma {:induction false} DiskMapHas(l: seq<Bdev>, n: Name)
    requires BdevsDistinct(l)
    ensures n in DiskMap(l) ==> DiskMap(l)[n] in l && DiskMap(l)[n].name == n
    ensures forall b | b in l && b.name == n :: n in DiskMap(l) && DiskMap(l)[n] == b
  {
    if l != [] {
      DiskMapHas(l[..|l| - 1], n);
      assert l == l[..|l| - 1] + [l[|l| - 1]];
    }
  }

  lemma {:induction false} BaseMapHas(l: seq<BaseCtrl>, x: Name)
    requires BasesDistinct(l)
    ensures x in BaseMap(l) <==> x in BaseNames(l)
    ensures x in BaseMap(l) ==> BaseCtrl(x, BaseMap(l)[x]) in l
    ensures forall b | b in l && b.name == x :: x in BaseMap(l) && BaseMap(l)[x] == b.trid
  {
    if l != [] {
      BaseMapHas(l[..|l| - 1], x);
      assert l == l[..|l| - 1] + [l[|l| - 1]];
    }
  }

  lemma {:induction false} NsTableHas(l: seq<NsInfo>, k: NsKey)
    requires NsDistinct(l)
    ensures k in NsTable(l) ==> NsInfo(k.nqn, NsTable(l)[k]) in l && NsTable(l)[k].nsid == k.nsid
    ensures forall e | e in l && NsKey(e.nqn, e.ns.nsid) == k :: k in NsTable(l) && NsTable(l)[k] == e.ns
  {
    if l != [] {
      NsTableHas(l[..|l| - 1], k);
      assert l == l[..|l| - 1] + [l[|l| - 1]];
    }
  }

  // With unique transport ids the base of a disk is the base that has its id.
  lemma {:induction false} BaseOfHas(l: seq<BaseCtrl>, trid: Trid)
    requires BasesDistinct(l)
    ensures BaseOf(l, trid).Some? ==> BaseCtrl(BaseOf(l, trid).value, trid) in l
    ensures forall b | b in l && b.trid == trid :: BaseOf(l, trid) == Some(b.name)
  {
    if l != [] {
      BaseOfHas(l[..|l| - 1], trid);
      assert l == l[..|l| - 1] + [l[|l| - 1]];
    }
  }

  lemma {:induction false} MatchesOnce(l: seq<BaseCtrl>, x: Name, trid: Trid)
    requires BasesDistinct(l)
    ensures Matches(l, x, trid) == if BaseCtrl(x, trid) in l then 1 else 0
  {
    if l != [] {
      MatchesOnce(l[..|l| - 1], x, trid);
      assert l == l[..|l| - 1] + [l[|l| - 1]];
    }
  }

  // The bdev dictionary has every disk but the NVMe disks without a base.
  lemma {:induction false} BdevTableHas(l: seq<Bdev>, bases: seq<BaseCtrl>, n: Name)
    requires BdevsDistinct(l)
    ensures n in BdevTable(l, bases) ==>
      var e := BdevTable(l, bases)[n];
      && e.info in l && e.info.name == n && e.created == 0 && e.used == 0
      && e.base == (if e.info.product.NvmeDisk? then BaseOf(bases, e.info.product.trid) else None)
      && (e.info.product.NvmeDisk? ==> e.base.Some?)
    ensures forall b | b in l && b.name == n ::
      (b.product.NvmeDisk? ==> BaseOf(bases, b.product.trid).Some?) ==>
        n in BdevTable(l, bases) && BdevTable(l, bases)[n].info == b
  {
    hide BaseOf;
    if l != [] {
      var init, last := l[..|l| - 1], l[|l| - 1];
      BdevTableHas(init, bases, n);
      assert l == init + [last];
      if last.name != n {
        assert n in BdevTable(l, bases) <==> n in BdevTable(init, bases);
      }
    }
  }

  ghost function TableOn(l: seq<Bdev>, bases: seq<BaseCtrl>, x: Name): set<Name> {
    set n | n in BdevTable(l, bases) && BdevTable(l, bases)[n].base == Some(x)
  }

  // The start-up loop counts each base's disks.
  lemma {:induction false} BaseUsesCounts(l: seq<Bdev>, bases: seq<BaseCtrl>, x: Name)
    requires BdevsDistinct(l) && BasesDistinct(bases)
    ensures BaseUses(l, bases, x) == |TableOn(l, bases, x)|
  {
    if l != [] {
      var init, b := l[..|l| - 1], l[|l| - 1];
      BaseUsesCounts(init, bases, x);
      BdevTableHas(init, bases, b.name);
      assert b.name !in BdevTable(init, bases);
      if b.product.NvmeDisk? {
        MatchesOnce(bases, x, b.product.trid);
        BaseOfHas(bases, b.product.trid);
        if BaseCtrl(x, b.product.trid) in bases {
          assert TableOn(l, bases, x) == TableOn(init, bases, x) + {b.name};
        } else {
          assert TableOn(l, bases, x) == TableOn(init, bases, x);
        }
      } else {
        assert TableOn(l, bases, x) == TableOn(init, bases, x);
      }
    } else {
      assert TableOn(l, bases, x) == {};
    }
  }

  // ----- Lists with repeated keys: the last entry counts -----

  lemma {:induction false} LastVblk(l: seq<VblkCtrl>, k: nat)
    requires k < |l| && forall j | k < j < |l| :: l[j].id != l[k].id
    ensures l[k].id in VblkDict(l) && VblkDict(l)[l[k].id] == l[k]
    decreases |l|
  {
    if k < |l| - 1 {
      LastVblk(l[..|l| - 1], k);
    }
  }

  lemma {:induction false} LastNvme(l: seq<NvmeCtrl>, k: nat)
    requires k < |l| && forall j | k < j < |l| :: l[j].cfg.id != l[k].cfg.id
    ensures l[k].cfg.id in NvmeDict(l) && NvmeDict(l)[l[k].cfg.id] == l[k]
    decreases |l|
  {
    if k < |l| - 1 {
      LastNvme(l[..|l| - 1], k);
    }
  }

  lemma {:induction false} LastSubsys(l: seq<Subsys>, k: nat)
    requires k < |l| && forall j | k < j < |l| :: l[j].nqn != l[k].nqn
    ensures l[k].nqn in SubsysDict(l) && SubsysDict(l)[l[k].nqn] == l[k]
    decreases |l|
  {
    if k < |l| - 1 {
      LastSubsys(l[..|l| - 1], k);
    }
  }

  // A disk's base is the last base controller with its transport id, if there is one.
  lemma {:induction false} LastBase(l: seq<BaseCtrl>, trid: Trid, k: nat)
    requires k <= |l| && forall j | k <= j < |l| :: l[j].trid != trid
    ensures k > 0 && l[k - 1].trid == trid ==> BaseOf(l, trid) == Some(l[k - 1].name)
    ensures k == 0 ==> BaseOf(l, trid) == None
    decreases |l|
  {
    if k < |l| {
      LastBase(l[..|l| - 1], trid, k);
    }
  }

  // A disk's entry is that of the last listed disk of this name, with nothing created or
  // counted yet; NVMe disks that no base controller has are passed over.
  lemma {:induction false} LastBdev(l: seq<Bdev>, bases: seq<BaseCtrl>, k: nat)
    requires k < |l| && (l[k].product.NvmeDisk? ==> exists c :: c in bases && c.trid == l[k].product.trid)
    requires forall j | k < j < |l| && l[j].name == l[k].name ::
      l[j].product.NvmeDisk? && forall c | c in bases :: c.trid != l[j].product.trid
    ensures var b, t := l[k], BdevTable(l, bases);
      && b.name in t
      && t[b.name] == Entry(b, if b.product.NvmeDisk? then BaseOf(bases, b.product.trid) else None, 0, 0)
    decreases |l|
  {
    hide BaseOf;
    var last := l[|l| - 1];
    if last.product.NvmeDisk? {
      HasBase(bases, last.product.trid);
    }
    if k < |l| - 1 {
      LastBdev(l[..|l| - 1], bases, k);
    }
  }

  lemma {:induction false} HasBase(bases: seq<BaseCtrl>, trid: Trid)
    ensures BaseOf(bases, trid).Some? <==> exists c :: c in bases && c.trid == trid
    decreases |bases|
  {
    if bases != [] {
      HasBase(bases[..|bases| - 1], trid);
      assert bases == bases[..|bases| - 1] + [bases[|bases| - 1]];
    }
  }

  // ----- A well-formed snapshot of a pristine world is a good start -----

  lemma InitialEntry(v: Snapshot, w: World, b: Name)
    requires WellFormed(v) && b in Initial(v, w).bdevs
    ensures var e := Initial(v, w).bdevs[b]; var t := BdevTable(v.bdevs, v.bases);
      && b in t && e.info == t[b].info && e.base == t[b].base && e.created == 0
      && e.info in v.bdevs && e.info.name == b
      && e.base == (if e.info.product.NvmeDisk? then BaseOf(v.bases, e.info.product.trid) else None)
      && (e.info.product.NvmeDisk? ==> e.base.Some?)
      && e.used == NsUses(v.namespaces, b) + |VblkOn(VblkDict(v.vblk), b)|
  {
    hide VblkWell, NvmeWell;
    BdevTableHas(v.bdevs, v.bases, b);
  }

  lemma KnownIsMovable(v: Snapshot, w: World, b: Name)
    requires WellFormed(v) && Known(v, b)
    ensures Movable(Initial(v, w), b)
  {
    hide VblkWell, NvmeWell;
    BdevTableHas(v.bdevs, v.bases, b);
  }

  lemma ReadyDiskOf(v: Snapshot, w: World, b: Name)
    requires WellFormed(v) && Pristine(v, w) && b in Initial(v, w).bdevs
    ensures ReadyDisk(Initial(v, w), b)
  {
    hide VblkWell, NvmeWell, Initial, BdevTable;
    InitialEntry(v, w, b);
    DiskMapHas(v.bdevs, b);
    var e := Initial(v, w).bdevs[b];
    assert Initial(v, w).world == w && Initial(v, w).bases == BaseTable(v.bdevs, v.bases) by {
      InitialParts(v, w);
    }
    if e.base.Some? {
      BaseOfHas(v.bases, e.info.product.trid);
      BaseMapHas(v.bases, e.base.value);
    }
  }

  lemma InitialParts(v: Snapshot, w: World)
    ensures Initial(v, w).world == w && Initial(v, w).bases == BaseTable(v.bdevs, v.bases)
    ensures Initial(v, w).subsysHist == SubsysZeros(v.subsystems)
    ensures Initial(v, w).log == [] && Initial(v, w).trail == [] && Initial(v, w).failsAt == None
    ensures Initial(v, w).bdevs.Keys == BdevTable(v.bdevs, v.bases).Keys
  {
  }

  // A base's target exports exactly the disks that the manager puts on it.
  lemma ExportedOnBase(v: Snapshot, w: World, x: Name, trid: Trid, n: Name)
    requires WellFormed(v) && Pristine(v, w) && BaseCtrl(x, trid) in v.bases
    ensures var i, shown := Initial(v, w), Exported(w.setting, x, trid);
      (n in shown <==> n in OnBase(i, x)) && (n in shown ==> shown[n] == i.bdevs[n].info)
  {
    hide VblkWell, NvmeWell, Reports, BdevsDistinct, BasesDistinct, NsDistinct, Initial, BdevTable, DiskMap, BaseOf;
    var i := Initial(v, w);
    assert n in i.bdevs <==> n in BdevTable(v.bdevs, v.bases) by { InitialParts(v, w); }
    DiskMapHas(v.bdevs, n);
    BdevTableHas(v.bdevs, v.bases, n);
    BaseOfHas(v.bases, trid);
    if n in i.bdevs {
      InitialEntry(v, w, n);
      if i.bdevs[n].info.product.NvmeDisk? {
        BaseOfHas(v.bases, i.bdevs[n].info.product.trid);
        BaseMapHas(v.bases, x);
      }
    }
  }

  lemma ReadyBaseOf(v: Snapshot, w: World, x: Name)
    requires WellFormed(v) && Pristine(v, w) && x in BaseNames(v.bases)
    ensures x in w.src.bases && x in Initial(v, w).bases && ReadyBase(Initial(v, w), x)
  {
    hide VblkWell, NvmeWell, BdevsDistinct, BasesDistinct, NsDistinct, Exports;
    var i := Initial(v, w);
    BaseMapHas(v.bases, x);
    var trid := w.src.bases[x];
    BaseUsesCounts(v.bdevs, v.bases, x);
    assert OnBase(i, x) == TableOn(v.bdevs, v.bases, x);
    hide Reports, BaseUses, TableOn, BdevTable;
    InitialParts(v, w);
    assert i.bases[x] == Hist(0, BaseUses(v.bdevs, v.bases, x));
    hide Initial, OnBase, Exported;
    var shown := Exported(w.setting, x, trid);
    forall n
      ensures n in shown <==> n in OnBase(i, x)
      ensures n in shown ==> n in i.bdevs && shown[n] == i.bdevs[n].info
    {
      ExportedOnBase(v, w, x, trid, n);
      InOnBase(i, x, n);
    }
  }

  lemma InOnBase(i: State, x: Name, n: Name)
    ensures n in OnBase(i, x) ==> n in i.bdevs
  {
  }

  lemma ReadyDisksOf(v: Snapshot, w: World)
    requires WellFormed(v) && Pristine(v, w)
    ensures ReadyDisks(Initial(v, w))
  {
    hide Initial, WellFormed, BaseNames, BaseMap, ReadyDisk, ReadyBase, Exports;
    InitialParts(v, w);
    var i := Initial(v, w);
    assert w.src.bases == BaseMap(v.bases);
    forall x ensures x in i.world.src.bases <==> x in i.bases {
      assert x in BaseMap(v.bases) <==> x in BaseNames(v.bases) by { BaseNamesOf(v, x); }
    }
    hide Pristine;
    forall b | b in i.bdevs ensures ReadyDisk(i, b) {
      ReadyDiskOf(v, w, b);
    }
    forall x | x in i.bases ensures ReadyBase(i, x) {
      ReadyBaseOf(v, w, x);
    }
  }

  lemma BaseNamesOf(v: Snapshot, x: Name)
    requires WellFormed(v)
    ensures x in BaseMap(v.bases) <==> x in BaseNames(v.bases)
  {
    hide VblkWell, NvmeWell;
    BaseMapHas(v.bases, x);
  }

  lemma ReadyVblkOf(v: Snapshot, w: World, id: Id)
    requires WellFormed(v) && Pristine(v, w) && id in Tables(v).vblk
    ensures ReadyVblk(Initial(v, w), Tables(v), id)
  {
    VblkDictHas(v.vblk, id);
    InitialParts(v, w);
    var c := VblkDict(v.vblk)[id];
    assert VblkWell(v, c);
    hide WellFormed, Initial;
    if c.bdev.Some? {
      KnownIsMovable(v, w, c.bdev.value);
    }
  }

  lemma ReadyNvmeOf(v: Snapshot, w: World, id: Id)
    requires WellFormed(v) && Pristine(v, w) && id in Tables(v).nvme
    ensures ReadyNvme(Initial(v, w), Tables(v), id)
  {
    NvmeDictHas(v.nvme, id);
    InitialParts(v, w);
    var i, c := Initial(v, w), NvmeDict(v.nvme)[id];
    assert NvmeWell(v, c);
    hide WellFormed, Initial, NsMap, Known;
    forall ns | ns in c.namespaces ensures ReadyNs(i, Tables(v), c, ns) {
      KnownIsMovable(v, w, ns.bdev);
      ListedNs(v, NsInfo(c.cfg.nqn, ns));
    }
    SubsysDictHas(v.subsystems, c.cfg.nqn);
  }

  lemma ListedNs(v: Snapshot, e: NsInfo)
    requires WellFormed(v) && e in v.namespaces
    ensures var k := NsKey(e.nqn, e.ns.nsid); k in NsTable(v.namespaces) && NsTable(v.namespaces)[k] == e.ns
  {
    hide VblkWell, NvmeWell;
    NsTableHas(v.namespaces, NsKey(e.nqn, e.ns.nsid));
  }

  lemma UuidsDistinct(v: Snapshot, k: NsKey, l: NsKey)
    requires NsDistinct(v.namespaces) && k in NsTable(v.namespaces) && l in NsTable(v.namespaces)
    requires NsTable(v.namespaces)[k].uuid == NsTable(v.namespaces)[l].uuid
    ensures k == l
  {
    hide NsTable;
    NsTableHas(v.namespaces, k);
    NsTableHas(v.namespaces, l);
  }

  lemma ReadyCtrlsOf(v: Snapshot, w: World)
    requires WellFormed(v) && Pristine(v, w)
    ensures ReadyCtrls(Initial(v, w), Tables(v))
  {
    hide Initial, VblkWell, NvmeWell, BdevsDistinct, BasesDistinct, NsDistinct;
    InitialParts(v, w);
    var i, d := Initial(v, w), Tables(v);
    forall k, l | k in w.src.namespaces && l in w.src.namespaces
                  && w.src.namespaces[k].uuid == w.src.namespaces[l].uuid
      ensures k == l
    {
      UuidsDistinct(v, k, l);
    }
    hide WellFormed;
    forall id | id in d.vblk ensures ReadyVblk(i, d, id) {
      ReadyVblkOf(v, w, id);
    }
    forall id | id in d.nvme ensures ReadyNvme(i, d, id) {
      ReadyNvmeOf(v, w, id);
    }
    forall n | n in d.subsys ensures d.subsys[n].nqn == n {
      SubsysDictHas(v.subsystems, n);
    }
  }

  // In-use functions have distinct controllers that are in the lists, and virtual
  // functions are grouped as the emulation setting groups them.
  ghost predicate Rooted(v: Snapshot, g: Setting) {
    && TreeOk(g.vblkVfs, v.vblkPfs) && Elems(TreeIds(v.vblkPfs)) <= VblkDict(v.vblk).Keys
    && TreeOk(g.nvmeVfs, v.nvmePfs) && Elems(TreeIds(v.nvmePfs)) <= NvmeDict(v.nvme).Keys
  }

  lemma LaunchOf(v: Snapshot, w: World)
    requires WellFormed(v) && Pristine(v, w) && Rooted(v, w.setting)
    ensures Launch(Initial(v, w), Tables(v), v.vblkPfs, v.nvmePfs)
  {
    hide WellFormed, TreeOk, TreeIds;
    ReadyDisksOf(v, w);
    ReadyCtrlsOf(v, w);
    InitialParts(v, w);
    hide Initial, ReadyDisks, ReadyCtrls;
  }

  // ----- Slack: listed namespaces less attached ones -----

  lemma VblkRefsCount(v: Snapshot, w: World, b: Name)
    requires Pristine(v, w)
    ensures |VblkOn(VblkDict(v.vblk), b)| == |VblkRefs(w.src, b)|
  {
    var ids := VblkOn(VblkDict(v.vblk), b);
    VblkImage(ids);
    assert VblkRefs(w.src, b) == set id | id in ids :: OfVblk(id);
  }

  lemma {:induction false} VblkImage(ids: set<Id>)
    ensures |set id | id in ids :: OfVblk(id)| == |ids|
  {
    if ids != {} {
      var x :| x in ids;
      VblkImage(ids - {x});
      assert (set id | id in ids :: OfVblk(id)) == (set id | id in ids - {x} :: OfVblk(id)) + {OfVblk(x)};
    }
  }

  // The slack of a disk is what the lists say: namespaces listed for it, less
  // namespaces of it that some controller has attached.
  lemma SlackIs(v: Snapshot, w: World, b: Name)
    requires WellFormed(v) && Pristine(v, w) && b in Initial(v, w).bdevs
    ensures Slack(Initial(v, w), b) == NsUses(v.namespaces, b) - |NsRefs(w.src, b)|
  {
    hide WellFormed, Pristine, Initial;
    InitialEntry(v, w, b);
    VblkRefsCount(v, w, b);
    assert Initial(v, w).world == w by { InitialParts(v, w); }
    assert VblkRefs(w.src, b) !! NsRefs(w.src, b) by {
      forall r | r in VblkRefs(w.src, b) ensures r !in NsRefs(w.src, b) {
        VblkRefIn(w.src, b, r);
        NsRefIn(w.src, b, r);
      }
    }
  }

  // The controllers that have a listed namespace attached.
  ghost function Owners(v: Snapshot, e: NsInfo): set<Id> {
    set id | id in NvmeDict(v.nvme) && NvmeDict(v.nvme)[id].cfg.nqn == e.nqn
             && e.ns in NvmeDict(v.nvme)[id].namespaces
  }

  // Every listed namespace is attached to exactly one controller.
  ghost predicate AttachedOnce(v: Snapshot) {
    forall e | e in v.namespaces :: |Owners(v, e)| == 1
  }

  // The references that the first k listed namespaces stand for.
  ghost function RefsOf(v: Snapshot, l: seq<NsInfo>, b: Name): set<Ref> {
    set e, id | e in l && e.ns.bdev == b && id in Owners(v, e) :: OfNs(id, e.ns.nsid)
  }

  lemma {:induction false} RefsOfCount(v: Snapshot, k: nat, b: Name)
    requires NsDistinct(v.namespaces) && AttachedOnce(v) && k <= |v.namespaces|
    ensures |RefsOf(v, v.namespaces[..k], b)| == NsUses(v.namespaces[..k], b)
  {
    hide RefsOf, Owners, NsDistinct;
    if k == 0 {
      NoRefsOf(v, b);
      assert v.namespaces[..0] == [];
    } else {
      var init, e := v.namespaces[..k - 1], v.namespaces[k - 1];
      RefsOfCount(v, k - 1, b);
      assert v.namespaces[..k] == init + [e];
      assert v.namespaces[..k][..k - 1] == init;
      assert |Owners(v, e)| == 1;
      var id :| id in Owners(v, e);
      OnlyOne(Owners(v, e), id);
      OneMoreRef(v, init, e, id, b);
      if e.ns.bdev == b {
        FreshRef(v, k, id, b);
      }
    }
  }

  lemma NoRefsOf(v: Snapshot, b: Name)
    ensures RefsOf(v, [], b) == {}
  {
  }

  lemma OneMoreRef(v: Snapshot, init: seq<NsInfo>, e: NsInfo, id: Id, b: Name)
    requires Owners(v, e) == {id}
    ensures RefsOf(v, init + [e], b)
         == if e.ns.bdev == b then RefsOf(v, init, b) + {OfNs(id, e.ns.nsid)} else RefsOf(v, init, b)
  {
    hide Owners;
    var more := init + [e];
    forall r ensures r in RefsOf(v, more, b) <==>
                     r in RefsOf(v, init, b) || (e.ns.bdev == b && r == OfNs(id, e.ns.nsid)) {
      if r in RefsOf(v, init, b) {
        var f, o :| f in init && f.ns.bdev == b && o in Owners(v, f) && r == OfNs(o, f.ns.nsid);
        assert f in more;
      }
      if e.ns.bdev == b && r == OfNs(id, e.ns.nsid) {
        assert e in more && id in Owners(v, e);
      }
    }
  }

  // Two listed namespaces never stand for the same reference.
  lemma FreshRef(v: Snapshot, k: nat, id: Id, b: Name)
    requires NsDistinct(v.namespaces) && 0 < k <= |v.namespaces| && id in Owners(v, v.namespaces[k - 1])
    ensures OfNs(id, v.namespaces[k - 1].ns.nsid) !in RefsOf(v, v.namespaces[..k - 1], b)
  {
    var e := v.namespaces[k - 1];
    forall f | f in v.namespaces[..k - 1] && id in Owners(v, f) ensures f.ns.nsid != e.ns.nsid {
      var j :| 0 <= j < k - 1 && v.namespaces[j] == f;
      assert NsKey(v.namespaces[j].nqn, v.namespaces[j].ns.nsid) != NsKey(e.nqn, e.ns.nsid);
    }
  }

  lemma OnlyOne<T>(s: set<T>, x: T)
    requires |s| == 1 && x in s
    ensures s == {x}
  {
    assert |s - {x}| == 0;
  }

  lemma RefsOfAll(v: Snapshot, w: World, b: Name)
    requires WellFormed(v) && Pristine(v, w)
    ensures RefsOf(v, v.namespaces, b) == NsRefs(w.src, b)
  {
    hide VblkWell, Known, Exports, BdevsDistinct, BasesDistinct, NsDistinct, NvmeDict, NsMap, NsRefs;
    forall r ensures r in RefsOf(v, v.namespaces, b) <==> r in NsRefs(w.src, b) {
      NsRefIn(w.src, b, r);
      if r.OfNs? && r.id in NvmeDict(v.nvme) {
        NvmeDictHas(v.nvme, r.id);
        var c := NvmeDict(v.nvme)[r.id];
        assert NvmeWell(v, c);
        NsMapHas(c.namespaces, r.nsid);
        if j :| 0 <= j < |c.namespaces| && c.namespaces[j].nsid == r.nsid {
          NsMapAt(c.namespaces, j);
          assert NsInfo(c.cfg.nqn, c.namespaces[j]) in v.namespaces;
        }
      }
    }
  }

  // When every listed namespace is attached to exactly one controller, every
  // reference is counted exactly once.
  lemma AttachedOnceIsExact(v: Snapshot, w: World, b: Name)
    requires WellFormed(v) && Pristine(v, w) && AttachedOnce(v) && b in Initial(v, w).bdevs
    ensures Slack(Initial(v, w), b) == 0
  {
    hide VblkWell, NvmeWell, BdevsDistinct, BasesDistinct, NsDistinct, Pristine, AttachedOnce, NsRefs, RefsOf, Slack,
         Initial, NsUses, Known;
    SlackIs(v, w, b);
    RefsOfCount(v, |v.namespaces|, b);
    RefsOfAll(v, w, b);
    assert v.namespaces[..|v.namespaces|] == v.namespaces;
  }
}
