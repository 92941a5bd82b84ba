/**
 The bookkeeping while the upgrade is under way: whenever an RPC is sent, and after any
 number of physical functions, every count equals the references it stands for.
 */
module UpgradeProgress {
  import opened Common
  import opened UpgradeWorld
  import opened UpgradeSpec
  import opened UpgradeInvariant
  import opened UpgradeRun
  import opened UpgradeTheorems

  // The run after the first j virtio-blk and the first k NVMe physical functions.
  ghost function Partway(i: State, d: Directory, vblkPfs: seq<Pf>, nvmePfs: seq<Pf>, j: nat, k: nat): Run
    requires j <= |vblkPfs| && k <= |nvmePfs|
  {
    Upgrade(d, i, vblkPfs[..j], nvmePfs[..k])
  }

  lemma {:induction false} TreeIdsSplit(a: seq<Pf>, b: seq<Pf>)
    ensures TreeIds(a + b) == TreeIds(a) + TreeIds(b)
    decreases |a|
  {
    hide PfIds;
    if a == [] {
      assert a + b == b;
    } else {
      assert (a + b)[1..] == a[1..] + b;
      TreeIdsSplit(a[1..], b);
    }
  }

  lemma TreePrefix(vfs: map<Id, set<Id>>, pfs: seq<Pf>, j: nat, keys: set<Id>)
    requires TreeOk(vfs, pfs) && Elems(TreeIds(pfs)) <= keys && j <= |pfs|
    ensures TreeOk(vfs, pfs[..j]) && Elems(TreeIds(pfs[..j])) <= keys
  {
    hide PfOk, PfIds;
    assert pfs == pfs[..j] + pfs[j..];
    TreeIdsSplit(pfs[..j], pfs[j..]);
    NoDupSplit(TreeIds(pfs[..j]), TreeIds(pfs[j..]));
  }

  lemma LaunchPrefix(i: State, d: Directory, vblkPfs: seq<Pf>, nvmePfs: seq<Pf>, j: nat, k: nat)
    requires Launch(i, d, vblkPfs, nvmePfs) && j <= |vblkPfs| && k <= |nvmePfs|
    ensures Launch(i, d, vblkPfs[..j], nvmePfs[..k])
  {
    hide Ready, TreeOk, Elems, TreeIds;
    TreePrefix(i.world.setting.vblkVfs, vblkPfs, j, d.vblk.Keys);
    TreePrefix(i.world.setting.nvmeVfs, nvmePfs, k, d.nvme.Keys);
  }

  lemma {:induction false} VblkPfsSplit(d: Directory, s: State, a: seq<Pf>, b: seq<Pf>)
    ensures var r := UpgradeVblkPfs(d, s, a);
      UpgradeVblkPfs(d, s, a + b) == if r.Go? then UpgradeVblkPfs(d, r.st, b) else r
    decreases |a|
  {
    hide UpgradeVblkPf;
    if a == [] {
      assert a + b == b;
    } else {
      assert (a + b)[1..] == a[1..] + b;
      VblkPfsSplit(d, UpgradeVblkPf(d, s, a[0]).st, a[1..], b);
    }
  }

  lemma {:induction false} NvmePfsSplit(d: Directory, s: State, a: seq<Pf>, b: seq<Pf>)
    ensures var r := UpgradeNvmePfs(d, s, a);
      UpgradeNvmePfs(d, s, a + b) == if r.Go? then UpgradeNvmePfs(d, r.st, b) else r
    decreases |a|
  {
    hide UpgradeNvmePf;
    if a == [] {
      assert a + b == b;
    } else {
      assert (a + b)[1..] == a[1..] + b;
      NvmePfsSplit(d, UpgradeNvmePf(d, s, a[0]).st, a[1..], b);
    }
  }

  // The whole run passes through these states.
  lemma PassesThrough(i: State, d: Directory, vblkPfs: seq<Pf>, nvmePfs: seq<Pf>, j: nat, k: nat)
    requires j <= |vblkPfs| && k <= |nvmePfs| && (k > 0 ==> j == |vblkPfs|)
    requires Partway(i, d, vblkPfs, nvmePfs, j, k).Go?
    ensures Upgrade(d, i, vblkPfs, nvmePfs)
         == Upgrade(d, Partway(i, d, vblkPfs, nvmePfs, j, k).st, vblkPfs[j..], nvmePfs[k..])
  {
    hide UpgradeVblkPfs, UpgradeNvmePfs;
    assert vblkPfs == vblkPfs[..j] + vblkPfs[j..] && nvmePfs == nvmePfs[..k] + nvmePfs[k..];
    VblkPfsSplit(d, i, vblkPfs[..j], vblkPfs[j..]);
    var t := UpgradeVblkPfs(d, i, vblkPfs[..j]).st;
    NothingLeft(d, t);
    NvmePfsSplit(d, t, nvmePfs[..k], nvmePfs[k..]);
    if k == 0 {
      assert nvmePfs[..0] == [];
    } else {
      assert vblkPfs[j..] == [];
      NothingLeft(d, UpgradeNvmePfs(d, t, nvmePfs[..k]).st);
    }
  }

  lemma NothingLeft(d: Directory, s: State)
    ensures UpgradeVblkPfs(d, s, []) == Go(s) && UpgradeNvmePfs(d, s, []) == Go(s)
  {
  }

  // At every such point the run is still going and each disk's count equals the
  // references the source still holds plus its slack.
  lemma DiskPartway(i: State, d: Directory, vblkPfs: seq<Pf>, nvmePfs: seq<Pf>, j: nat, k: nat, b: Name)
    requires Launch(i, d, vblkPfs, nvmePfs) && j <= |vblkPfs| && k <= |nvmePfs| && b in i.bdevs
    ensures var r := Partway(i, d, vblkPfs, nvmePfs, j, k);
      r.Go? && Frame(i, r.st) && RightDisk(i, r.st, b)
  {
    hide Launch, Upgrade, Hand, Traced, DestDisk, DestBase, LiveRefs, Slack, ReadyCtrls, Blank;
    LaunchPrefix(i, d, vblkPfs, nvmePfs, j, k);
    RunWorks(i, d, vblkPfs[..j], nvmePfs[..k]);
    RightDiskNow(i, Partway(i, d, vblkPfs, nvmePfs, j, k).st, b);
  }

  // And each base's count equals the number of its disks that have not run out, the base
  // being there exactly as long as one of them is left.
  lemma BasePartway(i: State, d: Directory, vblkPfs: seq<Pf>, nvmePfs: seq<Pf>, j: nat, k: nat, x: Name)
    requires Launch(i, d, vblkPfs, nvmePfs) && j <= |vblkPfs| && k <= |nvmePfs| && x in i.bases
    ensures var r := Partway(i, d, vblkPfs, nvmePfs, j, k);
      && r.Go? && Frame(i, r.st) && RightBase(i, r.st, x)
      && (x in r.st.world.src.bases <==> Unspent(i, r.st, x) != {} || OnBase(i, x) == {})
  {
    hide Launch, Upgrade, Ready, Hand, Traced, SrcDisks, Counts, Unspent, OnBase;
    LaunchPrefix(i, d, vblkPfs, nvmePfs, j, k);
    RunWorks(i, d, vblkPfs[..j], nvmePfs[..k]);
    var s := Partway(i, d, vblkPfs, nvmePfs, j, k).st;
    assert SrcBase(i, s, x) && DestBase(i, s, x);
  }

  // ----- Whenever an RPC is sent -----

  // The moments at which the RPCs of a whole run are sent.
  ghost function RunTrail(i: State, d: Directory, vblkPfs: seq<Pf>, nvmePfs: seq<Pf>): seq<Moment> {
    Upgrade(d, i, vblkPfs, nvmePfs).st.trail
  }

  lemma AlwaysRight(i: State, d: Directory, vblkPfs: seq<Pf>, nvmePfs: seq<Pf>, k: nat)
    requires Launch(i, d, vblkPfs, nvmePfs) && k < |RunLog(i, d, vblkPfs, nvmePfs)|
    ensures |RunTrail(i, d, vblkPfs, nvmePfs)| == |RunLog(i, d, vblkPfs, nvmePfs)|
    ensures var m := RunTrail(i, d, vblkPfs, nvmePfs)[k];
      m.world == At(i, RunLog(i, d, vblkPfs, nvmePfs), k) && Right(i, m)
  {
    hide Launch, Upgrade, Ready, DestBook, SrcBook, Hand, SafeRun, Feasible, Right, Replay;
    RunWorks(i, d, vblkPfs, nvmePfs);
  }

  // The books say that the disk has been made: for an NVMe disk, that its base has been
  // attached.
  ghost predicate MarkedMade(i: State, m: Moment, b: Name)
    requires b in i.bdevs
  {
    match i.bdevs[b].info.product
    case NvmeDisk(_) => exists x :: i.bdevs[b].base == Some(x) && x in m.bases && m.bases[x].created == 1
    case OtherDisk(_) => false
    case _ => b in m.bdevs && m.bdevs[b].created == 1
  }

  // Whenever an RPC of the run is sent, in the middle of any function and between any
  // two releases: each disk's count equals the references that the source still holds
  // plus its slack, so it is not negative unless the disk was counted too low; a disk
  // that has not run out is on the source; a disk marked created is on the destination,
  // and an NVMe disk is there exactly when its base has been attached.
  lemma DiskAtEveryRpc(i: State, d: Directory, vblkPfs: seq<Pf>, nvmePfs: seq<Pf>, k: nat, b: Name)
    requires Launch(i, d, vblkPfs, nvmePfs) && k < |RunLog(i, d, vblkPfs, nvmePfs)| && b in i.bdevs
    ensures |RunTrail(i, d, vblkPfs, nvmePfs)| == |RunLog(i, d, vblkPfs, nvmePfs)|
    ensures var m := RunTrail(i, d, vblkPfs, nvmePfs)[k]; var w := m.world;
      && w == At(i, RunLog(i, d, vblkPfs, nvmePfs), k) && b in m.bdevs
      && m.bdevs[b].used == |LiveRefs(w.src, b)| + Slack(i, b)
      && (Slack(i, b) >= 0 ==> m.bdevs[b].used >= 0)
      && (Movable(i, b) && (m.bdevs[b].used > 0 || i.bdevs[b].used < 1) ==> b in w.src.disks)
      && (Movable(i, b) && m.bdevs[b].created == 1 ==> b in w.dst.disks)
      && (b in w.dst.disks <==> MarkedMade(i, m, b))
  {
    hide Launch, Upgrade, LiveRefs, Slack, Replay, RightBase;
    AlwaysRight(i, d, vblkPfs, nvmePfs, k);
    assert RightDisk(i, Then(RunTrail(i, d, vblkPfs, nvmePfs)[k]), b);
  }

  // The disks of a base whose count had not run out at a moment.
  ghost function LeftOn(i: State, m: Moment, x: Name): set<Name> {
    set b | b in i.bdevs && b in m.bdevs && i.bdevs[b].base == Some(x)
            && !(i.bdevs[b].used >= 1 && m.bdevs[b].used <= 0)
  }

  // At those moments each base's count equals the number of its disks that have not run
  // out, the base is on the source as long as one is left, and on the destination exactly
  // when it is marked created.
  lemma BaseAtEveryRpc(i: State, d: Directory, vblkPfs: seq<Pf>, nvmePfs: seq<Pf>, k: nat, x: Name)
    requires Launch(i, d, vblkPfs, nvmePfs) && k < |RunLog(i, d, vblkPfs, nvmePfs)| && x in i.bases
    ensures |RunTrail(i, d, vblkPfs, nvmePfs)| == |RunLog(i, d, vblkPfs, nvmePfs)|
    ensures var m := RunTrail(i, d, vblkPfs, nvmePfs)[k]; var w := m.world;
      && w == At(i, RunLog(i, d, vblkPfs, nvmePfs), k) && x in m.bases
      && m.bases[x].used == |LeftOn(i, m, x)|
      && (LeftOn(i, m, x) != {} ==> x in w.src.bases)
      && (x in w.dst.bases <==> m.bases[x].created == 1)
  {
    hide Launch, Upgrade, Replay, RightDisk;
    AlwaysRight(i, d, vblkPfs, nvmePfs, k);
    var m := RunTrail(i, d, vblkPfs, nvmePfs)[k];
    assert RightBase(i, Then(m), x);
    assert LeftOn(i, m, x) == Unspent(i, Then(m), x);
  }
}
