/**
 Why each listed namespace must be attached exactly once: the start-up loop counts
 listed namespaces, the release loop decrements once per attachment.
 */
module UpgradeExample {
  import opened Common
  import opened UpgradeWorld
  import opened UpgradeSpec
  import opened UpgradeInvariant
  import opened UpgradeRun
  import opened UpgradeSnapshot
  import opened UpgradeTheorems

  const DISK := Bdev("null0", NullDisk, 512, 131072, "disk-uuid")
  const SHARED := Ns(1, "null0", "ns-uuid")
  const FIRST := NvmeCtrl(NvmeConfig("ctrl-a", 0, "nqn", 7, 8), [SHARED])
  const SECOND := NvmeCtrl(NvmeConfig("ctrl-b", 1, "nqn", 7, 8), [SHARED])

  // Two controllers on two physical functions, with one namespace attached to both.
  function Shared(): Snapshot {
    Snapshot([DISK], [], [], [FIRST, SECOND], [Subsys("nqn", "mn", "sn", 0, 1)], [NsInfo("nqn", SHARED)], [],
             [Pf(Func(Some("ctrl-a"), None), []), Pf(Func(Some("ctrl-b"), None), [])])
  }

  function SharedWorld(): World {
    World(
      Setting(map[], map[], map[]),
      Proc(map["null0" := DISK], map[], map["nqn" := Subsys("nqn", "mn", "sn", 0, 1)],
           map[NsKey("nqn", 1) := SHARED], map[],
           map["ctrl-a" := NvmeDev(FIRST.cfg, map[1 := SHARED], Serving),
               "ctrl-b" := NvmeDev(SECOND.cfg, map[1 := SHARED], Serving)]),
      Proc(map[], map[], map[], map[], map[], map[]))
  }

  lemma SharedDicts()
    ensures NvmeDict(Shared().nvme) == map["ctrl-a" := FIRST, "ctrl-b" := SECOND]
    ensures VblkDict(Shared().vblk) == map[]
    ensures DiskMap(Shared().bdevs) == map["null0" := DISK]
    ensures NsTable(Shared().namespaces) == map[NsKey("nqn", 1) := SHARED]
    ensures NsMap([SHARED]) == map[1 := SHARED]
  {
    var l := Shared().nvme;
    assert l[..1] == [FIRST] && l[..1][..0] == [];
    assert NvmeDict([]) == map[];
    assert NvmeDict([FIRST]) == map["ctrl-a" := FIRST];
    assert NvmeDict(l) == map["ctrl-a" := FIRST]["ctrl-b" := SECOND];
    assert Shared().bdevs[..0] == [];
    assert Shared().namespaces[..0] == [];
    assert [SHARED][..0] == [];
  }

  lemma SharedIsWellFormed()
    ensures WellFormed(Shared())
  {
    var v := Shared();
    assert DISK in v.bdevs && Known(v, "null0");
    assert v.subsystems[0] in v.subsystems;
    assert v.namespaces[0] in v.namespaces;
    assert NvmeWell(v, FIRST) && NvmeWell(v, SECOND);
  }

  lemma SharedIsPristine()
    ensures Pristine(Shared(), SharedWorld())
  {
    hide NvmeDict, VblkDict, DiskMap, NsTable, NsMap;
    SharedDicts();
    var v, w := Shared(), SharedWorld();
    assert Reports(w.src, v) && Exports(w.setting, v);
  }

  lemma SharedIsRooted()
    ensures Rooted(Shared(), SharedWorld().setting)
    ensures Complete(Tables(Shared()), Shared().vblkPfs, Shared().nvmePfs)
  {
    hide NvmeDict, VblkDict;
    SharedDicts();
    var pfs := Shared().nvmePfs;
    assert PfIds(pfs[0]) == ["ctrl-a"] && PfIds(pfs[1]) == ["ctrl-b"];
    assert pfs[1..] == [pfs[1]] && pfs[1..][1..] == [];
    assert TreeIds(pfs[1..]) == ["ctrl-b"];
    assert TreeIds(pfs) == ["ctrl-a", "ctrl-b"];
    assert TreeIds([]) == [];
    assert Elems(["ctrl-a", "ctrl-b"]) == {"ctrl-a", "ctrl-b"};
  }

  lemma SharedSlack()
    ensures var i := Initial(Shared(), SharedWorld());
      "null0" in i.bdevs && Sized(i, "null0") && i.bdevs["null0"].used == 1 && Slack(i, "null0") == -1
  {
    hide WellFormed, Pristine, NvmeDict, VblkDict, DiskMap, NsTable, NsMap;
    var v, w := Shared(), SharedWorld();
    SharedIsWellFormed();
    SharedIsPristine();
    SharedDicts();
    assert v.bdevs[..0] == [] && v.namespaces[..0] == [];
    assert BdevTable(v.bdevs, v.bases) == map["null0" := Entry(DISK, None, 0, 0)];
    assert NsUses(v.namespaces, "null0") == 1;
    assert VblkOn(map[], "null0") == {};
    assert Initial(v, w).bdevs["null0"].used == 1;
    SlackIs(v, w, "null0");
    var a, b := OfNs("ctrl-a", 1), OfNs("ctrl-b", 1);
    assert NsRefs(w.src, "null0") == {a, b};
    assert |{a, b}| == 2;
  }

  // On this snapshot the disk is deleted while a controller still uses it.
  lemma SharedDiskGoesEarly()
    ensures var v, w := Shared(), SharedWorld(); var i, d := Initial(v, w), Tables(v);
      && WellFormed(v) && Pristine(v, w) && Launch(i, d, v.vblkPfs, v.nvmePfs)
      && var log := RunLog(i, d, v.vblkPfs, v.nvmePfs);
         exists k :: 0 <= k < |log| && Deletes(log[k], "null0") && LiveRefs(At(i, log, k + 1).src, "null0") != {}
  {
    hide WellFormed, Pristine, Rooted, Complete, Launch, Shared, SharedWorld, RunLog, At, Deletes, LiveRefs, Slack,
         Initial, Tables, Sized;
    var v, w := Shared(), SharedWorld();
    SharedIsWellFormed();
    SharedIsPristine();
    SharedIsRooted();
    SharedSlack();
    LaunchOf(v, w);
    var i, d := Initial(v, w), Tables(v);
    DeletedExactly(i, d, v.vblkPfs, v.nvmePfs, "null0");
    var log := RunLog(i, d, v.vblkPfs, v.nvmePfs);
    var k :| 0 <= k < |log| && Deletes(log[k], "null0");
    assert |LiveRefs(At(i, log, k + 1).src, "null0")| == 1;
    assert LiveRefs(At(i, log, k + 1).src, "null0") != {};
  }

  // A size that doubles cannot hold: 2^53 + 2^20 - 1 blocks of one byte are rounded up to
  // whole MiB, and the rebuilt disk has one block more.
  lemma LongDiskGrows()
    ensures var long := Bdev("null1", NullDisk, 1, 0x20_0000_000F_FFFF, "uuid");
      Rebuilt(long).numBlocks == long.numBlocks + 1
  {
    var n: nat := 0x20_0000_000F_FFFF;
    assert Spacing(n / 2) == 1 && Spacing(n) == 2;
    assert n / 2 == 0x10_0000_0007_FFFF && n % 2 == 1;
    assert Rounded(n) == 0x20_0000_0010_0000;
  }
}
