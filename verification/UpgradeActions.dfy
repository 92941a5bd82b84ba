/**
 What asking for a disk or a subsystem and letting go of a disk do, from any state, well
 formed or not: the RPC that is sent, when the run ends, and every entry of the books.
 */
module UpgradeActions {
  import opened Common
  import opened UpgradeWorld
  import opened UpgradeSpec

  // The process would accept the RPC now, and nothing outside refuses it.
  predicate Granted(s: State, side: Side, r: Rpc) {
    s.failsAt != Some(|s.log|) && Enabled(s.world, Msg(side, r))
  }

  // t is s with this RPC carried out and recorded, if there is one; the books may differ.
  predicate Carried(s: State, t: State, m: Option<Msg>) {
    && t.failsAt == s.failsAt
    && match m
       case None => t.world == s.world && t.log == s.log && t.trail == s.trail
       case Some(m) =>
         && Enabled(s.world, m) && t.world == Step(s.world, m)
         && t.log == s.log + [m] && |t.trail| == |s.trail| + 1 && t.trail[..|s.trail|] == s.trail
  }

  // The base of an NVMe disk, if the books know it.
  predicate BaseKnown(s: State, b: Name) {
    b in s.bdevs && s.bdevs[b].base.Some? && s.bdevs[b].base.value in s.bases
  }

  // The RPC that a disk still needs on the destination. An NVMe disk needs its base, once;
  // a disk of an unknown kind needs nothing.
  function Needed(s: State, b: Name): Option<Rpc> {
    if b !in s.bdevs || s.bdevs[b].created == 1 then None
    else
      var e := s.bdevs[b];
      match e.info.product
      case NvmeDisk(trid) =>
        if BaseKnown(s, b) && s.bases[e.base.value].created != 1 then Some(AttachBase(e.base.value, trid)) else None
      case NullDisk =>
        Some(CreateNull(e.info.name, Rounded(e.info.blockSize * e.info.numBlocks) / 0x10_0000, e.info.blockSize,
                        e.info.uuid))
      case MallocDisk =>
        Some(CreateMalloc(e.info.name, Rounded(e.info.blockSize * e.info.numBlocks) / 0x10_0000, e.info.blockSize,
                          e.info.uuid))
      case OtherDisk(_) => None
  }

  // Asking for a disk ends the run, and changes nothing, when the disk or the base it has
  // to sit on is unknown or the RPC it needs is not granted. Otherwise that RPC, if any,
  // is the only one sent, the disk and the base that it attached are marked, and nothing
  // else in the books changes.
  lemma DiskAsked(s: State, b: Name)
    ensures var r, m := CreateBdev(s, b), Needed(s, b);
      && (r.Halt? <==>
            || b !in s.bdevs
            || (s.bdevs[b].created != 1 && s.bdevs[b].info.product.NvmeDisk? && !BaseKnown(s, b))
            || (m.Some? && !Granted(s, Dst, m.value)))
      && (r.Halt? ==> r.st == s)
      && (r.Go? ==>
            && Carried(s, r.st, if m.Some? then Some(Msg(Dst, m.value)) else None)
            && b in s.bdevs && r.st.bdevs == s.bdevs[b := s.bdevs[b].(created := 1)]
            && r.st.subsysHist == s.subsysHist
            && r.st.bases == match m
                             case Some(AttachBase(x, _)) =>
                               if x in s.bases then s.bases[x := s.bases[x].(created := 1)] else s.bases
                             case _ => s.bases)
  {
    hide Enabled, Step, Rounded;
    assert b in s.bdevs && s.bdevs[b].created == 1 ==> s.bdevs[b := s.bdevs[b].(created := 1)] == s.bdevs;
  }

  // The RPC that removes a disk, or the base under its last disk, when the count of the
  // disk runs out with this release.
  function Due(s: State, b: Name): Option<Rpc> {
    if b !in s.bdevs || s.bdevs[b].used != 1 then None
    else
      match s.bdevs[b].info.product
      case NvmeDisk(_) =>
        if BaseKnown(s, b) && s.bases[s.bdevs[b].base.value].used == 1 then Some(DetachBase(s.bdevs[b].base.value))
        else None
      case NullDisk => Some(DeleteNull(s.bdevs[b].info.name))
      case MallocDisk => Some(DeleteMalloc(s.bdevs[b].info.name))
      case OtherDisk(_) => None
  }

  // The books after a release: one use of the disk less, and, when that was the last and
  // the disk sits on a known base, one disk of that base less.
  predicate Released(s: State, t: State, b: Name)
    requires b in s.bdevs
  {
    && t.bdevs == s.bdevs[b := s.bdevs[b].(used := s.bdevs[b].used - 1)]
    && t.subsysHist == s.subsysHist
    && t.bases == if s.bdevs[b].used == 1 && s.bdevs[b].info.product.NvmeDisk? && BaseKnown(s, b)
                  then var x := s.bdevs[b].base.value; s.bases[x := s.bases[x].(used := s.bases[x].used - 1)]
                  else s.bases
  }

  // Letting go of a disk always takes one from its count. It ends the run when the disk is
  // unknown, when its count has run out and its base is unknown, or when the RPC that is
  // due is not granted; that RPC, if any, is the only one sent.
  lemma DiskLost(s: State, b: Name)
    ensures var r, m := DestroyBdev(s, b), Due(s, b);
      && (b !in s.bdevs ==> r == Halt(s))
      && (b in s.bdevs ==>
            && Released(s, r.st, b)
            && (r.Halt? <==>
                  || (s.bdevs[b].used == 1 && s.bdevs[b].info.product.NvmeDisk? && !BaseKnown(s, b))
                  || (m.Some? && !Granted(s, Src, m.value)))
            && Carried(s, r.st, if r.Go? && m.Some? then Some(Msg(Src, m.value)) else None))
  {
    hide Enabled, Step;
  }

  // Asking for a subsystem: it is created when it was not asked for before and is not on
  // the destination, and from then on counts as asked for.
  lemma SubsysAsked(d: Directory, s: State, nqn: string)
    ensures var r := EnsureSubsys(d, s, nqn);
      var first := nqn in s.subsysHist && s.subsysHist[nqn] == 0;
      var create := first && nqn in d.subsys && d.subsys[nqn].nqn !in s.world.dst.subsystems;
      && (r.Halt? <==>
            || nqn !in s.subsysHist
            || (first && nqn !in d.subsys)
            || (create && !Granted(s, Dst, CreateSubsystem(d.subsys[nqn]))))
      && (r.Halt? ==> r.st == s)
      && (r.Go? ==>
            && Carried(s, r.st, if create then Some(Msg(Dst, CreateSubsystem(d.subsys[nqn]))) else None)
            && r.st.bdevs == s.bdevs && r.st.bases == s.bases
            && r.st.subsysHist == if first then s.subsysHist[nqn := 1] else s.subsysHist)
  {
    hide Enabled, Step;
  }
}
