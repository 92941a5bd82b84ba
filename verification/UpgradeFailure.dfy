/**
 What a refused RPC leaves behind. A run in which one process refuses its k-th RPC, for
 whatever reason, is the undisturbed run up to the moment that RPC is sent.
 */
module UpgradeFailure {
  import opened Common
  import opened UpgradeWorld
  import opened UpgradeSpec
  import opened UpgradePlan
  import opened UpgradeInvariant
  import opened UpgradeRun
  import opened UpgradeTheorems
  import opened UpgradeProgress

  // Nothing is refused from outside, and every accepted RPC has its moment.
  ghost predicate Whole(s: State) {
    s.failsAt == None && |s.trail| == |s.log|
  }

  ghost predicate Grows(s: State, t: State) {
    Whole(t) && s.log <= t.log && s.trail <= t.trail
  }

  ghost function Doomed(s: State, k: nat): State {
    s.(failsAt := Some(k))
  }

  // The run r, stopped when its k-th RPC is sent; r itself if it sends fewer.
  ghost function Cut(r: Run, k: nat): Run
    requires Whole(r.st)
  {
    var s := r.st;
    if |s.log| > k then
      var m := s.trail[k];
      Halt(State(m.bdevs, m.bases, m.subsysHist, m.world, s.log[..k], s.trail[..k], Some(k)))
    else if r.Go? then Go(Doomed(s, k))
    else Halt(Doomed(s, k))
  }

  // From s the run r is cut when a refusal lies ahead.
  ghost predicate Faithful(s: State, r: Run, doomed: Run, k: nat) {
    Grows(s, r.st) && (|s.log| <= k ==> doomed == Cut(r, k))
  }

  // What is sent after the cut does not matter.
  lemma CutEarlier(r: Run, q: Run, k: nat)
    requires Whole(r.st) && Grows(r.st, q.st) && |r.st.log| > k
    ensures Cut(q, k) == Cut(r, k)
  {
    assert q.st.log[..k] == r.st.log[..k] && q.st.trail[..k] == r.st.trail[..k];
  }

  // One part r of a run and then another: q is both parts.
  lemma Sequence(s: State, r: Run, r': Run, q: Run, q': Run, k: nat)
    requires Whole(s) && Faithful(s, r, r', k)
    requires r.Go? ==> Grows(r.st, q.st)
    requires r.Go? && |r.st.log| <= k && r' == Go(Doomed(r.st, k)) ==> q' == Cut(q, k)
    requires r.Halt? ==> q == r
    requires r'.Halt? ==> q' == r'
    ensures Faithful(s, q, q', k)
  {
    if r.Go? && |r.st.log| > k {
      CutEarlier(r, q, k);
    }
  }

  lemma SendFaithful(s: State, side: Side, r: Rpc, k: nat)
    requires Whole(s)
    ensures Faithful(s, Send(s, side, r), Send(Doomed(s, k), side, r), k)
  {
    hide Enabled, Step;
    var t := Send(s, side, r);
    if t.Go? && |s.log| == k {
      assert t.st.log[..k] == s.log && t.st.trail[..k] == s.trail;
    }
  }

  lemma CreateBdevFaithful(s: State, b: Name, k: nat)
    requires Whole(s)
    ensures Faithful(s, CreateBdev(s, b), CreateBdev(Doomed(s, k), b), k)
  {
    hide Send, SizeMib;
    if b in s.bdevs {
      var info := s.bdevs[b].info;
      match info.product
      case NvmeDisk(trid) =>
        if s.bdevs[b].base.Some? {
          SendFaithful(s, Dst, AttachBase(s.bdevs[b].base.value, trid), k);
        }
      case NullDisk => SendFaithful(s, Dst, CreateNull(info.name, SizeMib(info), info.blockSize, info.uuid), k);
      case MallocDisk => SendFaithful(s, Dst, CreateMalloc(info.name, SizeMib(info), info.blockSize, info.uuid), k);
      case OtherDisk(_) =>
    }
  }

  lemma DestroyBdevFaithful(s: State, b: Name, k: nat)
    requires Whole(s)
    ensures Faithful(s, DestroyBdev(s, b), DestroyBdev(Doomed(s, k), b), k)
  {
    hide Send;
    if b in s.bdevs {
      var t := s.(bdevs := s.bdevs[b := s.bdevs[b].(used := s.bdevs[b].used - 1)]);
      match t.bdevs[b].info.product
      case NvmeDisk(_) =>
        if t.bdevs[b].base.Some? && t.bdevs[b].base.value in t.bases {
          var x := t.bdevs[b].base.value;
          SendFaithful(t.(bases := t.bases[x := t.bases[x].(used := t.bases[x].used - 1)]), Src, DetachBase(x), k);
        }
      case NullDisk => SendFaithful(t, Src, DeleteNull(t.bdevs[b].info.name), k);
      case MallocDisk => SendFaithful(t, Src, DeleteMalloc(t.bdevs[b].info.name), k);
      case OtherDisk(_) =>
    }
  }

  lemma EnsureSubsysFaithful(d: Directory, s: State, nqn: string, k: nat)
    requires Whole(s)
    ensures Faithful(s, EnsureSubsys(d, s, nqn), EnsureSubsys(d, Doomed(s, k), nqn), k)
  {
    hide Send;
    if nqn in d.subsys {
      SendFaithful(s, Dst, CreateSubsystem(d.subsys[nqn]), k);
    }
  }

  lemma DoFaithful(d: Directory, s: State, a: Action, k: nat)
    requires Whole(s)
    ensures Faithful(s, Do(d, s, a), Do(d, Doomed(s, k), a), k)
  {
    hide Send, CreateBdev, DestroyBdev, EnsureSubsys, UuidTaken;
    match a
    case Order(side, rpc) => SendFaithful(s, side, rpc, k);
    case NeedDisk(b) => CreateBdevFaithful(s, b, k);
    case NeedSubsys(nqn) => EnsureSubsysFaithful(d, s, nqn, k);
    case NeedNs(nqn, ns) => SendFaithful(s, Dst, CreateNamespace(nqn, ns), k);
    case LoseDisk(b) => DestroyBdevFaithful(s, b, k);
    case Unknown =>
  }

  lemma {:induction false} PlanFaithful(d: Directory, s: State, plan: seq<Action>, k: nat)
    requires Whole(s)
    ensures Faithful(s, Perform(d, s, plan), Perform(d, Doomed(s, k), plan), k)
    decreases |plan|
  {
    hide Do;
    if plan != [] {
      var r, r' := Do(d, s, plan[0]), Do(d, Doomed(s, k), plan[0]);
      DoFaithful(d, s, plan[0], k);
      if r.Go? {
        PlanFaithful(d, r.st, plan[1..], k);
      }
      Sequence(s, r, r', Perform(d, s, plan), Perform(d, Doomed(s, k), plan), k);
    }
  }

  lemma RunFaithful(d: Directory, s: State, vblkPfs: seq<Pf>, nvmePfs: seq<Pf>, k: nat)
    requires Whole(s)
    ensures Faithful(s, Upgrade(d, s, vblkPfs, nvmePfs), Upgrade(d, Doomed(s, k), vblkPfs, nvmePfs), k)
  {
    hide Upgrade, Perform, RunPlan;
    RunIsPlan(d, s, vblkPfs, nvmePfs);
    RunIsPlan(d, Doomed(s, k), vblkPfs, nvmePfs);
    PlanFaithful(d, s, RunPlan(d, vblkPfs, nvmePfs), k);
  }

  // A run whose k-th RPC is refused stops in exactly the state in which the undisturbed
  // run sends that RPC: the processes are safe and the books are right. A refusal that
  // would come later changes nothing.
  lemma RefusedRun(i: State, d: Directory, vblkPfs: seq<Pf>, nvmePfs: seq<Pf>, k: nat)
    requires Launch(i, d, vblkPfs, nvmePfs)
    ensures |RunTrail(i, d, vblkPfs, nvmePfs)| == |RunLog(i, d, vblkPfs, nvmePfs)|
    ensures var log := RunLog(i, d, vblkPfs, nvmePfs);
      var r := Upgrade(d, i.(failsAt := Some(k)), vblkPfs, nvmePfs);
      && (r.Go? <==> k >= |log|)
      && (r.Go? ==> r.st == Upgrade(d, i, vblkPfs, nvmePfs).st.(failsAt := Some(k)))
      && (r.Halt? ==>
            && r.st.log == log[..k] && r.st.world == At(i, log, k)
            && Now(r.st) == RunTrail(i, d, vblkPfs, nvmePfs)[k]
            && Safe(i, d, r.st.world, Last(r.st.log)) && Right(i, Now(r.st)))
  {
    hide Launch, Ready, Upgrade, Replay, Safe, Right, Enabled;
    NeverStuck(i, d, vblkPfs, nvmePfs);
    assert i.log == [] && i.trail == [] && i.failsAt == None by { LaunchLog(i, d, vblkPfs, nvmePfs); }
    RunFaithful(d, i, vblkPfs, nvmePfs, k);
    if k < |RunLog(i, d, vblkPfs, nvmePfs)| {
      AlwaysRight(i, d, vblkPfs, nvmePfs, k);
    }
  }

  lemma LaunchLog(i: State, d: Directory, vblkPfs: seq<Pf>, nvmePfs: seq<Pf>)
    requires Launch(i, d, vblkPfs, nvmePfs)
    ensures i.log == [] && i.trail == [] && i.failsAt == None
  {
    hide ReadyDisks, ReadyCtrls, TreeOk;
  }
}
