/**
 The SR-IOV rebind script: an ordered list of sysfs writes to a physical function, each
 answered by a kernel that may refuse it.
 */
module SriovRebind {
  import opened Common

  const TARGET_DRIVER := "pci-pf-stub"

  // What sysfs shows of a physical function: its driver, its virtual functions' links
  // with the driver each is bound to, and the attributes the script writes.
  datatype Pf = Pf(driver: Option<string>, driverOverride: string, autoprobe: string, numVfs: nat,
                   links: seq<Option<string>>, unbindWritable: bool)

  datatype Write =
    | NumVfs(count: nat)
    | DriverOverride(name: string)
    | Unbind
    | Bind
    | Autoprobe(value: string)

  datatype Outcome = Done | Died(reason: string)

  // The kernel's answer to the n-th write: accepted or not, and the state it leaves.
  type Kernel = (nat, Pf, Write) -> (bool, Pf)

  // What an accepted write does at least. The number of VFs obtained, the VFs' drivers
  // and the driver after a bind are up to the kernel.
  predicate Obeys(s: Pf, w: Write, t: Pf) {
    match w
    case NumVfs(count) =>
      t == s.(numVfs := t.numVfs, links := t.links) && (count == 0 ==> t.numVfs == 0 && t.links == [])
    case DriverOverride(name) => t == s.(driverOverride := name)
    case Unbind => t == s.(driver := None, unbindWritable := t.unbindWritable)
    case Bind => t == s.(driver := t.driver, unbindWritable := t.unbindWritable)
    case Autoprobe(value) => t == s.(autoprobe := value)
  }

  ghost predicate Lawful(kernel: Kernel) {
    forall n, s, w :: kernel(n, s, w).0 ==> Obeys(s, w, kernel(n, s, w).1)
  }

  predicate AllUnbound(links: seq<Option<string>>) {
    forall k | 0 <= k < |links| :: links[k].None?
  }

  // ----- What may be written when -----

  predicate SafeWrite(s: Pf, w: Write) {
    match w
    case NumVfs(count) =>
      count != 0 ==> s.numVfs == 0 && s.autoprobe == "0" && s.driver == Some(TARGET_DRIVER)
    case Unbind => s.numVfs == 0 && s.driverOverride == TARGET_DRIVER && s.driver.Some?
    case Bind => s.numVfs == 0 && s.driverOverride == TARGET_DRIVER && s.driver.None?
    case DriverOverride(name) => name == TARGET_DRIVER ==> s.numVfs == 0
    case Autoprobe(value) => value == "0" && s.driver == Some(TARGET_DRIVER)
  }

  predicate SafeLog(log: seq<(Pf, Write)>) {
    forall k | 0 <= k < |log| :: SafeWrite(log[k].0, log[k].1)
  }

  function Writes(log: seq<(Pf, Write)>): (ws: seq<Write>)
    ensures |ws| == |log| && forall k | 0 <= k < |log| :: ws[k] == log[k].1
  {
    seq(|log|, k requires 0 <= k < |log| => log[k].1)
  }

  // ----- What is written -----

  function Rebinding(s: Pf): seq<Write> {
    if s.driver == Some(TARGET_DRIVER) then []
    else
      (if s.numVfs != 0 then [NumVfs(0)] else []) + [DriverOverride(TARGET_DRIVER)]
      + (if s.driver.Some? then [Unbind] else []) + [Bind, DriverOverride("")]
  }

  function Resizing(current: nat, wanted: nat): seq<Write> {
    if current == wanted then []
    else (if current != 0 then [NumVfs(0)] else []) + (if wanted != 0 then [NumVfs(wanted)] else [])
  }

  // All writes of a run that nothing stops.
  function Plan(s: Pf, wanted: nat): seq<Write> {
    Rebinding(s) + [Autoprobe("0")]
    + Resizing(if s.driver == Some(TARGET_DRIVER) then s.numVfs else 0, wanted)
  }

  // Every write of a run, case by case: on a PF that has the driver already, on one with
  // another driver, and on one without a driver.
  lemma PlanIs(s: Pf, wanted: nat)
    ensures s.driver == Some("pci-pf-stub") ==>
      Plan(s, wanted) == [Autoprobe("0")] +
        if s.numVfs == wanted then []
        else if s.numVfs == 0 then [NumVfs(wanted)]
        else if wanted == 0 then [NumVfs(0)]
        else [NumVfs(0), NumVfs(wanted)]
    ensures s.driver.Some? && s.driver != Some("pci-pf-stub") ==>
      Plan(s, wanted) == (if s.numVfs == 0 then [] else [NumVfs(0)])
        + [DriverOverride("pci-pf-stub"), Unbind, Bind, DriverOverride(""), Autoprobe("0")]
        + (if wanted == 0 then [] else [NumVfs(wanted)])
    ensures s.driver.None? ==>
      Plan(s, wanted) == (if s.numVfs == 0 then [] else [NumVfs(0)])
        + [DriverOverride("pci-pf-stub"), Bind, DriverOverride(""), Autoprobe("0")]
        + (if wanted == 0 then [] else [NumVfs(wanted)])
  {
  }

  // A run on a PF that is already as requested writes no driver attribute and no count.
  lemma PlanWhenDone(s: Pf, wanted: nat)
    ensures Plan(s, wanted) == [Autoprobe("0")] <==> s.driver == Some(TARGET_DRIVER) && s.numVfs == wanted
  {
  }

  // ----- A kernel that does exactly what it is asked -----

  function Apply(s: Pf, w: Write): Pf {
    match w
    case NumVfs(count) =>
      s.(numVfs := count, links := seq(count, _ => if s.autoprobe == "0" then None else Some("host")))
    case DriverOverride(name) => s.(driverOverride := name)
    case Unbind => s.(driver := None)
    case Bind => s.(driver := if s.driverOverride == TARGET_DRIVER then Some(TARGET_DRIVER) else s.driver)
    case Autoprobe(value) => s.(autoprobe := value)
  }

  ghost predicate Obedient(kernel: Kernel) {
    forall n, s, w :: kernel(n, s, w) == (true, Apply(s, w))
  }

  lemma ObedientIsLawful(kernel: Kernel)
    requires Obedient(kernel)
    ensures Lawful(kernel)
  {
    forall n, s, w ensures Obeys(s, w, kernel(n, s, w).1) {
      assert kernel(n, s, w) == (true, Apply(s, w));
    }
  }

  // The state after carrying out the writes.
  function After(s: Pf, ws: seq<Write>): Pf
    decreases |ws|
  {
    if ws == [] then s else After(Apply(s, ws[0]), ws[1..])
  }

  predicate SafeAlong(s: Pf, ws: seq<Write>)
    decreases |ws|
  {
    ws != [] ==> SafeWrite(s, ws[0]) && SafeAlong(Apply(s, ws[0]), ws[1..])
  }

  lemma {:induction false} AfterConcat(s: Pf, a: seq<Write>, b: seq<Write>)
    ensures After(s, a + b) == After(After(s, a), b)
    ensures SafeAlong(s, a + b) <==> SafeAlong(s, a) && SafeAlong(After(s, a), b)
    decreases |a|
  {
    hide Apply, SafeWrite;
    if a == [] {
      assert a + b == b;
    } else {
      assert (a + b)[1..] == a[1..] + b;
      AfterConcat(Apply(s, a[0]), a[1..], b);
    }
  }

  lemma OneWrite(s: Pf, w: Write)
    ensures After(s, [w]) == Apply(s, w) && (SafeAlong(s, [w]) <==> SafeWrite(s, w))
  {
    hide Apply, SafeWrite;
    assert [w][1..] == [];
  }

  // A step of a plan that is taken only under a condition.
  lemma Optional(s: Pf, c: bool, w: Write, rest: seq<Write>)
    ensures var t := if c then Apply(s, w) else s; var ws := (if c then [w] else []) + rest;
      After(s, ws) == After(t, rest) && (SafeAlong(s, ws) <==> (c ==> SafeWrite(s, w)) && SafeAlong(t, rest))
  {
    hide Apply, SafeWrite;
    if c {
      AfterConcat(s, [w], rest);
      OneWrite(s, w);
    } else {
      assert [] + rest == rest;
    }
  }

  lemma RebindingReaches(s: Pf)
    requires s.driver != Some(TARGET_DRIVER)
    ensures SafeAlong(s, Rebinding(s))
    ensures After(s, Rebinding(s)) == s.(driver := Some(TARGET_DRIVER), driverOverride := "", numVfs := 0,
      links := if s.numVfs != 0 then [] else s.links)
  {
    hide After, SafeAlong;
    var last := [DriverOverride("")];
    var bind := [Bind] + last;
    var unbind := (if s.driver.Some? then [Unbind] else []) + bind;
    var override := [DriverOverride(TARGET_DRIVER)] + unbind;
    assert Rebinding(s) == (if s.numVfs != 0 then [NumVfs(0)] else []) + override;
    Optional(s, s.numVfs != 0, NumVfs(0), override);
    var s1 := if s.numVfs != 0 then Apply(s, NumVfs(0)) else s;
    Optional(s1, true, DriverOverride(TARGET_DRIVER), unbind);
    var s2 := Apply(s1, DriverOverride(TARGET_DRIVER));
    Optional(s2, s2.driver.Some?, Unbind, bind);
    var s3 := if s2.driver.Some? then Apply(s2, Unbind) else s2;
    Optional(s3, true, Bind, last);
    OneWrite(Apply(s3, Bind), DriverOverride(""));
  }

  lemma ResizingReaches(s: Pf, wanted: nat)
    requires s.driver == Some(TARGET_DRIVER) && s.autoprobe == "0"
    ensures SafeAlong(s, Resizing(s.numVfs, wanted))
    ensures var t := After(s, Resizing(s.numVfs, wanted));
      && t == s.(numVfs := wanted, links := t.links)
      && if s.numVfs == wanted then t.links == s.links else |t.links| == wanted && AllUnbound(t.links)
  {
    hide After, SafeAlong;
    if s.numVfs == wanted {
      Nothing(s);
    } else {
      var enable := if wanted != 0 then [NumVfs(wanted)] else [];
      Optional(s, s.numVfs != 0, NumVfs(0), enable);
      var t := if s.numVfs != 0 then Apply(s, NumVfs(0)) else s;
      assert enable + [] == enable;
      Optional(t, wanted != 0, NumVfs(wanted), []);
      Nothing(if wanted != 0 then Apply(t, NumVfs(wanted)) else t);
    }
  }

  lemma Nothing(s: Pf)
    ensures After(s, []) == s && SafeAlong(s, [])
  {
  }

  // The plan is safe at every write and ends as requested; the VFs are unbound if the
  // plan enabled them, and the ones that were there if it kept them.
  lemma PlanReaches(s: Pf, wanted: nat)
    ensures SafeAlong(s, Plan(s, wanted))
    ensures var t := After(s, Plan(s, wanted));
      && t.driver == Some(TARGET_DRIVER) && t.numVfs == wanted && t.autoprobe == "0"
      && ((|t.links| == wanted && AllUnbound(t.links))
          || (t.links == s.links && s.numVfs == wanted))
  {
    hide After, SafeAlong, Rebinding, Resizing;
    var r := if s.driver == Some(TARGET_DRIVER) then s else After(s, Rebinding(s));
    if s.driver == Some(TARGET_DRIVER) {
      assert Rebinding(s) == [] by { AlreadyBound(s); }
      Nothing(s);
    } else {
      RebindingReaches(s);
    }
    var resizing := Resizing(r.numVfs, wanted);
    assert Plan(s, wanted) == Rebinding(s) + ([Autoprobe("0")] + resizing);
    AfterConcat(s, Rebinding(s), [Autoprobe("0")] + resizing);
    Optional(r, true, Autoprobe("0"), resizing);
    ResizingReaches(Apply(r, Autoprobe("0")), wanted);
  }

  lemma AlreadyBound(s: Pf)
    requires s.driver == Some(TARGET_DRIVER)
    ensures Rebinding(s) == []
  {
  }

  // With such a kernel the script succeeds exactly on these PFs: VFs that are kept
  // because the count is already right must not be bound.
  predicate Succeeds(s: Pf, total: nat, wanted: nat) {
    && 0 < total && wanted <= total
    && (s.driver.Some? && s.driver != Some(TARGET_DRIVER) ==> s.unbindWritable)
    && (s.driver == Some(TARGET_DRIVER) && s.numVfs == wanted ==> AllUnbound(s.links))
  }

  // ----- The script -----

  class Script {
    const kernel: Kernel
    const total: nat
    var pf: Pf
    var log: seq<(Pf, Write)>

    constructor (kernel: Kernel, total: nat, pf: Pf)
      ensures this.kernel == kernel && this.total == total && this.pf == pf && log == []
    {
      this.kernel, this.total, this.pf, log := kernel, total, pf, [];
    }

    method WriteSysfs(w: Write) returns (ok: bool)
      modifies this
      ensures log == old(log) + [(old(pf), w)]
      ensures (ok, pf) == kernel(|old(log)|, old(pf), w)
    {
      var answer := kernel(|log|, pf, w);
      log := log + [(pf, w)];
      pf := answer.1;
      ok := answer.0;
    }

    // A write that keeps the log safe and within the plan.
    method Step(w: Write, ghost plan: seq<Write>) returns (ok: bool)
      requires Lawful(kernel) && SafeLog(log) && SafeWrite(pf, w)
      requires Writes(log) + [w] <= plan
      modifies this
      ensures SafeLog(log) && Writes(log) == old(Writes(log)) + [w] <= plan && log != []
      ensures ok ==> Obeys(old(pf), w, pf)
      ensures Obedient(kernel) ==> ok && pf == Apply(old(pf), w)
    {
      ok := WriteSysfs(w);
      assert Writes(log) == old(Writes(log)) + [w];
    }

    // Replace the PF's driver, with its VFs disabled first.
    method Rebind(ghost plan: seq<Write>) returns (outcome: Outcome)
      requires Lawful(kernel) && log == [] && pf.driver != Some(TARGET_DRIVER)
      requires Rebinding(pf) <= plan
      modifies this
      ensures SafeLog(log) && Writes(log) <= plan
      ensures log != []
      ensures outcome.Done? ==>
        && Writes(log) == old(Rebinding(pf))
        && pf.driver == Some(TARGET_DRIVER) && pf.numVfs == 0 && pf.driverOverride == ""
        && pf.links == (if old(pf).numVfs != 0 then [] else old(pf).links)
      ensures Obedient(kernel) ==> (outcome.Done? <==> (old(pf).driver.Some? ==> old(pf).unbindWritable))
    {
      hide SafeLog, Lawful, Obedient, Plan;
      if pf.numVfs != 0 {
        var ok := Step(NumVfs(0), plan);
        if !ok {
          return Died("sriov_numvfs");
        }
      }
      var ok := Step(DriverOverride(TARGET_DRIVER), plan);
      if !ok {
        return Died("driver_override");
      }
      if pf.driver.Some? {
        if !pf.unbindWritable {
          return Died("unbind is not writable");
        }
        ok := Step(Unbind, plan);
        if !ok {
          return Died("unbind");
        }
      }
      ok := Step(Bind, plan);
      if !ok {
        return Died("bind");
      }
      if pf.driver != Some(TARGET_DRIVER) {
        return Died("failed to bind");
      }
      ok := Step(DriverOverride(""), plan);
      if !ok {
        return Died("driver_override");
      }
      return Done;
    }

    // Disable what is enabled, then enable the requested number.
    method Resize(current: nat, wanted: nat, ghost plan: seq<Write>) returns (outcome: Outcome)
      requires Lawful(kernel) && SafeLog(log) && pf.numVfs == current
      requires pf.driver == Some(TARGET_DRIVER) && pf.autoprobe == "0"
      requires Writes(log) + Resizing(current, wanted) <= plan
      modifies this
      ensures SafeLog(log) && Writes(log) <= plan && |log| >= |old(log)|
      ensures outcome.Done? ==>
        && Writes(log) == old(Writes(log)) + Resizing(current, wanted)
        && pf == old(pf).(numVfs := pf.numVfs, links := pf.links)
        && (current == wanted ==> pf == old(pf))
      ensures Obedient(kernel) ==> outcome.Done?
      ensures Obedient(kernel) && current != wanted ==>
        pf.numVfs == wanted && |pf.links| == wanted && AllUnbound(pf.links)
    {
      hide SafeLog, Lawful, Obedient, Plan;
      if current != wanted {
        if current != 0 {
          var ok := Step(NumVfs(0), plan);
          if !ok {
            return Died("sriov_numvfs");
          }
        }
        if wanted != 0 {
          var ok := Step(NumVfs(wanted), plan);
          if !ok {
            return Died("sriov_numvfs");
          }
        }
      }
      return Done;
    }

    // The final reads: nothing is written any more.
    method Check(wanted: nat) returns (outcome: Outcome)
      ensures outcome.Done? <==>
        pf.numVfs == wanted && pf.autoprobe == "0" && |pf.links| == wanted && AllUnbound(pf.links)
    {
      if pf.numVfs != wanted {
        return Died("sriov_numvfs readback");
      }
      if pf.autoprobe != "0" {
        return Died("sriov_drivers_autoprobe readback");
      }
      if |pf.links| != wanted {
        return Died("virtfn links");
      }
      for k := 0 to |pf.links|
        invariant AllUnbound(pf.links[..k])
      {
        if pf.links[k].Some? {
          return Died("VF is bound");
        }
      }
      return Done;
    }

    // The whole script, from the checks of the request on.
    method Configure(wanted: nat) returns (outcome: Outcome)
      requires Lawful(kernel) && log == []
      modifies this
      ensures SafeLog(log) && Writes(log) <= Plan(old(pf), wanted)
      ensures total == 0 || wanted > total <==> log == []
      ensures outcome.Done? ==>
        && Writes(log) == Plan(old(pf), wanted)
        && pf.driver == Some(TARGET_DRIVER) && pf.autoprobe == "0"
        && pf.numVfs == wanted && |pf.links| == wanted && AllUnbound(pf.links)
        && pf.driverOverride == (if old(pf).driver == Some(TARGET_DRIVER) then old(pf).driverOverride else "")
      ensures Obedient(kernel) && |old(pf).links| == old(pf).numVfs ==>
        (outcome.Done? <==> Succeeds(old(pf), total, wanted))
    {
      hide Lawful, Obedient;
      ghost var plan := Plan(pf, wanted);
      if total == 0 {
        return Died("no VFs supported");
      }
      if wanted > total {
        return Died("too many VFs requested");
      }
      var current := pf.numVfs;
      if pf.driver != Some(TARGET_DRIVER) {
        outcome := Rebind(plan);
        if outcome.Died? {
          return;
        }
        current := 0;
      }
      var ok := Step(Autoprobe("0"), plan);
      if !ok {
        return Died("sriov_drivers_autoprobe");
      }
      outcome := Resize(current, wanted, plan);
      if outcome.Died? {
        return;
      }
      outcome := Check(wanted);
    }
  }

  // Running the script again after it succeeded makes one write, which sets what is set
  // already, whatever the kernel answers; with an obedient kernel it succeeds as well.
  method ConfigureTwice(kernel: Kernel, later: Kernel, total: nat, pf: Pf, wanted: nat)
      returns (first: Outcome, after: Pf, second: Outcome, final: Pf, writes: seq<Write>)
    requires Lawful(kernel) && Lawful(later)
    ensures first.Done? ==> writes == [Autoprobe("0")] && after.autoprobe == "0"
    ensures first.Done? && Obedient(later) ==> second.Done?
    ensures second.Done? ==> first.Done? && final == after.(unbindWritable := final.unbindWritable)
  {
    var script := new Script(kernel, total, pf);
    first := script.Configure(wanted);
    after := script.pf;
    second, final, writes := first, after, [];
    if first.Done? {
      var again := new Script(later, total, script.pf);
      second := again.Configure(wanted);
      final, writes := again.pf, Writes(again.log);
      PlanWhenDone(after, wanted);
      assert |writes| == 1;
      if second.Done? {
        assert final.links == after.links;
      }
    }
  }

  // With a kernel that does what it is asked the script succeeds exactly when the request
  // is possible and the VFs it would keep are unbound.
  method ConfigureObedient(kernel: Kernel, total: nat, pf: Pf, wanted: nat) returns (outcome: Outcome, after: Pf)
    requires Obedient(kernel) && |pf.links| == pf.numVfs
    ensures outcome.Done? <==> Succeeds(pf, total, wanted)
    ensures outcome.Done? ==>
      && after.driver == Some(TARGET_DRIVER) && after.autoprobe == "0"
      && after.numVfs == wanted && |after.links| == wanted && AllUnbound(after.links)
  {
    ObedientIsLawful(kernel);
    var script := new Script(kernel, total, pf);
    outcome := script.Configure(wanted);
    after := script.pf;
  }
}
