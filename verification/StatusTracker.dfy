/**
 The virtio status tracer: five probes on every status write report a reset and the
 first time each handshake bit is written since the device's last reset.
 */
module StatusTracker {
  import opened Common

  type Device = nat

  datatype Bit = Acknowledge | Driver | FeaturesOk | DriverOk

  datatype Event = Event(dev: Device, status: nat, now: nat)

  datatype Report =
    | Reset(dev: Device, now: nat)
    | Milestone(dev: Device, bit: Bit, status: nat, deltaMs: nat)

  // The order of the probes, which is the order of section 3.1.1 of VIRTIO 1.1.
  const ORDER: seq<Bit> := [Acknowledge, Driver, FeaturesOk, DriverOk]

  function Mask(bit: Bit): (w: nat)
    ensures w > 0
  {
    match bit
    case Acknowledge => 1
    case Driver => 2
    case FeaturesOk => 8
    case DriverOk => 4
  }

  predicate Has(status: nat, bit: Bit) {
    status / Mask(bit) % 2 == 1
  }

  predicate IsReset(e: Event) {
    e.status % 0x100 == 0
  }

  lemma ResetHasNoBit(e: Event, bit: Bit)
    requires IsReset(e)
    ensures !Has(e.status, bit)
  {
    var q := e.status / 0x100;
    assert e.status == 0x100 * q;
    match bit
    case Acknowledge => assert e.status == 2 * (128 * q);
    case Driver => assert e.status / 2 == 2 * (64 * q);
    case FeaturesOk => assert e.status / 8 == 2 * (16 * q);
    case DriverOk => assert e.status / 4 == 2 * (32 * q);
  }

  // ----- What should be reported, from the history alone -----

  // A write of the bit to the device with no reset of it since.
  ghost predicate Seen(h: seq<Event>, dev: Device, bit: Bit) {
    exists i :: WroteAt(h, dev, bit, i) && NoReset(h, dev, i)
  }

  predicate WroteAt(h: seq<Event>, dev: Device, bit: Bit, i: int) {
    0 <= i < |h| && h[i].dev == dev && Has(h[i].status, bit)
  }

  predicate NoReset(h: seq<Event>, dev: Device, i: int) {
    forall j | 0 <= j < |h| && i < j :: !(h[j].dev == dev && IsReset(h[j]))
  }

  // The time of the device's last reset, or 0.
  function LastReset(h: seq<Event>, dev: Device): nat {
    if h == [] then 0
    else
      var e := h[|h| - 1];
      if e.dev == dev && IsReset(e) then e.now else LastReset(h[..|h| - 1], dev)
  }

  // Unsigned 64-bit subtraction.
  function DeltaMs(now: nat, reset: nat): nat {
    if reset != 0 then (now - reset) % 0x1_0000_0000_0000_0000 / 1000000 else 0
  }

  // The report of one bit of a write e after the writes h: only the first since the reset.
  ghost function FirstWrite(h: seq<Event>, e: Event, bit: Bit): seq<Report> {
    if Has(e.status, bit) && !Seen(h, e.dev, bit)
    then [Milestone(e.dev, bit, e.status % 0x100, DeltaMs(e.now, LastReset(h, e.dev)))]
    else []
  }

  // The reports of a write e after the writes h.
  ghost function Expected(h: seq<Event>, e: Event): seq<Report> {
    (if IsReset(e) then [Reset(e.dev, e.now)] else [])
    + FirstWrite(h, e, Acknowledge) + FirstWrite(h, e, Driver) + FirstWrite(h, e, FeaturesOk)
    + FirstWrite(h, e, DriverOk)
  }

  lemma SeenNext(h: seq<Event>, e: Event, dev: Device, bit: Bit)
    ensures Seen(h + [e], dev, bit) <==>
      !(e.dev == dev && IsReset(e)) && ((e.dev == dev && Has(e.status, bit)) || Seen(h, dev, bit))
  {
    hide Has, IsReset;
    var g := h + [e];
    assert g[|h|] == e && forall k | 0 <= k < |h| :: g[k] == h[k];
    if e.dev == dev && IsReset(e) {
      ResetHasNoBit(e, bit);
      forall i ensures !(WroteAt(g, dev, bit, i) && NoReset(g, dev, i)) {
        if i < |h| {
          assert g[|h|].dev == dev;
        }
      }
    } else {
      if e.dev == dev && Has(e.status, bit) {
        assert WroteAt(g, dev, bit, |h|) && NoReset(g, dev, |h|);
      }
      if Seen(h, dev, bit) {
        var i :| WroteAt(h, dev, bit, i) && NoReset(h, dev, i);
        assert WroteAt(g, dev, bit, i) && NoReset(g, dev, i);
      }
      if Seen(g, dev, bit) {
        var i :| WroteAt(g, dev, bit, i) && NoReset(g, dev, i);
        if i < |h| {
          assert WroteAt(h, dev, bit, i);
          forall j | 0 <= j < |h| && i < j ensures !(h[j].dev == dev && IsReset(h[j])) {
            assert g[j] == h[j];
          }
        }
      }
    }
  }

  // ----- The same in bits of the status byte and places of the history -----

  // Write r is the device's last reset.
  ghost predicate ResetAt(h: seq<Event>, dev: Device, r: int) {
    && 0 <= r < |h| && h[r].dev == dev && h[r].status % 0x100 == 0
    && forall j | r < j < |h| && h[j].dev == dev :: h[j].status % 0x100 != 0
  }

  // No write to the device since its last reset has the bit of weight w.
  ghost predicate NewBit(h: seq<Event>, dev: Device, w: nat)
    requires w > 0
  {
    forall i | 0 <= i < |h| && h[i].dev == dev && h[i].status / w % 2 == 1 ::
      exists j :: i < j < |h| && h[j].dev == dev && h[j].status % 0x100 == 0
  }

  // The milestone of a bit of weight w that a write e reports: the milliseconds since the
  // device's last reset, or 0 if it has none or that was at time 0.
  ghost predicate Tells(h: seq<Event>, e: Event, bit: Bit, report: Report) {
    && report.Milestone? && report.dev == e.dev && report.bit == bit && report.status == e.status % 0x100
    && (forall r | ResetAt(h, e.dev, r) && h[r].now != 0 ::
          report.deltaMs == (e.now - h[r].now) % 0x1_0000_0000_0000_0000 / 1000000)
    && ((forall r | ResetAt(h, e.dev, r) :: h[r].now == 0) ==> report.deltaMs == 0)
  }

  // What the reports of a write say about one bit.
  ghost predicate TellsBit(h: seq<Event>, e: Event, w: nat, bit: Bit, reports: seq<Report>)
    requires w > 0
  {
    && ((e.status / w % 2 == 1 && NewBit(h, e.dev, w)) <==>
          exists k {:trigger reports[k]} :: 0 <= k < |reports| && Tells(h, e, bit, reports[k]))
    && (forall k | 0 <= k < |reports| && reports[k].Milestone? && reports[k].bit == bit ::
          Tells(h, e, bit, reports[k]))
  }

  // A write that resets the device reports that and nothing else. Any other write reports,
  // in this order and each once, the bits 1, 2, 8 and 4 that are set in it and were not in
  // any write to the device since its last reset.
  ghost predicate Reports(h: seq<Event>, e: Event, reports: seq<Report>) {
    if e.status % 0x100 == 0 then reports == [Report.Reset(e.dev, e.now)]
    else
      && TellsBit(h, e, 1, Acknowledge, reports) && TellsBit(h, e, 2, Driver, reports)
      && TellsBit(h, e, 8, FeaturesOk, reports) && TellsBit(h, e, 4, DriverOk, reports)
      && (forall k | 0 <= k < |reports| :: reports[k].Milestone?)
      && (forall j, k | 0 <= j < k < |reports| :: Earlier(reports[j], reports[k]))
  }

  function Place(bit: Bit): nat {
    match bit
    case Acknowledge => 0
    case Driver => 1
    case FeaturesOk => 2
    case DriverOk => 3
  }

  predicate Earlier(a: Report, b: Report) {
    a.Milestone? && b.Milestone? && Place(a.bit) < Place(b.bit)
  }

  lemma SeenIs(h: seq<Event>, dev: Device, bit: Bit)
    ensures !Seen(h, dev, bit) <==> NewBit(h, dev, Mask(bit))
  {
    hide Mask;
    if !Seen(h, dev, bit) {
      forall i | 0 <= i < |h| && h[i].dev == dev && h[i].status / Mask(bit) % 2 == 1
        ensures exists j :: i < j < |h| && h[j].dev == dev && h[j].status % 0x100 == 0
      {
        assert WroteAt(h, dev, bit, i) && !NoReset(h, dev, i);
      }
    }
    if i :| WroteAt(h, dev, bit, i) && NoReset(h, dev, i) {
      assert h[i].status / Mask(bit) % 2 == 1;
    }
  }

  lemma {:induction false} LastResetIs(h: seq<Event>, dev: Device)
    ensures forall r | ResetAt(h, dev, r) :: LastReset(h, dev) == h[r].now
    ensures (forall r :: !ResetAt(h, dev, r)) ==> LastReset(h, dev) == 0
    decreases |h|
  {
    if h != [] {
      var before, e := h[..|h| - 1], h[|h| - 1];
      LastResetIs(before, dev);
      if e.dev == dev && IsReset(e) {
        assert ResetAt(h, dev, |h| - 1);
      } else {
        forall r ensures ResetAt(before, dev, r) <==> ResetAt(h, dev, r) {
          if ResetAt(before, dev, r) {
            forall j | r < j < |h| && h[j].dev == dev ensures h[j].status % 0x100 != 0 {
              assert j < |before| ==> before[j] == h[j];
            }
          }
          if ResetAt(h, dev, r) {
            forall j | r < j < |before| && before[j].dev == dev ensures before[j].status % 0x100 != 0 {
              assert before[j] == h[j];
            }
          }
        }
      }
    }
  }

  predicate OfBit(reports: seq<Report>, bit: Bit) {
    |reports| <= 1 && forall x | x in reports :: x.Milestone? && x.bit == bit
  }

  // The report of one bit is the one told.
  lemma FirstWriteTells(h: seq<Event>, e: Event, bit: Bit)
    ensures var told := FirstWrite(h, e, bit);
      if e.status / Mask(bit) % 2 == 1 && NewBit(h, e.dev, Mask(bit))
      then |told| == 1 && Tells(h, e, bit, told[0]) else told == []
    ensures OfBit(FirstWrite(h, e, bit), bit)
  {
    hide Seen, LastReset, ResetAt, NewBit, Mask;
    SeenIs(h, e.dev, bit);
    LastResetIs(h, e.dev);
  }

  // The reports of one bit stand between those of others.
  lemma Between(h: seq<Event>, e: Event, w: nat, bit: Bit, past: seq<Report>, told: seq<Report>, rest: seq<Report>)
    requires w > 0
    requires if e.status / w % 2 == 1 && NewBit(h, e.dev, w)
             then |told| == 1 && Tells(h, e, bit, told[0]) else told == []
    requires forall x | x in past + rest :: x.Milestone? && x.bit != bit
    ensures TellsBit(h, e, w, bit, past + told + rest)
  {
    hide NewBit, ResetAt;
    var reports := past + told + rest;
    if told != [] {
      assert reports[|past|] == told[0];
    }
    forall k | 0 <= k < |reports| ensures reports[k] in past + rest || (told != [] && reports[k] == told[0]) {
      if k < |past| {
        assert reports[k] == past[k];
      } else if k >= |past| + |told| {
        assert reports[k] == rest[k - |past| - |told|];
      }
    }
  }

  // At most one report of each bit, in the order of the bits.
  lemma InPlace(a: seq<Report>, b: seq<Report>, c: seq<Report>, d: seq<Report>)
    requires OfBit(a, Acknowledge)
    requires OfBit(b, Driver)
    requires OfBit(c, FeaturesOk)
    requires OfBit(d, DriverOk)
    ensures var all := a + b + c + d;
      && (forall k | 0 <= k < |all| :: all[k].Milestone?)
      && forall j, k | 0 <= j < k < |all| :: Earlier(all[j], all[k])
  {
    var all := a + b + c + d;
    forall k | 0 <= k < |all|
      ensures all[k].Milestone?
      ensures k < |a| ==> all[k].bit == Acknowledge
      ensures |a| <= k < |a| + |b| ==> all[k].bit == Driver
      ensures |a| + |b| <= k < |a| + |b| + |c| ==> all[k].bit == FeaturesOk
      ensures |a| + |b| + |c| <= k ==> all[k].bit == DriverOk
    {
      if k < |a| {
        assert all[k] == a[k];
      } else if k < |a| + |b| {
        assert all[k] == b[k - |a|];
      } else if k < |a| + |b| + |c| {
        assert all[k] == c[k - |a| - |b|];
      } else {
        assert all[k] == d[k - |a| - |b| - |c|];
      }
    }
  }

  lemma ExpectedTells(h: seq<Event>, e: Event)
    ensures Reports(h, e, Expected(h, e))
  {
    hide NewBit, TellsBit, Tells, FirstWrite, OfBit, Earlier;
    if IsReset(e) {
      NothingAtReset(h, e);
    } else {
      var a, b, c, d := FirstWrite(h, e, Acknowledge), FirstWrite(h, e, Driver), FirstWrite(h, e, FeaturesOk),
        FirstWrite(h, e, DriverOk);
      FirstWriteTells(h, e, Acknowledge);
      FirstWriteTells(h, e, Driver);
      FirstWriteTells(h, e, FeaturesOk);
      FirstWriteTells(h, e, DriverOk);
      AllTold(h, e, a, b, c, d);
      InPlace(a, b, c, d);
      assert Expected(h, e) == a + b + c + d;
    }
  }

  lemma AllTold(h: seq<Event>, e: Event, a: seq<Report>, b: seq<Report>, c: seq<Report>, d: seq<Report>)
    requires OfBit(a, Acknowledge) && OfBit(b, Driver) && OfBit(c, FeaturesOk) && OfBit(d, DriverOk)
    requires if e.status / 1 % 2 == 1 && NewBit(h, e.dev, 1)
             then |a| == 1 && Tells(h, e, Acknowledge, a[0]) else a == []
    requires if e.status / 2 % 2 == 1 && NewBit(h, e.dev, 2)
             then |b| == 1 && Tells(h, e, Driver, b[0]) else b == []
    requires if e.status / 8 % 2 == 1 && NewBit(h, e.dev, 8)
             then |c| == 1 && Tells(h, e, FeaturesOk, c[0]) else c == []
    requires if e.status / 4 % 2 == 1 && NewBit(h, e.dev, 4)
             then |d| == 1 && Tells(h, e, DriverOk, d[0]) else d == []
    ensures var all := a + b + c + d;
      && TellsBit(h, e, 1, Acknowledge, all) && TellsBit(h, e, 2, Driver, all)
      && TellsBit(h, e, 8, FeaturesOk, all) && TellsBit(h, e, 4, DriverOk, all)
  {
    hide NewBit, Tells, TellsBit;
    var all := a + b + c + d;
    assert all == [] + a + (b + c + d) == a + b + (c + d) == a + b + c + d + [];
    Between(h, e, 1, Acknowledge, [], a, b + c + d);
    Between(h, e, 2, Driver, a, b, c + d);
    Between(h, e, 8, FeaturesOk, a + b, c, d);
    Between(h, e, 4, DriverOk, a + b + c, d, []);
  }

  // ----- The probes -----

  function Get(m: map<Device, nat>, dev: Device): nat {
    if dev in m then m[dev] else 0
  }

  class Tracker {
    var seenAck: map<Device, nat>
    var seenDriver: map<Device, nat>
    var seenFeaturesOk: map<Device, nat>
    var seenDriverOk: map<Device, nat>
    var resetNs: map<Device, nat>
    ghost var history: seq<Event>

    ghost predicate Valid()
      reads this
    {
      && Records(history, seenAck, Acknowledge) && Records(history, seenDriver, Driver)
      && Records(history, seenFeaturesOk, FeaturesOk) && Records(history, seenDriverOk, DriverOk)
      && forall dev :: Get(resetNs, dev) == LastReset(history, dev)
    }

    constructor ()
      ensures Valid() && history == []
    {
      seenAck, seenDriver, seenFeaturesOk, seenDriverOk, resetNs := map[], map[], map[], map[], map[];
      history := [];
    }

    // All probes on one status write, in their order.
    method SetStatus(e: Event) returns (reports: seq<Report>)
      requires Valid()
      modifies this
      ensures Valid() && history == old(history) + [e]
      ensures reports == Expected(old(history), e) && Reports(old(history), e, reports)
    {
      hide Records, Seen, Has, IsReset, LastReset, FirstWrite, Reports;
      ghost var h := history;
      reports := [];
      history := history + [e];
      if IsReset(e) {
        seenAck := Cleared(h, seenAck, Acknowledge, e);
        seenDriver := Cleared(h, seenDriver, Driver, e);
        seenFeaturesOk := Cleared(h, seenFeaturesOk, FeaturesOk, e);
        seenDriverOk := Cleared(h, seenDriverOk, DriverOk, e);
        resetNs := resetNs[e.dev := e.now];
        reports := [Reset(e.dev, e.now)];
        NothingAtReset(h, e);
      } else {
        var ack, driver, featuresOk, driverOk;
        seenAck, ack := Probe(h, seenAck, Acknowledge, e, resetNs);
        seenDriver, driver := Probe(h, seenDriver, Driver, e, resetNs);
        seenFeaturesOk, featuresOk := Probe(h, seenFeaturesOk, FeaturesOk, e, resetNs);
        seenDriverOk, driverOk := Probe(h, seenDriverOk, DriverOk, e, resetNs);
        reports := ack + driver + featuresOk + driverOk;
      }
      forall dev ensures Get(resetNs, dev) == LastReset(history, dev) {
        ResetNext(h, e, dev);
      }
      ExpectedTells(h, e);
    }
  }

  // A map that is nonzero at exactly the devices the bit was written to since their reset.
  ghost predicate Records(h: seq<Event>, m: map<Device, nat>, bit: Bit) {
    forall dev :: Get(m, dev) != 0 <==> Seen(h, dev, bit)
  }

  // The assignment of the reset probe to one map.
  method Cleared(ghost h: seq<Event>, m: map<Device, nat>, bit: Bit, e: Event) returns (m': map<Device, nat>)
    requires Records(h, m, bit) && IsReset(e)
    ensures Records(h + [e], m', bit)
  {
    hide Seen, IsReset, Has;
    m' := m[e.dev := 0];
    forall dev ensures Get(m', dev) != 0 <==> Seen(h + [e], dev, bit) {
      assert Get(m, dev) != 0 <==> Seen(h, dev, bit);
      ResetHasNoBit(e, bit);
      SeenNext(h, e, dev, bit);
    }
  }

  // One of the four bit probes.
  method Probe(ghost h: seq<Event>, m: map<Device, nat>, bit: Bit, e: Event, resetNs: map<Device, nat>)
      returns (m': map<Device, nat>, reports: seq<Report>)
    requires Records(h, m, bit) && !IsReset(e) && Get(resetNs, e.dev) == LastReset(h, e.dev)
    ensures Records(h + [e], m', bit)
    ensures reports == FirstWrite(h, e, bit)
  {
    hide Seen, IsReset, Has;
    m', reports := m, [];
    assert Get(m, e.dev) != 0 <==> Seen(h, e.dev, bit);
    if Has(e.status, bit) && Get(m, e.dev) == 0 {
      m' := m[e.dev := 1];
      reports := [Milestone(e.dev, bit, e.status % 0x100, DeltaMs(e.now, Get(resetNs, e.dev)))];
    }
    forall dev ensures Get(m', dev) != 0 <==> Seen(h + [e], dev, bit) {
      assert Get(m, dev) != 0 <==> Seen(h, dev, bit);
      SeenNext(h, e, dev, bit);
    }
  }

  lemma NothingAtReset(h: seq<Event>, e: Event)
    requires IsReset(e)
    ensures Expected(h, e) == [Reset(e.dev, e.now)]
  {
    hide IsReset, Has, Seen;
    ResetHasNoBit(e, Acknowledge);
    ResetHasNoBit(e, Driver);
    ResetHasNoBit(e, FeaturesOk);
    ResetHasNoBit(e, DriverOk);
  }

  lemma ResetNext(h: seq<Event>, e: Event, dev: Device)
    ensures LastReset(h + [e], dev) == if e.dev == dev && IsReset(e) then e.now else LastReset(h, dev)
  {
    assert (h + [e])[..|h|] == h;
  }

  // Watch a whole sequence of writes, to any number of devices.
  method Watch(events: seq<Event>) returns (reports: seq<seq<Report>>)
    ensures |reports| == |events|
    ensures forall k | 0 <= k < |events| ::
      reports[k] == Expected(events[..k], events[k]) && Reports(events[..k], events[k], reports[k])
  {
    hide Expected, Reports;
    var tracker := new Tracker();
    reports := [];
    for k := 0 to |events|
      invariant tracker.Valid() && tracker.history == events[..k] && |reports| == k
      invariant forall j | 0 <= j < k ::
        reports[j] == Expected(events[..j], events[j]) && Reports(events[..j], events[j], reports[j])
    {
      var r := tracker.SetStatus(events[k]);
      reports := reports + [r];
      assert events[..k + 1] == events[..k] + [events[k]];
    }
  }

  // ----- What the reports of one device amount to -----

  function BitsOf(reports: seq<Report>): seq<Bit> {
    if reports == [] then []
    else
      var last := reports[|reports| - 1];
      BitsOf(reports[..|reports| - 1]) + if last.Milestone? then [last.bit] else []
  }

  // The bits reported for a device since its last reset, in order.
  ghost function Reported(h: seq<Event>, dev: Device): seq<Bit> {
    if h == [] then []
    else
      var before, e := h[..|h| - 1], h[|h| - 1];
      if e.dev != dev then Reported(before, dev)
      else if IsReset(e) then []
      else Reported(before, dev) + BitsOf(Expected(before, e))
  }

  ghost function If(c: bool, bit: Bit): seq<Bit> {
    if c then [bit] else []
  }

  ghost function NewBits(h: seq<Event>, e: Event): seq<Bit> {
    If(Has(e.status, Acknowledge) && !Seen(h, e.dev, Acknowledge), Acknowledge)
    + If(Has(e.status, Driver) && !Seen(h, e.dev, Driver), Driver)
    + If(Has(e.status, FeaturesOk) && !Seen(h, e.dev, FeaturesOk), FeaturesOk)
    + If(Has(e.status, DriverOk) && !Seen(h, e.dev, DriverOk), DriverOk)
  }

  lemma OneBit(past: seq<Report>, h: seq<Event>, e: Event, bit: Bit)
    ensures BitsOf(past + FirstWrite(h, e, bit))
         == BitsOf(past) + If(Has(e.status, bit) && !Seen(h, e.dev, bit), bit)
  {
    hide Has, Seen, LastReset;
    var r := past + FirstWrite(h, e, bit);
    if FirstWrite(h, e, bit) == [] {
      assert r == past;
    } else {
      assert r[..|past|] == past;
    }
  }

  lemma NoBits(reports: seq<Report>)
    requires |reports| == 0 || (|reports| == 1 && reports[0].Reset?)
    ensures BitsOf(reports) == []
  {
  }

  lemma ExpectedBits(h: seq<Event>, e: Event)
    ensures BitsOf(Expected(h, e)) == NewBits(h, e)
  {
    hide Has, Seen, IsReset, LastReset, FirstWrite, If, BitsOf;
    var reset := if IsReset(e) then [Reset(e.dev, e.now)] else [];
    var ack := reset + FirstWrite(h, e, Acknowledge);
    var driver := ack + FirstWrite(h, e, Driver);
    NoBits(reset);
    OneBit(reset, h, e, Acknowledge);
    OneBit(ack, h, e, Driver);
    OneBit(driver, h, e, FeaturesOk);
    OneBit(driver + FirstWrite(h, e, FeaturesOk), h, e, DriverOk);
  }

  lemma NewBitsSet(h: seq<Event>, e: Event)
    ensures NoDup(NewBits(h, e))
    ensures forall bit :: bit in NewBits(h, e) <==> Has(e.status, bit) && !Seen(h, e.dev, bit)
  {
    hide Has, Seen;
    forall bit ensures bit in NewBits(h, e) <==> Has(e.status, bit) && !Seen(h, e.dev, bit) {
      match bit
      case Acknowledge =>
      case Driver =>
      case FeaturesOk =>
      case DriverOk =>
    }
  }

  lemma NoDupConcat(a: seq<Bit>, b: seq<Bit>)
    requires NoDup(a) && NoDup(b) && forall x | x in a :: x !in b
    ensures NoDup(a + b)
  {
    forall i, j | 0 <= i < j < |a + b| ensures (a + b)[i] != (a + b)[j] {
      if i < |a| <= j {
        assert a[i] in a && b[j - |a|] in b;
      }
    }
  }

  // Since a device's last reset every bit written to it has been reported, no other bit,
  // and none twice.
  lemma {:induction false} ReportedOnce(h: seq<Event>, dev: Device)
    ensures NoDup(Reported(h, dev))
    ensures forall bit :: bit in Reported(h, dev) <==> Seen(h, dev, bit)
    decreases |h|
  {
    hide Has, Seen, IsReset, Expected, NewBits;
    if h == [] {
      NothingSeen(dev);
    } else {
      var before, e := h[..|h| - 1], h[|h| - 1];
      assert h == before + [e];
      ReportedOnce(before, dev);
      ExpectedBits(before, e);
      NewBitsSet(before, e);
      if e.dev == dev {
        NoDupConcat(Reported(before, dev), NewBits(before, e));
      }
      forall bit ensures bit in Reported(h, dev) <==> Seen(h, dev, bit) {
        SeenNext(before, e, dev, bit);
      }
    }
  }

  lemma NothingSeen(dev: Device)
    ensures forall bit :: !Seen([], dev, bit)
  {
  }

  // ----- Devices do not disturb each other -----

  function Only(h: seq<Event>, dev: Device): seq<Event> {
    if h == [] then []
    else
      var before := Only(h[..|h| - 1], dev);
      if h[|h| - 1].dev == dev then before + [h[|h| - 1]] else before
  }

  lemma {:induction false} SeenAlone(h: seq<Event>, dev: Device, bit: Bit)
    ensures Seen(Only(h, dev), dev, bit) <==> Seen(h, dev, bit)
    ensures LastReset(Only(h, dev), dev) == LastReset(h, dev)
    decreases |h|
  {
    hide Has, Seen, IsReset;
    if h != [] {
      var before, e := h[..|h| - 1], h[|h| - 1];
      assert h == before + [e];
      SeenAlone(before, dev, bit);
      SeenNext(before, e, dev, bit);
      if e.dev == dev {
        SeenNext(Only(before, dev), e, dev, bit);
        ResetNext(Only(before, dev), e, dev);
      }
    }
  }

  // What is reported for a write depends on the earlier writes to its own device only.
  lemma Unaffected(h: seq<Event>, e: Event)
    ensures Expected(Only(h, e.dev), e) == Expected(h, e)
  {
    hide Has, Seen, IsReset, LastReset, Only;
    SeenAlone(h, e.dev, Acknowledge);
    SeenAlone(h, e.dev, Driver);
    SeenAlone(h, e.dev, FeaturesOk);
    SeenAlone(h, e.dev, DriverOk);
  }

  // ----- The order of the handshake -----

  // A status that has no bit without the ones that come before it.
  predicate Progressive(status: nat) {
    && (Has(status, Driver) ==> Has(status, Acknowledge))
    && (Has(status, FeaturesOk) ==> Has(status, Driver))
    && (Has(status, DriverOk) ==> Has(status, FeaturesOk))
  }

  // Every write to the device since its last reset is progressive.
  predicate Follows(h: seq<Event>, dev: Device) {
    forall i | 0 <= i < |h| && h[i].dev == dev && NoReset(h, dev, i) :: Progressive(h[i].status)
  }

  lemma FollowsBefore(h: seq<Event>, e: Event, dev: Device)
    requires Follows(h + [e], dev) && !(e.dev == dev && IsReset(e))
    ensures Follows(h, dev)
    ensures e.dev == dev ==> Progressive(e.status)
  {
    hide IsReset, Progressive;
    var g := h + [e];
    forall i | 0 <= i < |h| && h[i].dev == dev && NoReset(h, dev, i) ensures Progressive(h[i].status) {
      assert g[i] == h[i];
      assert NoReset(g, dev, i);
    }
    assert g[|h|] == e && NoReset(g, dev, |h|);
  }

  // A driver that follows the protocol is reported in the protocol's order, with no
  // milestone left out.
  lemma {:induction false} HandshakeOrder(h: seq<Event>, dev: Device)
    requires Follows(h, dev)
    ensures Reported(h, dev) <= ORDER
    decreases |h|
  {
    hide Has, Seen, IsReset, Expected, Follows;
    if h != [] {
      var before, e := h[..|h| - 1], h[|h| - 1];
      assert h == before + [e];
      if e.dev != dev {
        FollowsBefore(before, e, dev);
        HandshakeOrder(before, dev);
      } else if !IsReset(e) {
        FollowsBefore(before, e, dev);
        HandshakeOrder(before, dev);
        ReportedOnce(before, dev);
        ExpectedBits(before, e);
        NextMilestones(Reported(before, dev), before, e);
      }
    }
  }

  lemma NextMilestones(past: seq<Bit>, h: seq<Event>, e: Event)
    requires past <= ORDER && Progressive(e.status)
    requires forall bit :: bit in past <==> Seen(h, e.dev, bit)
    ensures past + NewBits(h, e) <= ORDER
  {
    hide Has, Seen;
    PrefixBits(past);
    if |past| == 0 {
    } else if |past| == 1 {
    } else if |past| == 2 {
    } else if |past| == 3 {
    } else {
    }
  }

  lemma PrefixBits(past: seq<Bit>)
    requires past <= ORDER
    ensures Acknowledge in past <==> |past| >= 1
    ensures Driver in past <==> |past| >= 2
    ensures FeaturesOk in past <==> |past| >= 3
    ensures DriverOk in past <==> |past| >= 4
    ensures past == If(|past| >= 1, Acknowledge) + If(|past| >= 2, Driver) + If(|past| >= 3, FeaturesOk)
      + If(|past| >= 4, DriverOk)
  {
    if |past| >= 1 { assert past[0] == ORDER[0]; }
    if |past| >= 2 { assert past[1] == ORDER[1]; }
    if |past| >= 3 { assert past[2] == ORDER[2]; }
    if |past| >= 4 { assert past[3] == ORDER[3]; }
  }
}
