/**
 The memory dump: the page-aligned window that is mapped, the loop that prints each run
 of equal items once, and the optional write at the end.
 */
module Pcimem {
  import opened Common
  import opened Words

  // ----- The mapped window -----

  const MIN_MAP := 4096

  function Pow2(k: nat): (p: nat)
    ensures p > 0
  {
    if k == 0 then 1 else 2 * Pow2(k - 1)
  }

  // Bitwise and.
  function And(a: nat, b: nat): nat {
    if a == 0 || b == 0 then 0 else a % 2 * (b % 2) + 2 * And(a / 2, b / 2)
  }

  // The complement of a word of the given number of bits.
  function Not(a: nat, bits: nat): nat
    requires a < Pow2(bits)
  {
    Pow2(bits) - 1 - a
  }

  // pcimem's addresses have 64 bits; the results hold for any number.
  function TargetBase(target: nat, page: nat, bits: nat): nat
    requires 0 < page <= Pow2(bits)
  {
    And(target, Not(page - 1, bits))
  }

  function MapSize(target: nat, base: nat, count: nat, width: nat): int {
    if target + Offset(width, count) - base > MIN_MAP then target + Offset(width, count) - base else MIN_MAP
  }

  // Dividing by twice p: halve first, the low bit joins the remainder.
  lemma ModTwice(t: nat, p: nat)
    requires p > 0
    ensures t % (2 * p) == t % 2 + 2 * (t / 2 % p)
  {
    var h := t / 2;
    var q, r := h / p, h % p;
    assert h == p * q + r;
    assert 2 * p * q == 2 * (p * q);
    DivModUnique(t, 2 * p, q, t % 2 + 2 * r);
  }

  lemma AndZero(t: nat)
    ensures And(t, 0) == 0
  {
  }

  lemma AndTwice(t: nat, half: nat)
    ensures And(t, 2 * half) == 2 * And(t / 2, half)
    ensures And(t, 2 * half + 1) == t % 2 + 2 * And(t / 2, half)
  {
    assert 2 * half / 2 == half && (2 * half + 1) / 2 == half && 2 * half % 2 == 0 && (2 * half + 1) % 2 == 1;
  }

  // Clearing the low k bits of a word of k + m bits.
  lemma {:induction false} ClearLow(t: nat, k: nat, m: nat)
    requires t < Pow2(k + m)
    ensures Pow2(k) <= Pow2(k + m)
    ensures And(t, Pow2(k + m) - Pow2(k)) == t - t % Pow2(k)
    decreases k + m
  {
    hide And;
    if k > 0 {
      ClearLow(t / 2, k - 1, m);
      AndTwice(t, Pow2(k - 1 + m) - Pow2(k - 1));
      ModTwice(t, Pow2(k - 1));
    } else if m > 0 {
      AndTwice(t, Pow2(m - 1) - 1);
      ClearLow(t / 2, 0, m - 1);
      assert Pow2(0) == 1 && t % 1 == 0 && t / 2 % 1 == 0;
    } else {
      AndZero(t);
    }
  }

  lemma PageStart(t: nat, p: nat)
    requires p > 0
    ensures var base := t - t % p; base % p == 0 && base <= t < base + p
  {
    var q := t / p;
    DivModUnique(p * q, p, q, 0);
    assert t - t % p == p * q;
  }

  // With a power-of-two page size the mapping starts at the start of the target's page.
  lemma BaseIsPageStart(target: nat, k: nat, bits: nat)
    requires target < Pow2(bits) && k <= bits
    ensures Pow2(k) <= Pow2(bits)
    ensures var base := TargetBase(target, Pow2(k), bits);
      base % Pow2(k) == 0 && base <= target < base + Pow2(k)
  {
    hide Pow2, And;
    ClearLow(target, k, bits - k);
    PageStart(target, Pow2(k));
  }

  // Every item read or written lies inside the mapping.
  lemma AccessInWindow(target: nat, k: nat, bits: nat, count: nat, width: nat, i: nat)
    requires target < Pow2(bits) && k <= bits && i < count
    ensures Pow2(k) <= Pow2(bits)
    ensures var base := TargetBase(target, Pow2(k), bits);
      0 <= target + Offset(width, i) - base
      && target + Offset(width, i) - base + width <= MapSize(target, base, count, width)
      && (MapSize(target, base, count, width) == 4096
          || MapSize(target, base, count, width) == target + width * count - base > 4096)
  {
    hide Pow2, TargetBase;
    BaseIsPageStart(target, k, bits);
    OffsetFits(width, i, count);
  }

  // ----- The squeezed listing -----

  datatype Line = Value(offset: nat, value: nat) | Dots

  // The offset of item i as printed: cast to int, shown as 32 bits.
  function Printed(target: nat, width: nat, i: nat): (o: nat)
    ensures o < 0x1_0000_0000
  {
    (target + Offset(width, i)) % 0x1_0000_0000
  }

  // What the loop prints for the items so far.
  function Squeeze(target: nat, width: nat, vs: seq<nat>): seq<Line> {
    if vs == [] then []
    else
      var last := |vs| - 1;
      var before := Squeeze(target, width, vs[..last]);
      if last == 0 || vs[last] != vs[last - 1] then before + [Value(Printed(target, width, last), vs[last])]
      else if EndsInDots(before) then before
      else before + [Dots]
  }

  predicate EndsInDots(lines: seq<Line>) {
    lines != [] && lines[|lines| - 1].Dots?
  }

  // The end of the run of equal items that starts at k.
  function RunEnd(vs: seq<nat>, k: nat): (e: nat)
    requires k < |vs|
    ensures k < e <= |vs|
    ensures forall j | k <= j < e :: vs[j] == vs[k]
    ensures e < |vs| ==> vs[e] != vs[k]
    decreases |vs| - k
  {
    if k + 1 < |vs| && vs[k + 1] == vs[k] then RunEnd(vs, k + 1) else k + 1
  }

  // The listing run by run: the first item, and dots exactly when more follow.
  function ByRuns(target: nat, width: nat, vs: seq<nat>, k: nat): seq<Line>
    requires k <= |vs|
    decreases |vs| - k
  {
    if k == |vs| then []
    else
      var e := RunEnd(vs, k);
      [Value(Printed(target, width, k), vs[k])] + (if e > k + 1 then [Dots] else [])
      + ByRuns(target, width, vs, e)
  }

  // The last run when one more item arrives: it starts a new run, or joins the last.
  lemma {:induction false} ByRunsSnoc(target: nat, width: nat, vs: seq<nat>, v: nat, k: nat)
    requires k < |vs|
    ensures var before := ByRuns(target, width, vs, k);
      ByRuns(target, width, vs + [v], k) ==
        if vs[|vs| - 1] != v then before + [Value(Printed(target, width, |vs|), v)]
        else if EndsInDots(before) then before
        else before + [Dots]
    decreases |vs| - k
  {
    hide Printed;
    var ws := vs + [v];
    var e, f := RunEnd(vs, k), RunEnd(ws, k);
    RunEndSnoc(vs, v, k);
    var before := ByRuns(target, width, vs, k);
    if e < |vs| {
      ByRunsSnoc(target, width, vs, v, e);
      var rest := ByRuns(target, width, vs, e);
      assert rest != [] && before[|before| - 1] == rest[|rest| - 1];
    } else if vs[|vs| - 1] != v {
      assert RunEnd(ws, |vs|) == |ws|;
      assert ByRuns(target, width, ws, |ws|) == [];
      assert ByRuns(target, width, ws, |vs|) == [Value(Printed(target, width, |vs|), v)];
    } else {
      assert ByRuns(target, width, ws, |ws|) == [];
    }
  }

  lemma ByRunsShort(target: nat, width: nat, vs: seq<nat>)
    requires |vs| <= 1
    ensures ByRuns(target, width, vs, 0) == if vs == [] then [] else [Value(Printed(target, width, 0), vs[0])]
  {
    hide Printed;
    if |vs| == 1 {
      assert RunEnd(vs, 0) == 1 && ByRuns(target, width, vs, 1) == [];
    }
  }

  lemma {:induction false} RunEndSnoc(vs: seq<nat>, v: nat, k: nat)
    requires k < |vs|
    ensures RunEnd(vs + [v], k) ==
      if RunEnd(vs, k) == |vs| && vs[|vs| - 1] == v then |vs| + 1 else RunEnd(vs, k)
    decreases |vs| - k
  {
    var ws := vs + [v];
    if k + 1 < |vs| {
      RunEndSnoc(vs, v, k + 1);
    } else if vs[k] == v {
      assert RunEnd(ws, k + 1) == k + 2;
    }
  }

  // The listing has one line per run of equal items, followed by dots exactly when the
  // run holds more than one.
  lemma {:induction false} SqueezeIsByRuns(target: nat, width: nat, vs: seq<nat>)
    ensures Squeeze(target, width, vs) == ByRuns(target, width, vs, 0)
    decreases |vs|
  {
    hide Printed, ByRuns, RunEnd, EndsInDots;
    if |vs| <= 1 {
      ByRunsShort(target, width, vs);
      assert Squeeze(target, width, vs[..0]) == [];
    } else {
      var last := |vs| - 1;
      SqueezeIsByRuns(target, width, vs[..last]);
      ByRunsSnoc(target, width, vs[..last], vs[last], 0);
      assert vs[..last] + [vs[last]] == vs;
    }
  }

  // Item i has this value and offset, and differs from the item before it.
  predicate Changes(target: nat, width: nat, vs: seq<nat>, i: int, offset: nat, value: nat) {
    && 0 <= i < |vs| && (i == 0 || vs[i] != vs[i - 1])
    && value == vs[i] && offset == (target + width * i) % 0x1_0000_0000
  }

  // The values listed are those of the items that differ from the one before, each with the
  // low 32 bits of its address.
  lemma {:induction false} ValuesListed(target: nat, width: nat, vs: seq<nat>, offset: nat, value: nat)
    ensures Value(offset, value) in Squeeze(target, width, vs) <==>
      exists i :: Changes(target, width, vs, i, offset, value)
    decreases |vs|
  {
    if vs != [] {
      var last, before, line := |vs| - 1, vs[..|vs| - 1], Value(offset, value);
      ValuesListed(target, width, before, offset, value);
      assert line in Squeeze(target, width, vs) <==>
        line in Squeeze(target, width, before) || Changes(target, width, vs, last, offset, value);
      if i :| Changes(target, width, before, i, offset, value) {
        assert Changes(target, width, vs, i, offset, value);
      }
      if i :| Changes(target, width, vs, i, offset, value) && i < last {
        assert Changes(target, width, before, i, offset, value);
      }
    }
  }

  // ----- Reading a listing back -----

  // Repeat the last value up to n items.
  function Extend(vs: seq<nat>, n: nat): (r: seq<nat>)
    ensures |vs| >= n || vs == [] ==> r == vs
    ensures vs != [] && |vs| <= n ==> |r| == n
    decreases n - |vs|
  {
    if vs == [] || |vs| >= n then vs else Extend(vs + [vs[|vs| - 1]], n)
  }

  function Index(target: nat, width: nat, offset: nat): nat
    requires width > 0
  {
    (offset - target) % 0x1_0000_0000 / width
  }

  function Listed(target: nat, width: nat, lines: seq<Line>): seq<nat>
    requires width > 0
  {
    if lines == [] then []
    else
      var last := |lines| - 1;
      var before := Listed(target, width, lines[..last]);
      if lines[last].Dots? then before
      else Extend(before, Index(target, width, lines[last].offset)) + [lines[last].value]
  }

  // The items a listing of count items stands for.
  function Recover(target: nat, width: nat, lines: seq<Line>, count: nat): seq<nat>
    requires width > 0
  {
    Extend(Listed(target, width, lines), count)
  }

  lemma {:induction false} ExtendOnce(vs: seq<nat>, n: nat)
    requires vs != [] && |vs| <= n
    ensures Extend(vs, n + 1) == Extend(vs, n) + [Extend(vs, n)[n - 1]]
    decreases n - |vs|
  {
    if |vs| == n {
      assert Extend(vs + [vs[|vs| - 1]], n + 1) == vs + [vs[|vs| - 1]];
    } else {
      ExtendOnce(vs + [vs[|vs| - 1]], n);
    }
  }

  lemma IndexOfPrinted(target: nat, width: nat, i: nat)
    requires width > 0 && Offset(width, i) < 0x1_0000_0000
    ensures Index(target, width, Printed(target, width, i)) == i
  {
    var m, x := 0x1_0000_0000, Offset(width, i);
    var q := (target + x) / m;
    assert (target + x) % m - target == x - q * m;
    assert (x - q * m) % m == x;
    DivModUnique(x, width, i, 0);
  }

  lemma ListedNext(target: nat, width: nat, s: seq<Line>, line: Line)
    requires width > 0
    ensures Listed(target, width, []) == []
    ensures Listed(target, width, s + [line]) ==
      if line.Dots? then Listed(target, width, s)
      else Extend(Listed(target, width, s), Index(target, width, line.offset)) + [line.value]
  {
    assert (s + [line])[..|s|] == s;
  }

  // The squeezed listing loses nothing.
  lemma {:induction false} Lossless(target: nat, width: nat, vs: seq<nat>)
    requires width > 0 && Offset(width, |vs|) <= 0x1_0000_0000
    ensures Recover(target, width, Squeeze(target, width, vs), |vs|) == vs
    ensures vs != [] ==> 0 < |Listed(target, width, Squeeze(target, width, vs))| <= |vs|
    decreases |vs|
  {
    hide Printed, Index, Offset, Extend, Listed;
    ListedNext(target, width, [], Dots);
    if vs != [] {
      var last := |vs| - 1;
      var init := vs[..last];
      OffsetFits(width, last, |vs|);
      Lossless(target, width, init);
      var s := Squeeze(target, width, init);
      var so := Listed(target, width, s);
      if last == 0 || vs[last] != vs[last - 1] {
        var line := Value(Printed(target, width, last), vs[last]);
        IndexOfPrinted(target, width, last);
        ListedNext(target, width, s, line);
        assert init + [vs[last]] == vs;
      } else {
        ListedNext(target, width, s, Dots);
        ExtendOnce(so, last);
        assert init + [vs[last]] == vs;
      }
    }
  }

  // ----- The program -----

  function WordAt(m: seq<Byte>, hostBig: bool, at: nat, width: nat): nat
    requires at + width <= |m|
  {
    Decode(hostBig, m[at..at + width])
  }

  // The first n items of the dump.
  function Items(m: seq<Byte>, hostBig: bool, delta: nat, width: nat, n: nat): (vs: seq<nat>)
    requires delta + Offset(width, n) <= |m|
    ensures |vs| == n
  {
    if n == 0 then []
    else
      OffsetFits(width, n - 1, n);
      Items(m, hostBig, delta, width, n - 1) + [WordAt(m, hostBig, delta + Offset(width, n - 1), width)]
  }

  lemma DumpStart(m: seq<Byte>, hostBig: bool, delta: nat, width: nat)
    requires delta <= |m|
    ensures Offset(width, 0) == 0 && Items(m, hostBig, delta, width, 0) == []
  {
  }

  lemma ItemsNext(m: seq<Byte>, hostBig: bool, delta: nat, width: nat, n: nat)
    requires delta + Offset(width, n + 1) <= |m|
    ensures delta + Offset(width, n) + width <= |m|
    ensures Items(m, hostBig, delta, width, n + 1)
         == Items(m, hostBig, delta, width, n) + [WordAt(m, hostBig, delta + Offset(width, n), width)]
  {
    hide Offset, WordAt;
    OffsetNext(width, n);
  }

  // Item i is stored in the bytes at its place, in the order of the host: byte j of the item,
  // counted from the lowest, is byte j of the place on a little-endian host and byte j from
  // the end on a big-endian one.
  lemma {:induction false} ItemsAre(m: seq<Byte>, hostBig: bool, delta: nat, width: nat, n: nat, i: nat)
    requires delta + width * n <= |m| && i < n
    ensures 0 <= width * i <= width * n - width
    ensures var v, at := Items(m, hostBig, delta, width, n)[i], delta + width * i;
      && v < Pow256(width)
      && Encode(hostBig, width, v) == m[at..at + width]
      && forall j | 0 <= j < width ::
           v / Pow256(j) % 0x100 == m[at + if hostBig then width - 1 - j else j]
    decreases n
  {
    hide Encode, Decode, Pow256, WordAt;
    OffsetFits(width, i, n);
    ItemsNext(m, hostBig, delta, width, n - 1);
    if i < n - 1 {
      OffsetFits(width, n - 1, n);
      ItemsAre(m, hostBig, delta, width, n - 1, i);
    } else {
      WordAtIs(m, hostBig, delta + width * i, width);
    }
  }

  lemma WordAtIs(m: seq<Byte>, hostBig: bool, at: nat, width: nat)
    requires at + width <= |m|
    ensures var v := WordAt(m, hostBig, at, width);
      && v < Pow256(width)
      && Encode(hostBig, width, v) == m[at..at + width]
      && forall j | 0 <= j < width ::
           v / Pow256(j) % 0x100 == m[at + if hostBig then width - 1 - j else j]
  {
    hide LeBytes, Decode, Pow256;
    var v := WordAt(m, hostBig, at, width);
    EncodeDecode(hostBig, m[at..at + width]);
    forall j | 0 <= j < width ensures v / Pow256(j) % 0x100 == m[at + if hostBig then width - 1 - j else j] {
      ByteOf(v, width, j);
    }
  }

  // A dump after the last item has been written shows the new last item, and the others as
  // they were.
  lemma {:induction false} DumpAfterWrite(m: seq<Byte>, hostBig: bool, delta: nat, width: nat, n: nat, v: nat)
    requires delta + width * n <= |m| && n > 0 && v < Pow256(width)
    ensures width * n - width >= 0
    ensures var at := delta + width * n - width;
      Items(Put(m, at, Encode(hostBig, width, v)), hostBig, delta, width, n)
      == Items(m, hostBig, delta, width, n)[n - 1 := v]
  {
    hide Encode, Decode, WordAt;
    OffsetFits(width, n - 1, n);
    var at := delta + width * n - width;
    var after := Put(m, at, Encode(hostBig, width, v));
    ItemsNext(m, hostBig, delta, width, n - 1);
    ItemsNext(after, hostBig, delta, width, n - 1);
    SameItems(m, after, hostBig, delta, width, n - 1);
    WordStored(m, hostBig, at, width, v);
  }

  lemma WordStored(m: seq<Byte>, hostBig: bool, at: nat, width: nat, v: nat)
    requires at + width <= |m| && v < Pow256(width)
    ensures WordAt(Put(m, at, Encode(hostBig, width, v)), hostBig, at, width) == v
  {
    hide Encode, Decode;
    var bytes := Encode(hostBig, width, v);
    assert Put(m, at, bytes)[at..at + width] == bytes;
    DecodeEncode(hostBig, width, v);
  }

  lemma {:induction false} SameItems(m: seq<Byte>, after: seq<Byte>, hostBig: bool, delta: nat, width: nat, n: nat)
    requires |m| == |after| && delta + Offset(width, n) <= |m|
    requires forall k | 0 <= k < delta + Offset(width, n) :: after[k] == m[k]
    ensures Items(after, hostBig, delta, width, n) == Items(m, hostBig, delta, width, n)
  {
    hide Decode, Offset;
    if n > 0 {
      OffsetFits(width, n - 1, n);
      var at := delta + Offset(width, n - 1);
      assert after[at..at + width] == m[at..at + width];
      SameItems(m, after, hostBig, delta, width, n - 1);
    }
  }

  lemma SqueezeNext(target: nat, width: nat, vs: seq<nat>, v: nat)
    ensures var before := Squeeze(target, width, vs);
      Squeeze(target, width, vs + [v]) ==
        if vs == [] || v != vs[|vs| - 1] then before + [Value(Printed(target, width, |vs|), v)]
        else if EndsInDots(before) then before
        else before + [Dots]
  {
    hide Printed;
    assert (vs + [v])[..|vs|] == vs;
  }

  // The dump loop over a mapping of the window.
  method Dump(mapping: array<Byte>, hostBig: bool, target: nat, base: nat, count: nat, width: nat)
      returns (lines: seq<Line>)
    requires width in {1, 2, 4, 8} && base <= target && target - base + Offset(width, count) <= mapping.Length
    ensures lines == Squeeze(target, width, Items(mapping[..], hostBig, target - base, width, count))
  {
    hide Printed, WordAt, Decode, Offset, Items, Squeeze;
    ghost var m, delta := mapping[..], target - base;
    lines := [];
    var prev: nat, dupped := 0, false;
    ghost var vs := [];
    DumpStart(m, hostBig, delta, width);
    SqueezeStart(target, width);
    for i := 0 to count
      invariant delta + Offset(width, i) <= |m|
      invariant vs == Items(m, hostBig, delta, width, i)
      invariant lines == Squeeze(target, width, vs)
      invariant i > 0 ==> prev == vs[i - 1] && dupped == EndsInDots(lines)
    {
      OffsetFits(width, i, count);
      ItemsNext(m, hostBig, delta, width, i);
      var result := WordAt(mapping[..], hostBig, target + Offset(width, i) - base, width);
      SqueezeNext(target, width, vs, result);
      vs := vs + [result];
      if result != prev || i == 0 {
        lines := lines + [Value(Printed(target, width, i), result)];
        dupped := false;
      } else {
        if !dupped {
          lines := lines + [Dots];
        }
        dupped := true;
      }
      prev := result;
    }
  }

  lemma SqueezeStart(target: nat, width: nat)
    ensures Squeeze(target, width, []) == []
  {
  }

  // How a run ends: without data, with the value read back, or, when there is data but no
  // item was read, with a write through an address that was never set.
  datatype Ending = NoData | ReadBack(value: nat) | Undefined

  // The whole run on the mapping of the target's window, with the optional write to the
  // last item and its read-back.
  method Run(mapping: array<Byte>, hostBig: bool, target: nat, pageBits: nat, bits: nat, count: nat, width: nat,
             data: Option<nat>) returns (lines: seq<Line>, ending: Ending)
    requires width in {1, 2, 4, 8}
    requires target < Pow2(bits) && pageBits <= bits && Pow2(pageBits) <= Pow2(bits)
    requires mapping.Length == MapSize(target, TargetBase(target, Pow2(pageBits), bits), count, width) < 0x8000_0000
    modifies mapping
    ensures var delta := target - TargetBase(target, Pow2(pageBits), bits); var was := old(mapping[..]);
      && delta >= 0 && delta + Offset(width, count) <= |was|
      && lines == Squeeze(target, width, Items(was, hostBig, delta, width, count))
      && Recover(target, width, lines, count) == Items(was, hostBig, delta, width, count)
      && match data {
           case None => ending == NoData && mapping[..] == was
           case Some(v) =>
             if count == 0 then ending == Undefined
             else
               OffsetFits(width, count - 1, count);
               && ending == ReadBack(Word(v, width))
               && mapping[..] == Put(was, delta + Offset(width, count - 1), Encode(hostBig, width, Word(v, width)))
               && Items(mapping[..], hostBig, delta, width, count)
                  == Items(was, hostBig, delta, width, count)[count - 1 := v % Pow256(width)]
         }
  {
    hide Pow2, Offset, And, Not, WordAt, Items, Squeeze, Listed, Extend;
    BaseIsPageStart(target, pageBits, bits);
    var base := TargetBase(target, Pow2(pageBits), bits);
    lines := Dump(mapping, hostBig, target, base, count, width);
    Lossless(target, width, Items(mapping[..], hostBig, target - base, width, count));
    if data.None? {
      ending := NoData;
    } else if count == 0 {
      ending := Undefined;
    } else {
      OffsetFits(width, count - 1, count);
      LastPlace(width, count);
      DumpAfterWrite(mapping[..], hostBig, target - base, width, count, Word(data.value, width));
      var v := Store(mapping, hostBig, target - base + Offset(width, count - 1), width, data.value);
      ending := ReadBack(v);
    }
  }

  lemma LastPlace(width: nat, count: nat)
    requires count > 0
    ensures Offset(width, count - 1) == width * count - width && Offset(width, count) == width * count
  {
  }

  method Store(mapping: array<Byte>, hostBig: bool, at: nat, width: nat, data: nat) returns (readback: nat)
    requires at + width <= mapping.Length
    modifies mapping
    ensures mapping[..] == Put(old(mapping[..]), at, Encode(hostBig, width, Word(data, width)))
    ensures readback == Word(data, width)
  {
    hide Encode, Decode, Word;
    var bytes := Encode(hostBig, width, Word(data, width));
    forall k | 0 <= k < width {
      mapping[at + k] := bytes[k];
    }
    assert mapping[at..at + width] == bytes;
    readback := Decode(hostBig, mapping[at..at + width]);
    DecodeEncode(hostBig, width, Word(data, width));
  }
}
