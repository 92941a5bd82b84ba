/**
 The backtrace collector: a table of at most 64 lines filled by nested loops and a
 section callback, read by an iterator, and released string by string.
 */
module Backtrace {
  import opened Common

  const BACKTRACE_MAX := 64
  const WORD := 0x1_0000_0000_0000_0000

  // What a line lookup reports; a missing name is None.
  datatype Info = Info(file: Option<string>, symbol: Option<string>, lineno: nat)

  datatype Section = Section(id: nat, alloc: bool, vma: nat, size: nat)

  // A loaded object file: its sections in order, the line nearest to an offset of a
  // section, and the inliner chain at an offset.
  datatype Object = Object(sections: seq<Section>, nearest: (Section, nat) -> Info,
                           inliners: (Section, nat) -> seq<Info>)

  // A return address, and the object and load base it was resolved to, if it was.
  datatype Frame = Frame(address: nat, obj: Option<Object>, base: nat)

  // A table line with its strings.
  datatype Entry = Entry(address: nat, file: string, symbol: string, lineno: nat)

  // ----- What the table should hold -----

  function Named(address: nat, info: Info): Entry {
    Entry(address, if info.file.Some? then info.file.value else "???",
          if info.symbol.Some? then info.symbol.value else "???", info.lineno)
  }

  function AllNamed(address: nat, infos: seq<Info>): (es: seq<Entry>)
    ensures |es| == |infos| && forall k | 0 <= k < |infos| :: es[k] == Named(address, infos[k])
  {
    seq(|infos|, k requires 0 <= k < |infos| => Named(address, infos[k]))
  }

  predicate Covers(s: Section, address: nat) {
    s.alloc && s.vma <= address && address < (s.vma + s.size) % WORD
  }

  // The calling line, looked up before the return address, and the inliner chain of the
  // return address itself.
  function SectionLines(o: Object, s: Section, address: nat, backoff: nat): (es: seq<Entry>)
    ensures es != []
  {
    [Named(address, o.nearest(s, (address - s.vma - backoff) % WORD))]
    + AllNamed(address, o.inliners(s, (address - s.vma) % WORD))
  }

  lemma LinesAt(o: Object, s: Section, address: nat, backoff: nat)
    ensures var es, chain := SectionLines(o, s, address, backoff), o.inliners(s, (address - s.vma) % WORD);
      && |es| == |chain| + 1 && es[0] == Named(address, o.nearest(s, (address - s.vma - backoff) % WORD))
      && forall k | 0 < k < |es| :: es[k] == Named(address, chain[k - 1])
  {
    hide Named;
  }

  function ObjectLines(o: Object, sections: seq<Section>, address: nat, backoff: nat): seq<Entry> {
    if sections == [] then []
    else if Covers(sections[0], address) then SectionLines(o, sections[0], address, backoff)
    else ObjectLines(o, sections[1..], address, backoff)
  }

  function FrameLines(f: Frame, backoff: nat): seq<Entry> {
    match f.obj
    case None => []
    case Some(o) => ObjectLines(o, o.sections, (f.address - f.base) % WORD, backoff)
  }

  // All lines of a stack, innermost frame first.
  function Trace(frames: seq<Frame>): seq<Entry> {
    if frames == [] then []
    else
      var last := |frames| - 1;
      Trace(frames[..last]) + FrameLines(frames[last], 1)
  }

  function First(s: seq<Entry>, n: nat): (r: seq<Entry>)
    ensures r <= s && |r| == if |s| < n then |s| else n
  {
    if |s| < n then s else s[..n]
  }

  predicate Excluded(e: Entry) {
    e.symbol == "todo"
  }

  // The entries the iterator still has to hand out.
  function Remaining(es: seq<Entry>, position: nat): seq<Entry>
    decreases |es| - position
  {
    if position >= |es| then []
    else if Excluded(es[position]) then Remaining(es, position + 1)
    else [es[position]] + Remaining(es, position + 1)
  }

  // ----- Where the lines of each frame stand in the table -----

  predicate Inside(s: Section, address: nat) {
    s.alloc && s.vma <= address < (s.vma + s.size) % 0x1_0000_0000_0000_0000
  }

  // The k-th section is the first that is allocated and has the address inside.
  predicate Holder(sections: seq<Section>, address: nat, k: int) {
    0 <= k < |sections| && Inside(sections[k], address) && forall j | 0 <= j < k :: !Inside(sections[j], address)
  }

  // The entry is this line of this address; a name that was not found reads "???".
  predicate Says(e: Entry, address: nat, info: Info) {
    && e.address == address && e.lineno == info.lineno
    && e.file == (if info.file.Some? then info.file.value else "???")
    && e.symbol == (if info.symbol.Some? then info.symbol.value else "???")
  }

  // From position at on, and as far as the table goes, stand the lines of an address in a
  // section: the line of the byte before it, and the inliners of the address itself.
  predicate Stand(o: Object, s: Section, address: nat, es: seq<Entry>, at: nat)
    requires s.vma <= address
  {
    var chain := o.inliners(s, address - s.vma);
    && (at < |es| ==> Says(es[at], address, o.nearest(s, (address - s.vma - 1) % 0x1_0000_0000_0000_0000)))
    && forall j | 0 <= j < |chain| && at + 1 + j < |es| :: Says(es[at + 1 + j], address, chain[j])
  }

  // The lines of a frame stand from position at on and before position next. A frame
  // without an object, or in no section of it, has none.
  ghost predicate LinesOf(f: Frame, es: seq<Entry>, at: nat, next: nat) {
    var address := (f.address - f.base) % 0x1_0000_0000_0000_0000;
    && (f.obj.None? || (forall k :: !Holder(f.obj.value.sections, address, k)) ==> next == at)
    && forall k | f.obj.Some? && Holder(f.obj.value.sections, address, k) ::
         var o, s := f.obj.value, f.obj.value.sections[k];
         next == at + 1 + |o.inliners(s, address - s.vma)| && Stand(o, s, address, es, at)
  }

  // The lines of each frame stand after those of the frames before it, and the table has
  // the first 64 lines.
  ghost predicate Laid(frames: seq<Frame>, es: seq<Entry>, starts: seq<nat>) {
    && |starts| == |frames| + 1 && starts[0] == 0
    && |es| == (if starts[|frames|] < 64 then starts[|frames|] else 64)
    && forall i | 0 <= i < |frames| :: LinesOf(frames[i], es, starts[i], starts[i + 1])
  }

  // The lines of an object are those of its first section covering the address.
  lemma {:induction false} FirstSection(o: Object, sections: seq<Section>, address: nat, backoff: nat, k: nat)
    requires k <= |sections|
    requires forall j | 0 <= j < k :: !Covers(sections[j], address)
    ensures ObjectLines(o, sections, address, backoff) ==
      if k == |sections| then []
      else if Covers(sections[k], address) then SectionLines(o, sections[k], address, backoff)
      else ObjectLines(o, sections[k + 1..], address, backoff)
    decreases k
  {
    hide SectionLines, Covers;
    if k > 0 {
      FirstSection(o, sections[1..], address, backoff, k - 1);
      if k < |sections| {
        assert sections[1..][k - 1 + 1..] == sections[k + 1..];
      }
    }
  }

  lemma {:induction false} FindHolder(sections: seq<Section>, address: nat) returns (k: nat)
    ensures k <= |sections| && forall j | 0 <= j < k :: !Inside(sections[j], address)
    ensures k < |sections| ==> Inside(sections[k], address)
  {
    if sections == [] || Inside(sections[0], address) {
      k := 0;
    } else {
      k := FindHolder(sections[1..], address);
      k := k + 1;
    }
  }

  lemma SectionStands(o: Object, s: Section, address: nat, es: seq<Entry>, at: nat)
    requires s.vma <= address < WORD
    requires var lines := SectionLines(o, s, address, 1);
      forall j | 0 <= j < |lines| && at + j < |es| :: es[at + j] == lines[j]
    ensures |SectionLines(o, s, address, 1)| == 1 + |o.inliners(s, address - s.vma)|
    ensures Stand(o, s, address, es, at)
  {
    hide SectionLines;
    LinesAt(o, s, address, 1);
    var lines, chain := SectionLines(o, s, address, 1), o.inliners(s, address - s.vma);
    assert at < |es| ==> es[at] == lines[0];
    forall j | 0 <= j < |chain| && at + 1 + j < |es| ensures Says(es[at + 1 + j], address, chain[j]) {
      assert es[at + (1 + j)] == lines[1 + j];
    }
  }

  // The lines of one frame, wherever they stand.
  lemma FrameStands(f: Frame, es: seq<Entry>, at: nat)
    requires var lines := FrameLines(f, 1);
      forall j | 0 <= j < |lines| && at + j < |es| :: es[at + j] == lines[j]
    ensures LinesOf(f, es, at, at + |FrameLines(f, 1)|)
  {
    hide SectionLines, Stand, ObjectLines;
    if f.obj.Some? {
      var o, address := f.obj.value, (f.address - f.base) % WORD;
      var first := FindHolder(o.sections, address);
      FirstSection(o, o.sections, address, 1, first);
      forall k | Holder(o.sections, address, k) ensures k == first {
      }
      if first < |o.sections| {
        assert Holder(o.sections, address, first);
        SectionStands(o, o.sections[first], address, es, at);
      }
    }
  }

  // A whole stack, as far as the table goes.
  lemma {:induction false} StackStands(frames: seq<Frame>, es: seq<Entry>) returns (starts: seq<nat>)
    requires forall j | 0 <= j < |es| && j < |Trace(frames)| :: es[j] == Trace(frames)[j]
    ensures |starts| == |frames| + 1 && starts[0] == 0 && starts[|frames|] == |Trace(frames)|
    ensures forall i | 0 <= i < |frames| :: LinesOf(frames[i], es, starts[i], starts[i + 1])
  {
    hide FrameLines, LinesOf;
    if frames == [] {
      starts := [0];
    } else {
      assert Trace(frames) == Trace(frames[..|frames| - 1]) + FrameLines(frames[|frames| - 1], 1);
      hide Trace;
      var last, before := |frames| - 1, Trace(frames[..|frames| - 1]);
      var past := StackStands(frames[..last], es);
      starts := past + [|Trace(frames)|];
      FrameStands(frames[last], es, |before|);
      forall i | 0 <= i < |frames| ensures LinesOf(frames[i], es, starts[i], starts[i + 1]) {
        if i < last {
          assert LinesOf(frames[..last][i], es, past[i], past[i + 1]);
        }
      }
    }
  }

  // Entry k is handed out exactly when it is not excluded and not stripped, and then
  // after those before it: it is number Kept(es, strip, k) of the iteration.
  function Kept(es: seq<Entry>, strip: nat, k: nat): nat
    requires k <= |es|
  {
    if k <= strip then 0
    else Kept(es, strip, k - 1) + (if es[k - 1].symbol == "todo" then 0 else 1)
  }

  lemma SliceNext<T>(s: seq<T>, a: nat, x: T, rest: seq<T>)
    requires a <= |s| && s[a..] == [x] + rest
    ensures a < |s| && s[a + 1..] == rest
  {
    assert s[a + 1..] == s[a..][1..];
  }

  lemma RemainingNext(es: seq<Entry>, k: nat)
    requires k < |es|
    ensures Remaining(es, k) == if Excluded(es[k]) then Remaining(es, k + 1) else [es[k]] + Remaining(es, k + 1)
  {
    hide Excluded;
  }

  lemma KeptStart(es: seq<Entry>, strip: nat)
    requires strip <= |es|
    ensures Kept(es, strip, strip) == 0
  {
  }

  lemma KeptNext(es: seq<Entry>, strip: nat, k: nat)
    requires strip < k <= |es|
    ensures Kept(es, strip, k) == Kept(es, strip, k - 1) + (if Excluded(es[k - 1]) then 0 else 1)
  {
  }

  lemma {:induction false} RemainingDrops(es: seq<Entry>, strip: nat, k: nat)
    requires strip <= k <= |es|
    ensures Kept(es, strip, k) <= |Remaining(es, strip)|
    ensures Remaining(es, strip)[Kept(es, strip, k)..] == Remaining(es, k)
    decreases k
  {
    hide Excluded, Remaining, Kept;
    KeptStart(es, strip);
    if k > strip {
      RemainingDrops(es, strip, k - 1);
      RemainingNext(es, k - 1);
      KeptNext(es, strip, k);
      if !Excluded(es[k - 1]) {
        SliceNext(Remaining(es, strip), Kept(es, strip, k - 1), es[k - 1], Remaining(es, k));
      }
    }
  }

  lemma HandedOut(es: seq<Entry>, strip: nat, k: nat)
    requires strip <= k < |es| && es[k].symbol != "todo"
    ensures Kept(es, strip, k) < |Remaining(es, strip)|
    ensures Remaining(es, strip)[Kept(es, strip, k)] == es[k]
  {
    RemainingDrops(es, strip, k);
    assert Remaining(es, k) == [es[k]] + Remaining(es, k + 1);
    assert Remaining(es, strip)[Kept(es, strip, k)] == Remaining(es, strip)[Kept(es, strip, k)..][0];
  }

  lemma NothingElse(es: seq<Entry>, strip: nat)
    ensures strip <= |es| ==> |Remaining(es, strip)| == Kept(es, strip, |es|)
    ensures strip > |es| ==> Remaining(es, strip) == []
  {
    if strip <= |es| {
      RemainingDrops(es, strip, |es|);
    }
  }

  // ----- The process heap -----

  // Blocks are named by numbers that are never used again; a block may be freed once.
  class Heap {
    var live: map<nat, string>
    var next: nat

    constructor ()
      ensures live == map[] && next == 0
    {
      live, next := map[], 0;
    }

    ghost predicate Valid()
      reads this
    {
      forall p | p in live :: p < next
    }

    method Alloc(text: string) returns (p: nat)
      requires Valid()
      modifies this
      ensures Valid() && p == old(next) && next == p + 1 && live == old(live)[p := text]
    {
      p := next;
      live := live[p := text];
      next := next + 1;
    }

    method Free(p: nat)
      requires Valid() && p in live
      modifies this
      ensures Valid() && next == old(next) && live == old(live) - {p}
    {
      live := live - {p};
    }
  }

  // ----- The object-file library -----

  // An open object file; looking up a line positions the inliner chain.
  class ObjectFile {
    const data: Object
    var chain: seq<Info>

    constructor (data: Object)
      ensures this.data == data
    {
      this.data := data;
      chain := [];
    }

    method FindNearestLine(s: Section, offset: nat) returns (info: Info)
      modifies this
      ensures info == data.nearest(s, offset) && chain == data.inliners(s, offset)
    {
      info := data.nearest(s, offset);
      chain := data.inliners(s, offset);
    }

    method FindInlinerInfo() returns (info: Option<Info>)
      modifies this
      ensures old(chain) == [] ==> info == None && chain == []
      ensures old(chain) != [] ==> info == Some(old(chain)[0]) && chain == old(chain)[1..]
    {
      if chain == [] {
        info := None;
      } else {
        info := Some(chain[0]);
        chain := chain[1..];
      }
    }
  }

  // ----- The table -----

  datatype Line = Line(address: nat, file: nat, symbol: nat, lineno: nat)

  class Table {
    const heap: Heap
    const lines: array<Line>
    const handle: nat
    ghost const outside: map<nat, string>
    ghost var entries: seq<Entry>
    var size: nat
    var position: nat

    // Row k holds an entry, with its two strings in blocks of its own.
    ghost predicate Row(k: nat, e: Entry)
      requires k < lines.Length
      reads lines, heap
    {
      && lines[k] == Line(e.address, handle + 1 + 2 * k, handle + 2 + 2 * k, e.lineno)
      && handle + 1 + 2 * k in heap.live && heap.live[handle + 1 + 2 * k] == e.file
      && handle + 2 + 2 * k in heap.live && heap.live[handle + 2 + 2 * k] == e.symbol
    }

    // The first rows hold the entries; their strings and the table itself are the only
    // blocks beside the ones that were there before it.
    ghost predicate Holds()
      reads this`entries, lines, heap
    {
      && heap.Valid() && lines.Length == BACKTRACE_MAX && |entries| <= BACKTRACE_MAX
      && handle in heap.live
      && (forall k | 0 <= k < |entries| :: Row(k, entries[k]))
      && (forall p | p in outside :: p < handle && p in heap.live && heap.live[p] == outside[p])
      && (forall p | p in heap.live :: p in outside || handle <= p <= handle + 2 * |entries|)
    }

    ghost predicate Valid()
      reads this`entries, this`size, lines, heap
    {
      Holds() && size == |entries|
    }

    // Rows are being added.
    ghost predicate Filling()
      reads this`entries, lines, heap
    {
      Holds() && heap.next == handle + 1 + 2 * |entries|
    }

    constructor (heap: Heap, strip: nat)
      requires heap.Valid()
      modifies heap
      ensures this.heap == heap && fresh(lines) && Filling() && Valid() && entries == [] && position == strip
      ensures outside == old(heap.live)
    {
      this.heap := heap;
      lines := new Line[BACKTRACE_MAX](_ => Line(0, 0, 0, 0));
      size, position := 0, strip;
      handle := heap.next;
      outside := heap.live;
      entries := [];
      new;
      var block := heap.Alloc("");
    }

    // Store one line in the next row.
    method Put(n: nat, address: nat, info: Info)
      requires Filling() && n == |entries| < BACKTRACE_MAX
      modifies heap, lines, this`entries
      ensures Filling() && entries == old(entries) + [Named(address, info)]
    {
      hide Named;
      var e := Named(address, info);
      var file := heap.Alloc(e.file);
      var symbol := heap.Alloc(e.symbol);
      lines[n] := Line(e.address, file, symbol, e.lineno);
      entries := entries + [e];
      forall k | 0 <= k < n ensures Row(k, entries[k]) {
        assert old(Row(k, entries[k])) && entries[k] == old(entries[k]);
      }
      assert Row(n, entries[n]);
    }

    // The section callback of one search that has found count lines so far.
    method FindAddressInSection(file: ObjectFile, section: Section, address: nat, backoff: nat,
                                max: nat, count: nat) returns (found: nat)
      requires Filling() && |entries| == size + count && count <= max && size + max <= BACKTRACE_MAX
      modifies heap, lines, this`entries, file
      ensures count <= found <= max && Filling() && |entries| == size + found
      ensures entries == old(entries) +
        if count > 0 || max == 0 || !Covers(section, address) then []
        else First(SectionLines(file.data, section, address, backoff), max)
    {
      hide Filling, Named, SectionLines;
      found := count;
      if count > 0 || max == 0 || !section.alloc {
        return;
      }
      if address < section.vma {
        return;
      }
      if address >= (section.vma + section.size) % WORD {
        return;
      }
      ghost var es := SectionLines(file.data, section, address, backoff);
      ghost var chain := file.data.inliners(section, (address - section.vma) % WORD);
      LinesAt(file.data, section, address, backoff);
      var info := file.FindNearestLine(section, (address - section.vma - backoff) % WORD);
      var more := true;
      while more
        invariant found <= |es| && found <= max && Filling()
        invariant entries == old(entries) + es[..found]
        invariant more ==> found < max && found < |es| && Named(address, info) == es[found]
        invariant more && found > 0 ==> file.chain == chain[found..]
        invariant !more ==> found == max || found == |es|
        decreases max - found, more
      {
        Put(size + found, address, info);
        if found == 0 {
          var original := file.FindNearestLine(section, (address - section.vma) % WORD);
        }
        found := found + 1;
        var inliner := file.FindInlinerInfo();
        if inliner.Some? {
          info := inliner.value;
        }
        more := inliner.Some? && found < max;
      }
      assert es[..found] == First(es, max);
    }

    // All lines of one address, at most max of them.
    method GetLineInfo(file: ObjectFile, address: nat, backoff: nat, max: nat) returns (count: nat)
      requires Valid() && Filling() && size + max <= BACKTRACE_MAX
      modifies heap, lines, this`entries, file
      ensures Filling() && |entries| == size + count
      ensures entries == old(entries) + First(ObjectLines(file.data, file.data.sections, address, backoff), max)
    {
      hide Filling, SectionLines, Covers;
      count := 0;
      var sections := file.data.sections;
      assert sections[0..] == sections;
      for k := 0 to |sections|
        invariant count <= max && Filling() && |entries| == size + count
        invariant old(entries) + First(ObjectLines(file.data, sections, address, backoff), max)
          == entries + if count > 0 || max == 0 then []
                       else First(ObjectLines(file.data, sections[k..], address, backoff), max)
      {
        count := FindAddressInSection(file, sections[k], address, backoff, max, count);
        assert sections[k..][0] == sections[k] && sections[k..][1..] == sections[k + 1..];
      }
    }

    // Collect the lines of a whole stack.
    method Collect(frames: seq<Frame>)
      requires Filling() && entries == [] && size == 0
      modifies heap, lines, this`entries, this`size
      ensures Valid() && entries == First(Trace(frames), BACKTRACE_MAX)
      ensures exists starts :: Laid(frames, entries, starts)
    {
      hide ObjectLines, LinesOf;
      for i := 0 to |frames|
        invariant Filling() && size == |entries|
        invariant entries == First(Trace(frames[..i]), BACKTRACE_MAX)
      {
        assert frames[..i + 1][..i] == frames[..i];
        if frames[i].obj.Some? {
          var file := new ObjectFile(frames[i].obj.value);
          var count := GetLineInfo(file, (frames[i].address - frames[i].base) % WORD, 1, BACKTRACE_MAX - size);
          size := size + count;
        }
      }
      assert frames[..|frames|] == frames;
      ghost var starts := StackStands(frames, entries);
      assert Laid(frames, entries, starts);
    }

    // The next line that is not excluded, if any.
    method Next() returns (line: Option<Entry>)
      requires Valid()
      modifies this`position
      ensures var rest := old(Remaining(entries, position));
        if rest == [] then line == None && Remaining(entries, position) == []
        else line == Some(rest[0]) && Remaining(entries, position) == rest[1..]
    {
      ghost var rest := Remaining(entries, position);
      while true
        invariant Remaining(entries, position) == rest
        decreases size - position
      {
        if position >= size {
          return None;
        }
        var ln := lines[position];
        assert Row(position, entries[position]);
        var e := Entry(ln.address, heap.live[ln.file], heap.live[ln.symbol], ln.lineno);
        position := position + 1;
        if !Excluded(e) {
          return Some(e);
        }
      }
    }

    // Free every string once, then the table; nothing else is freed or left behind.
    method Destroy()
      requires Valid()
      modifies heap, this`size
      ensures size == 0 && heap.Valid() && heap.live == outside
    {
      for i := 0 to size
        invariant heap.Valid() && handle in heap.live && size == |entries|
        invariant forall k | i <= k < |entries| :: Row(k, entries[k])
        invariant forall p | p in outside :: p < handle && p in heap.live && heap.live[p] == outside[p]
        invariant forall p | p in heap.live ::
          p in outside || p == handle || handle + 2 * i < p <= handle + 2 * |entries|
      {
        assert Row(i, entries[i]);
        label before:
        heap.Free(lines[i].symbol);
        heap.Free(lines[i].file);
        forall k | i < k < |entries| ensures Row(k, entries[k]) {
          assert old@before(Row(k, entries[k]));
        }
      }
      size := 0;
      heap.Free(handle);
      assert heap.live.Keys == outside.Keys;
    }
  }

  // Print a backtrace: the lines shown, numbered from 0, unless the table cannot be
  // allocated. The heap is left as it was found.
  method PrintBacktrace(heap: Heap, frames: seq<Frame>, strip: nat, memory: bool) returns (shown: seq<(nat, Entry)>)
    requires heap.Valid()
    modifies heap
    ensures heap.Valid() && heap.live == old(heap.live)
    ensures var es := if memory then Remaining(First(Trace(frames), BACKTRACE_MAX), strip) else [];
      |shown| == |es| && forall k | 0 <= k < |es| :: shown[k] == (k, es[k])
  {
    hide Remaining, Trace, First;
    shown := [];
    if !memory {
      return;
    }
    var table := new Table(heap, strip);
    table.Collect(frames);
    ghost var es := Remaining(table.entries, table.position);
    var idx := 0;
    var line := table.Next();
    while line.Some?
      invariant table.Valid() && idx <= |es|
      invariant line.Some? ==> idx < |es| && line.value == es[idx]
      invariant line.Some? ==> Remaining(table.entries, table.position) == es[idx + 1..]
      invariant line.None? ==> idx == |es|
      invariant |shown| == idx && forall k | 0 <= k < idx :: shown[k] == (k, es[k])
      decreases |es| - idx
    {
      shown := shown + [(idx, line.value)];
      line := table.Next();
      idx := idx + 1;
    }
    table.Destroy();
  }
}
