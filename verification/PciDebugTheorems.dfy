/**
 What sessions of the BAR memory editor promise: a fill reads back as its arithmetic
 progression, every byte is the last one stored there, and no result depends on the
 byte order of the host.
 */
module PciDebugTheorems {
  import opened Common
  import opened Words
  import opened PciDebugSpec
  import opened PciDebug

  // ----- The bytes of a fill -----

  // Which word byte j of a run of n-byte words is in, and which of its bytes it is.
  function WordOf(n: nat, j: nat): nat
    requires IsWord(n)
  {
    j / n
  }

  function LaneOf(n: nat, j: nat): (b: nat)
    requires IsWord(n)
    ensures b < n
  {
    j % n
  }

  lemma InWord(n: nat, i: nat, j: nat)
    requires IsWord(n) && Offset(n, i) <= j < Offset(n, i) + n
    ensures WordOf(n, j) == i && LaneOf(n, j) == j - Offset(n, i)
  {
  }

  // Byte j of an unbounded fill: the right byte, in the mode's order, of the right term.
  function FillByte(big: bool, n: nat, val: int, inc: int, j: nat): Byte
    requires IsWord(n)
  {
    Encode(big, n, Word(Term(val, inc, WordOf(n, j)), n))[LaneOf(n, j)]
  }

  lemma FillByteInWord(big: bool, n: nat, val: int, inc: int, i: nat, lane: nat)
    requires IsWord(n) && lane < n
    ensures FillByte(big, n, val, inc, Offset(n, i) + lane) == Encode(big, n, Word(Term(val, inc, i), n))[lane]
  {
    hide WordOf, LaneOf, Offset, Encode, Word, Term;
    InWord(n, i, Offset(n, i) + lane);
  }

  lemma FilledStep(m: seq<Byte>, big: bool, n: nat, addr: nat, val: int, inc: int, count: nat, k: nat)
    requires IsWord(n) && addr + Offset(n, count + 1) <= |m| && k < |m|
    ensures Offset(n, count + 1) == Offset(n, count) + n
    ensures Filled(m, big, n, addr, val, inc, count + 1)[k] ==
      if addr + Offset(n, count) <= k < addr + Offset(n, count) + n then FillByte(big, n, val, inc, k - addr)
      else Filled(m, big, n, addr, val, inc, count)[k]
  {
    hide *;
    OffsetNext(n, count);
    FilledNext(m, big, n, addr, val, inc, count);
    if addr + Offset(n, count) <= k < addr + Offset(n, count) + n {
      FillByteInWord(big, n, val, inc, count, k - addr - Offset(n, count));
    }
  }

  // Byte k of a filled region, in closed form.
  lemma {:induction false} FilledAt(m: seq<Byte>, big: bool, n: nat, addr: nat, val: int, inc: int, count: nat, k: nat)
    requires IsWord(n) && addr + Offset(n, count) <= |m| && k < |m|
    ensures Filled(m, big, n, addr, val, inc, count)[k] ==
      if addr <= k < addr + Offset(n, count) then FillByte(big, n, val, inc, k - addr) else m[k]
    decreases count
  {
    hide *;
    FilledNone(m, big, n, addr, val, inc);
    if count > 0 {
      FilledStep(m, big, n, addr, val, inc, count - 1, k);
      FilledAt(m, big, n, addr, val, inc, count - 1, k);
    }
  }

  lemma FilledLane(m: seq<Byte>, big: bool, n: nat, addr: nat, val: int, inc: int, count: nat, i: nat, lane: nat)
    requires IsWord(n) && addr + Offset(n, count) <= |m| && i < count && lane < n
    ensures addr + Offset(n, i) + n <= |m|
    ensures Filled(m, big, n, addr, val, inc, count)[addr + Offset(n, i) + lane]
         == Encode(big, n, Word(Term(val, inc, i), n))[lane]
  {
    hide *;
    OffsetFits(n, i, count);
    FilledInside(m, big, n, addr, val, inc, count, Offset(n, i) + lane);
    FillByteInWord(big, n, val, inc, i, lane);
  }

  lemma FilledInside(m: seq<Byte>, big: bool, n: nat, addr: nat, val: int, inc: int, count: nat, j: nat)
    requires IsWord(n) && addr + Offset(n, count) <= |m| && j < Offset(n, count)
    ensures Filled(m, big, n, addr, val, inc, count)[addr + j] == FillByte(big, n, val, inc, j)
  {
    hide *;
    FilledAt(m, big, n, addr, val, inc, count, addr + j);
  }

  lemma FilledWord(m: seq<Byte>, big: bool, n: nat, addr: nat, val: int, inc: int, count: nat, i: nat)
    requires IsWord(n) && addr + Offset(n, count) <= |m| && i < count
    ensures addr + Offset(n, i) + n <= |m|
    ensures Filled(m, big, n, addr, val, inc, count)[addr + Offset(n, i)..addr + Offset(n, i) + n]
         == Encode(big, n, Word(Term(val, inc, i), n))
  {
    hide *;
    OffsetFits(n, i, count);
    var at, f := addr + Offset(n, i), Filled(m, big, n, addr, val, inc, count);
    var e := Encode(big, n, Word(Term(val, inc, i), n));
    forall lane | 0 <= lane < n ensures f[at + lane] == e[lane] {
      FilledLane(m, big, n, addr, val, inc, count, i, lane);
    }
    SameSlice(f, at, e);
  }

  lemma SameSlice(m: seq<Byte>, at: nat, e: seq<Byte>)
    requires at + |e| <= |m| && forall b | 0 <= b < |e| :: m[at + b] == e[b]
    ensures m[at..at + |e|] == e
  {
  }

  lemma {:induction false} CellsIndex(m: seq<Byte>, big: bool, n: nat, addr: nat, count: nat, i: nat)
    requires addr + Offset(n, count) <= |m| && i < count
    ensures addr + Offset(n, i) + n <= |m|
    ensures Cells(m, big, n, addr, count)[i] == CellAt(m, big, n, addr, i)
    decreases count
  {
    OffsetFits(n, i, count);
    OffsetNext(n, count - 1);
    if i < count - 1 {
      CellsIndex(m, big, n, addr, count - 1, i);
    }
  }

  // Listing a filled range shows the progression in the mode of the fill, and its
  // byte-swapped values in the other mode.
  lemma FilledCells(m: seq<Byte>, big: bool, mode: bool, n: nat, addr: nat, val: int, inc: int, count: nat, i: nat)
    requires IsWord(n) && addr + Offset(n, count) <= |m| && i < count
    ensures var w := Word(Term(val, inc, i), n);
      Cells(Filled(m, big, n, addr, val, inc, count), mode, n, addr, count)[i]
      == Cell(Row(addr, Offset(n, i)), if mode == big then w else Swapped(w, n))
  {
    hide Encode, Decode, Term, Word, Filled;
    var f := Filled(m, big, n, addr, val, inc, count);
    FilledWord(m, big, n, addr, val, inc, count, i);
    CellsIndex(f, mode, n, addr, count, i);
    DecodeEncode(big, n, Word(Term(val, inc, i), n));
    assert mode == big || mode == !big;
  }

  // The listing of exactly the words a fill has written.
  function ListFilled(c: Command, size: nat): (d: Command)
    requires c.Fill? && InRange(c, size) && c.addr <= size && WordBytes(c.width) > 0
    ensures d.Display? && d.addr == c.addr && d.width == c.width
    ensures InRange(d, size) && Count(d, size) == Count(c, size)
  {
    var n, count := WordBytes(c.width), Count(c, size);
    SameLength(n, count, c.addr, size);
    Display(c.width, c.addr, Offset(n, count))
  }

  lemma SameLength(n: nat, count: nat, addr: nat, size: nat)
    requires IsWord(n) && addr + Offset(n, count) <= size < 0x8000_0000
    ensures Offset(n, count) < 0x8000_0000
    ensures Length(addr, Offset(n, count), size) == Offset(n, count)
    ensures ListCount(n, Offset(n, count)) == count
  {
  }

  lemma FillThenDisplay(t: Tool, c: Command, mode: bool)
    requires c.Fill? && InRange(c, |t.mem|) && c.addr <= |t.mem| && WordBytes(c.width) > 0
    ensures var n, d := WordBytes(c.width), ListFilled(c, |t.mem|);
      var shown := Exec(Exec(t, c).0.(big := mode), d).1;
      && shown.Listing?
      && |shown.cells| == Count(c, |t.mem|)
      && forall i | 0 <= i < |shown.cells| :: shown.cells[i].value ==
           var w := Word(Term(c.val, Increment(c.inc), i), n); if mode == t.big then w else Swapped(w, n)
  {
    hide Filled, Encode, Word, Term, Swapped, Count, WordBytes, Cells, ListFilled;
    var n, d := WordBytes(c.width), ListFilled(c, |t.mem|);
    var count := Count(c, |t.mem|);
    var shown := Exec(Exec(t, c).0.(big := mode), d).1;
    forall i | 0 <= i < count ensures shown.cells[i].value ==
      var w := Word(Term(c.val, Increment(c.inc), i), n); if mode == t.big then w else Swapped(w, n) {
      FilledCells(t.mem, t.big, mode, n, c.addr, c.val, Increment(c.inc), count, i);
    }
  }

  // ----- A fill is a run of changes -----

  function Changes(c: Command, count: nat): (s: seq<Command>)
    requires c.Fill? && c.addr + Offset(WordBytes(c.width), count) < 0x8000_0000
    ensures |s| == count
  {
    var n := WordBytes(c.width);
    if count == 0 then []
    else
      OffsetNext(n, count - 1);
      Pow256Four();
      Changes(c, count - 1)
      + [Change(c.width, c.addr + Offset(n, count - 1), Word(Term(c.val, Increment(c.inc), count - 1), 4))]
  }

  lemma Pow256Four()
    ensures Pow256(4) == 0x1_0000_0000
  {
    Powers();
  }

  lemma {:induction false} ChangesInRange(c: Command, count: nat, size: nat)
    requires c.Fill? && c.addr + Offset(WordBytes(c.width), count) <= size < 0x8000_0000
    ensures AllInRange(Changes(c, count), size)
    decreases count
  {
    if count > 0 {
      OffsetNext(WordBytes(c.width), count - 1);
      ChangesInRange(c, count - 1, size);
    }
  }

  // What a change stores when its value has been cut to 32 bits.
  lemma ChangeStores(t: Tool, width: Option<int>, addr: U32, x: int)
    requires WordBytes(width) > 0 && addr + WordBytes(width) <= |t.mem| < 0x8000_0000
    ensures Word(x, 4) < 0x1_0000_0000 && InRange(Change(width, addr, Word(x, 4)), |t.mem|)
    ensures Exec(t, Change(width, addr, Word(x, 4))).0
         == t.(mem := Put(t.mem, addr, Encode(t.big, WordBytes(width), Word(x, WordBytes(width)))))
  {
    hide Encode, Put, Word, WordBytes;
    Pow256Four();
    OffsetNext(WordBytes(width), 0);
    Truncated(x, WordBytes(width));
  }

  lemma {:induction false} FillIsChanges(t: Tool, c: Command, count: nat)
    requires c.Fill? && WordBytes(c.width) > 0
    requires c.addr + Offset(WordBytes(c.width), count) <= |t.mem| < 0x8000_0000
    ensures AllInRange(Changes(c, count), |t.mem|)
    ensures Play(t, Changes(c, count)).0
         == t.(mem := Filled(t.mem, t.big, WordBytes(c.width), c.addr, c.val, Increment(c.inc), count))
    decreases count
  {
    hide Encode, Word, Put, Term, Offset, WordBytes, Increment, Exec, InRange;
    var n, inc, all := WordBytes(c.width), Increment(c.inc), Changes(c, count);
    ChangesInRange(c, count, |t.mem|);
    if count > 0 {
      OffsetNext(n, count - 1);
      FillIsChanges(t, c, count - 1);
      assert all[..count - 1] == Changes(c, count - 1);
      var before := t.(mem := Filled(t.mem, t.big, n, c.addr, c.val, inc, count - 1));
      assert InRange(all[count - 1], |t.mem|);
      ChangeStores(before, c.width, c.addr + Offset(n, count - 1), Term(c.val, inc, count - 1));
    }
  }

  // The fill command leaves the region as that many change commands would.
  lemma FillByHand(t: Tool, c: Command)
    requires c.Fill? && InRange(c, |t.mem|) && c.addr <= |t.mem| && WordBytes(c.width) > 0
    ensures AllInRange(Changes(c, Count(c, |t.mem|)), |t.mem|)
    ensures Exec(t, c).0 == Play(t, Changes(c, Count(c, |t.mem|))).0
  {
    FillIsChanges(t, c, Count(c, |t.mem|));
  }

  // ----- Every byte is the last one stored there -----

  predicate Stores(c: Command, size: nat, k: nat) {
    (c.Change? || c.Fill?) && c.addr <= size
    && c.addr <= k < c.addr + Offset(WordBytes(c.width), Count(c, size))
  }

  // The byte a command stores at k.
  function StoredByte(c: Command, size: nat, big: bool, k: nat): Byte
    requires Stores(c, size, k) && WordBytes(c.width) > 0
  {
    OffsetNext(WordBytes(c.width), 0);
    var n, j := WordBytes(c.width), k - c.addr;
    if c.Change? then Encode(big, n, Word(c.val, n))[j] else FillByte(big, n, c.val, Increment(c.inc), j)
  }

  lemma ExecBytes(t: Tool, c: Command, k: nat)
    requires InRange(c, |t.mem|) && k < |t.mem|
    ensures !Stores(c, |t.mem|, k) ==> Exec(t, c).0.mem[k] == t.mem[k]
    ensures Stores(c, |t.mem|, k) ==>
      WordBytes(c.width) > 0 && Exec(t, c).0.mem[k] == StoredByte(c, |t.mem|, t.big, k)
  {
    hide Encode, Word, Put, FillByte, Filled, Cells;
    var size := |t.mem|;
    if c.Fill? && c.addr <= size && WordBytes(c.width) > 0 {
      FilledAt(t.mem, t.big, WordBytes(c.width), c.addr, c.val, Increment(c.inc), Count(c, size), k);
    }
  }

  // No command of a session stores at k after the first p of them.
  predicate Untouched(cmds: seq<Command>, size: nat, k: nat, p: nat) {
    forall q {:trigger cmds[q]} | p <= q < |cmds| :: !Stores(cmds[q], size, k)
  }

  lemma {:induction false} StaysPut(t: Tool, cmds: seq<Command>, k: nat, p: nat)
    requires AllInRange(cmds, |t.mem|) && k < |t.mem| && p <= |cmds| && Untouched(cmds, |t.mem|, k, p)
    ensures Play(t, cmds).0.mem[k] == Play(t, cmds[..p]).0.mem[k]
    decreases |cmds|
  {
    if p == |cmds| {
      assert cmds[..p] == cmds;
    } else {
      var last := |cmds| - 1;
      assert cmds[..last][..p] == cmds[..p];
      StaysPut(t, cmds[..last], k, p);
      ExecBytes(Play(t, cmds[..last]).0, cmds[last], k);
    }
  }

  // A byte holds what the last command storing there put in it, in the mode of that
  // moment; if none did, what it held at the start.
  lemma LastStoreWins(t: Tool, cmds: seq<Command>, k: nat, p: nat)
    requires AllInRange(cmds, |t.mem|) && k < |t.mem|
    ensures Untouched(cmds, |t.mem|, k, 0) ==> Play(t, cmds).0.mem[k] == t.mem[k]
    ensures p < |cmds| && Stores(cmds[p], |t.mem|, k) && Untouched(cmds, |t.mem|, k, p + 1) ==>
      && WordBytes(cmds[p].width) > 0
      && Play(t, cmds).0.mem[k] == StoredByte(cmds[p], |t.mem|, Play(t, cmds[..p]).0.big, k)
  {
    if Untouched(cmds, |t.mem|, k, 0) {
      StaysPut(t, cmds, k, 0);
    }
    if p < |cmds| && Stores(cmds[p], |t.mem|, k) && Untouched(cmds, |t.mem|, k, p + 1) {
      StaysPut(t, cmds, k, p + 1);
      assert cmds[..p + 1][..p] == cmds[..p];
      ExecBytes(Play(t, cmds[..p]).0, cmds[p], k);
    }
  }

  predicate SetsMode(c: Command) {
    c == SetEndian('b') || c == SetEndian('l')
  }

  // The mode is the last one set; the tool starts out little-endian.
  lemma {:induction false} LastModeWins(t: Tool, cmds: seq<Command>, p: nat)
    requires AllInRange(cmds, |t.mem|) && p <= |cmds|
    requires forall q {:trigger cmds[q]} | p <= q < |cmds| :: !SetsMode(cmds[q])
    ensures Play(t, cmds).0.big ==
      if p > 0 && SetsMode(cmds[p - 1]) then cmds[p - 1] == SetEndian('b') else Play(t, cmds[..p]).0.big
    decreases |cmds|
  {
    if p == |cmds| {
      assert cmds[..p] == cmds;
    } else {
      var last := |cmds| - 1;
      assert cmds[..last][..p] == cmds[..p];
      LastModeWins(t, cmds[..last], p);
    }
  }

  // ----- Reading and writing back -----

  // Changing a word to the value just listed for it leaves every byte as it was.
  lemma WriteBack(t: Tool, width: Option<int>, addr: U32)
    requires InRange(Change(width, addr, 0), |t.mem|) && addr <= |t.mem| && WordBytes(width) > 0
    ensures var d := Display(width, addr, WordBytes(width));
      && InRange(d, |t.mem|)
      && Exec(t, d).1.Listing? && |Exec(t, d).1.cells| == 1
      && var v := Exec(t, d).1.cells[0].value;
         v < 0x1_0000_0000 && Exec(t, Change(width, addr, v)).0 == t
  {
    hide Encode, Decode, Put, Word, Row, WordBytes, Length, ListCount, Offset, Cells;
    var n, m := WordBytes(width), t.mem;
    CellsNone(m, t.big, n, addr);
    OffsetNext(n, 0);
    SameLength(n, 1, addr, |m|);
    var d := Display(width, addr, n);
    assert Count(d, |m|) == 1;
    CellsIndex(m, t.big, n, addr, 1, 0);
    WordBack(m, t.big, n, addr);
  }

  lemma WordBack(m: seq<Byte>, big: bool, n: nat, addr: nat)
    requires IsWord(n) && addr + n <= |m|
    ensures var v := Decode(big, m[addr..addr + n]);
      v < 0x1_0000_0000 && Put(m, addr, Encode(big, n, Word(v, n))) == m
  {
    hide *;
    var b := m[addr..addr + n];
    EncodeDecode(big, b);
    Fits(Decode(big, b), n);
    assert Put(m, addr, b) == m;
  }

  lemma Fits(v: nat, n: nat)
    requires IsWord(n) && v < Pow256(n)
    ensures Word(v, n) == v && Pow256(n) <= 0x1_0000_0000
  {
    hide Pow256;
    Powers();
    if n == 1 {
    } else if n == 2 {
    } else {
    }
  }

  // ----- Which ranges stay inside the region -----

  // The end of a range, in 32-bit arithmetic.
  function RangeEnd(c: Command): U32
    requires c.Fill? || c.Display?
  {
    (c.addr + c.len) % 0x1_0000_0000
  }

  // A length rounded up to whole words.
  function RoundUp(n: nat, len: nat): nat
    requires IsWord(n)
  {
    if len % n == 0 then len else len + n - len % n
  }

  // Which fills and listings stay inside the region, for all addresses, lengths and
  // widths. A range that ends inside the region is always safe to fill, and safe to list
  // when its last word is whole or fits; a length that reads as negative touches nothing.
  // A range that ends past the region is given the region's own length, so it stays
  // inside only from address 0, or within the bytes left over from the whole words of the
  // region.
  lemma SafeRanges(c: Command, size: nat)
    requires (c.Fill? || c.Display?) && size < 0x8000_0000
    ensures InRange(c, size) <==>
      var n := WordBytes(c.width);
      || c.addr > size || n == 0
      || (RangeEnd(c) <= size && c.len >= 0x8000_0000)
      || (RangeEnd(c) <= size && c.len < 0x8000_0000 && (c.Fill? || c.addr + RoundUp(n, c.len) <= size))
      || (RangeEnd(c) > size && c.Fill? && c.addr <= size % n)
      || (RangeEnd(c) > size && c.Display? && c.addr == 0 && size % n == 0)
  {
    hide WordBytes, InRange;
    var n := WordBytes(c.width);
    if c.addr > size || n == 0 {
      NothingTouched(c, size);
    } else if RangeEnd(c) <= size && c.len >= 0x8000_0000 {
      NegativeLength(c, size);
    } else {
      SafeFor(c, size, n);
      if n == 1 {
      } else if n == 2 {
      } else {
      }
    }
  }

  lemma NothingTouched(c: Command, size: nat)
    requires (c.Fill? || c.Display?) && size < 0x8000_0000 && (c.addr > size || WordBytes(c.width) == 0)
    ensures InRange(c, size)
  {
  }

  lemma NegativeLength(c: Command, size: nat)
    requires (c.Fill? || c.Display?) && size < 0x8000_0000 && RangeEnd(c) <= size && c.len >= 0x8000_0000
    ensures InRange(c, size)
  {
    hide WordBytes;
    assert Length(c.addr, c.len, size) < 0;
    assert Count(c, size) == 0;
    assert Offset(WordBytes(c.width), 0) == 0;
  }

  lemma SafeFor(c: Command, size: nat, n: nat)
    requires (c.Fill? || c.Display?) && size < 0x8000_0000
    requires RangeEnd(c) > size || c.len < 0x8000_0000
    requires c.addr <= size && WordBytes(c.width) == n && IsWord(n)
    ensures var len := if RangeEnd(c) > size then size else c.len;
      InRange(c, size) <==> c.addr + (if c.Fill? then len - len % n else RoundUp(n, len)) <= size
  {
    hide WordBytes;
    var len := if RangeEnd(c) > size then size else c.len;
    assert Length(c.addr, c.len, size) == len;
    WholeWords(n, len);
  }

  lemma WholeWords(n: nat, len: nat)
    requires IsWord(n)
    ensures Offset(n, FillCount(n, len)) == len - len % n
    ensures Offset(n, ListCount(n, len)) == RoundUp(n, len)
  {
    if n == 1 {
    } else if n == 2 {
    } else {
    }
  }

  // ----- The host does not matter -----

  // One session on hosts of opposite byte order: the same bytes, mode and replies.
  method TwoHosts(little: Console, big: Console, file: Option<CmdFile>, quit: bool, typed: seq<Command>)
      returns (a: seq<Reply>, b: seq<Reply>)
    requires !little.hostBig && big.hostBig && little.mem != big.mem && little.bar == big.bar
    requires little.mem[..] == big.mem[..] && little.bigEndian == big.bigEndian
    requires AllInRange(SessionCommands(little.bar, file, quit, typed), little.mem.Length)
    modifies little, little.mem, big, big.mem
    ensures a == b && little.mem[..] == big.mem[..] && little.bigEndian == big.bigEndian
    ensures (little.View(), a) == Play(old(little.View()), SessionCommands(little.bar, file, quit, typed))
  {
    hide SessionCommands, AllInRange, Play;
    a := little.ParseCommand(file, quit, typed);
    b := big.ParseCommand(file, quit, typed);
    assert little.View() == big.View();
  }
}
