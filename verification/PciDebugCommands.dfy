/**
 What the commands of the BAR memory editor do, in bytes and plain numbers: the widths,
 where each byte of a word goes in either mode, how far a range reaches, and what a
 session is made of.
 */
module PciDebugCommands {
  import opened Common
  import opened Words
  import opened PciDebugSpec
  import opened PciDebug
  import opened PciDebugTheorems

  // A command with this width works on words of n bytes; without a width on 4.
  predicate Width(width: Option<int>, n: nat) {
    match width
    case None => n == 4
    case Some(w) => (w == 8 && n == 1) || (w == 16 && n == 2) || (w == 32 && n == 4)
  }

  // Byte p of a number, counted from the lowest.
  function Octet(v: nat, p: nat): nat
    requires p < 4
  {
    (if p == 0 then v else if p == 1 then v / 0x100 else if p == 2 then v / 0x1_0000 else v / 0x100_0000) % 0x100
  }

  // Which byte of a word is j bytes after its address.
  function Lane(big: bool, n: nat, j: nat): (p: nat)
    requires j < n
    ensures p < n
  {
    if big then n - 1 - j else j
  }

  // The bytes a range covers: all of the region when it ends past it, in 32-bit
  // arithmetic, and none when the length reads as a negative number.
  function Reach(addr: U32, len: U32, size: nat): nat {
    var used := if (addr + len) % 0x1_0000_0000 > size then size else len;
    if used < 0x8000_0000 then used else 0
  }

  lemma OctetIs(v: nat, p: nat)
    requires p < 4
    ensures Octet(v, p) == v / Pow256(p) % 0x100
  {
    Powers();
    assert Pow256(3) == 0x100_0000;
  }

  lemma EncodedByte(big: bool, n: nat, x: nat, j: nat)
    requires IsWord(n) && j < n
    ensures Encode(big, n, Word(x, n))[j] == Octet(x, Lane(big, n, j))
  {
    hide LeBytes, Octet, Word;
    var p := Lane(big, n, j);
    LowBytes(x, n);
    ByteOf(x, n, p);
    OctetIs(x, p);
  }

  lemma DecodedByte(big: bool, b: seq<Byte>, j: nat)
    requires IsWord(|b|) && j < |b|
    ensures Octet(Decode(big, b), Lane(big, |b|, j)) == b[j]
    ensures Decode(big, b) < Pow256(|b|)
  {
    hide LeBytes, Octet, Decode;
    var n, v, p := |b|, Decode(big, b), Lane(big, |b|, j);
    EncodeDecode(big, b);
    ByteOf(v, n, p);
    OctetIs(v, p);
  }

  lemma Widths(width: Option<int>, n: nat)
    ensures Width(width, n) ==> IsWord(n) && WordBytes(width) == n
    ensures (forall m :: !Width(width, m)) <==> WordBytes(width) == 0
  {
    if WordBytes(width) != 0 {
      assert Width(width, WordBytes(width));
    }
  }

  // A change stores the low bytes of the value at the address, lowest first in the little
  // mode and highest first in the big one, and nothing else changes.
  lemma ChangeDoes(t: Tool, width: Option<int>, addr: U32, val: U32, n: nat)
    requires |t.mem| < 0x8000_0000 && Width(width, n) && addr + n <= |t.mem|
    ensures InRange(Change(width, addr, val), |t.mem|)
    ensures var r := Exec(t, Change(width, addr, val));
      && r.1 == Silent && r.0.big == t.big
      && forall k | 0 <= k < |t.mem| :: r.0.mem[k] ==
           if addr <= k < addr + n then Octet(val, Lane(t.big, n, k - addr)) else t.mem[k]
  {
    hide Encode, Word, Octet, WordBytes, Width;
    Widths(width, n);
    OffsetNext(n, 0);
    forall j | 0 <= j < n ensures Encode(t.big, n, Word(val, n))[j] == Octet(val, Lane(t.big, n, j)) {
      EncodedByte(t.big, n, val, j);
    }
  }

  // Word i from the address on is val + i * step.
  predicate Filler(m: seq<Byte>, big: bool, n: nat, addr: nat, val: nat, step: nat, i: nat) {
    && addr + n * i + n <= |m|
    && forall j | 0 <= j < n <= 4 :: m[addr + n * i + j] == Octet(val + i * step, Lane(big, n, j))
  }

  // The number of whole words in the bytes of a fill, and of words that a listing starts.
  function Whole(bytes: nat, n: nat): nat
    requires n > 0
  {
    bytes / n
  }

  function Started(bytes: nat, n: nat): nat
    requires n > 0
  {
    (bytes + n - 1) / n
  }

  // A fill stores val, val + inc, val + 2 * inc and so on in the whole words of its range;
  // without an increment it counts up by 1. Nothing else changes.
  lemma FillDoes(t: Tool, width: Option<int>, addr: U32, val: U32, len: U32, inc: Option<U32>, n: nat)
    requires |t.mem| < 0x8000_0000 && Width(width, n) && addr <= |t.mem|
    requires addr + n * Whole(Reach(addr, len, |t.mem|), n) <= |t.mem|
    ensures InRange(Fill(width, addr, val, len, inc), |t.mem|)
    ensures var r, step: nat := Exec(t, Fill(width, addr, val, len, inc)), if inc.Some? then inc.value else 1;
      var count := Whole(Reach(addr, len, |t.mem|), n);
      && r.1 == Silent && r.0.big == t.big
      && (forall i | 0 <= i < count :: Filler(r.0.mem, t.big, n, addr, val, step, i))
      && (forall k | 0 <= k < |t.mem| && !(addr <= k < addr + n * count) :: r.0.mem[k] == t.mem[k])
  {
    hide Encode, Word, Term, Octet, WordBytes, Width, Filled, FillByte, Filler;
    Widths(width, n);
    var count, step: nat := Whole(Reach(addr, len, |t.mem|), n), if inc.Some? then inc.value else 1;
    assert Offset(n, count) == n * count;
    assert Count(Fill(width, addr, val, len, inc), |t.mem|) == count;
    var after := Filled(t.mem, t.big, n, addr, val, step, count);
    forall i | 0 <= i < count ensures Filler(after, t.big, n, addr, val, step, i) {
      FillerStored(t.mem, t.big, n, addr, val, step, count, i);
    }
    forall k | 0 <= k < |t.mem| && !(addr <= k < addr + n * count) ensures after[k] == t.mem[k] {
      FilledAt(t.mem, t.big, n, addr, val, step, count, k);
    }
  }

  lemma FillerStored(m: seq<Byte>, big: bool, n: nat, addr: nat, val: nat, step: nat, count: nat, i: nat)
    requires IsWord(n) && addr + Offset(n, count) <= |m| && i < count
    ensures Filler(Filled(m, big, n, addr, val, step, count), big, n, addr, val, step, i)
  {
    hide Encode, Word, Octet, Filled, Lane;
    FilledWord(m, big, n, addr, val, step, count, i);
    var after, at := Filled(m, big, n, addr, val, step, count), addr + Offset(n, i);
    assert Offset(n, i) == n * i && Term(val, step, i) == val + i * step;
    forall j | 0 <= j < n ensures after[at + j] == Octet(val + i * step, Lane(big, n, j)) {
      assert after[at + j] == after[at..at + n][j];
      EncodedByte(big, n, val + i * step, j);
    }
  }

  // A value of a listing: the word at this place, in the mode, with its address in front
  // when it starts a group of 16 bytes.
  predicate Shows(t: Tool, n: nat, addr: nat, i: nat, cell: Cell) {
    && addr + n * i + n <= |t.mem|
    && cell.row == (if n * i % 16 == 0 then Some(addr + n * i) else None)
    && cell.value < (if n == 1 then 0x100 else if n == 2 then 0x1_0000 else 0x1_0000_0000)
    && forall j | 0 <= j < n <= 4 :: Octet(cell.value, Lane(t.big, n, j)) == t.mem[addr + n * i + j]
  }

  // A listing shows every word that starts in its range, the last one whole.
  lemma DisplayDoes(t: Tool, width: Option<int>, addr: U32, len: U32, n: nat)
    requires |t.mem| < 0x8000_0000 && Width(width, n) && addr <= |t.mem|
    requires addr + n * Started(Reach(addr, len, |t.mem|), n) <= |t.mem|
    ensures InRange(Display(width, addr, len), |t.mem|)
    ensures var r := Exec(t, Display(width, addr, len));
      && r.0 == t && r.1.Listing? && |r.1.cells| == Started(Reach(addr, len, |t.mem|), n)
      && forall i | 0 <= i < |r.1.cells| :: Shows(t, n, addr, i, r.1.cells[i])
  {
    hide Decode, Octet, WordBytes, Width, Cells, Shows;
    Widths(width, n);
    var count := Started(Reach(addr, len, |t.mem|), n);
    assert Offset(n, count) == n * count;
    assert Count(Display(width, addr, len), |t.mem|) == count;
    forall i | 0 <= i < count ensures Shows(t, n, addr, i, Cells(t.mem, t.big, n, addr, count)[i]) {
      CellShows(t, n, addr, count, i);
    }
  }

  lemma CellShows(t: Tool, n: nat, addr: nat, count: nat, i: nat)
    requires IsWord(n) && addr + Offset(n, count) <= |t.mem| && i < count
    ensures Shows(t, n, addr, i, Cells(t.mem, t.big, n, addr, count)[i])
  {
    hide Decode, Octet, Cells, Lane, Pow256;
    CellsIndex(t.mem, t.big, n, addr, count, i);
    assert Offset(n, i) == n * i;
    Powers();
    var b := t.mem[addr + n * i..addr + n * i + n];
    forall j | 0 <= j < n
      ensures Octet(Decode(t.big, b), Lane(t.big, n, j)) == t.mem[addr + n * i + j]
      ensures Decode(t.big, b) < Pow256(n)
    {
      DecodedByte(t.big, b, j);
    }
    DecodedByte(t.big, b, 0);
  }

  // An address past the end is refused, then a width other than 8, 16 and 32; neither has
  // any effect.
  lemma Refused(t: Tool, c: Command)
    requires c.Change? || c.Fill? || c.Display?
    requires |t.mem| < 0x8000_0000 && (c.addr > |t.mem| || forall n :: !Width(c.width, n))
    ensures InRange(c, |t.mem|)
    ensures Exec(t, c) == (t, if c.addr > |t.mem| then InvalidAddress else SyntaxError)
  {
    hide Cells, Filled, Put, Encode, Width;
    Widths(c.width, 0);
    assert Offset(0, 0) == 0;
  }

  // The other commands: the mode is shown, or set by b and l; any other letter and a line
  // that does not parse are syntax errors.
  lemma ModeDoes(t: Tool, mode: char)
    requires |t.mem| < 0x8000_0000
    ensures Exec(t, ShowEndian) == (t, Mode(t.big)) && Exec(t, Help) == (t, HelpText)
    ensures Exec(t, SetEndian('b')) == (Tool(t.mem, true), Silent)
    ensures Exec(t, SetEndian('l')) == (Tool(t.mem, false), Silent)
    ensures mode !in {'b', 'l'} ==> Exec(t, SetEndian(mode)) == (t, SyntaxError)
    ensures Exec(t, Malformed) == (t, SyntaxError) && Exec(t, Other) == (t, Silent) && Exec(t, Quit) == (t, Silent)
  {
  }

  // A command file is played exactly when its first line names this region; the number is
  // compared as an unsigned one, and a line that does not parse counts as -1.
  lemma FilePlayed(bar: U32, file: CmdFile)
    ensures FileCommands(bar, file) ==
      if (file.header.Some? && (file.header.value - bar) % 0x1_0000_0000 == 0)
         || (file.header.None? && bar == 0xFFFF_FFFF)
      then file.cmds else []
  {
    if file.header.Some? {
      var h := file.header.value;
      var q := h / 0x1_0000_0000;
      assert h - bar == q * 0x1_0000_0000 + (h % 0x1_0000_0000 - bar);
    }
  }

  // A session is the file's commands and then, unless it ends with the file, what is typed
  // before the first quit, with that quit.
  lemma SessionOrder(bar: U32, file: Option<CmdFile>, quit: bool, typed: seq<Command>, k: nat)
    requires k <= |typed| && forall j | 0 <= j < k :: !typed[j].Quit?
    requires k == |typed| || typed[k].Quit?
    ensures SessionCommands(bar, file, quit, typed)
         == (if file.Some? then FileCommands(bar, file.value) else [])
            + if quit then [] else if k < |typed| then typed[..k + 1] else typed
  {
    hide FileCommands, UntilQuit;
    if k < |typed| {
      UntilFirstQuit(typed, k);
    } else {
      NoQuit(typed);
    }
  }
}
