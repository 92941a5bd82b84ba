/**
 The BAR memory editor as it runs on a host of either byte order: raw loads and stores
 in the host's order, byte swaps, and the command loops. Every method is proved to do
 what the host-free specification says.
 */
module PciDebug {
  import opened Common
  import opened Words
  import opened PciDebugSpec

  function Bswap16(v: nat): nat
    requires v < 0x1_0000
  {
    v % 0x100 * 0x100 + v / 0x100
  }

  function Bswap32(v: nat): nat
    requires v < 0x1_0000_0000
  {
    v % 0x100 * 0x100_0000 + v / 0x100 % 0x100 * 0x1_0000 + v / 0x1_0000 % 0x100 * 0x100 + v / 0x100_0000
  }

  lemma Powers()
    ensures Pow256(1) == 0x100 && Pow256(2) == 0x1_0000 && Pow256(4) == 0x1_0000_0000
  {
    assert Pow256(2) == 0x100 * Pow256(1);
    assert Pow256(3) == 0x100 * Pow256(2);
    assert Pow256(4) == 0x100 * Pow256(3);
  }

  lemma TwoBytes(v: nat)
    requires v < 0x1_0000
    ensures LeBytes(v, 2) == [v % 0x100, v / 0x100]
  {
    assert LeBytes(v / 0x100, 1) == [v / 0x100 % 0x100] + LeBytes(v / 0x1_0000, 0);
  }

  lemma FourBytes(v: nat)
    requires v < 0x1_0000_0000
    ensures LeBytes(v, 4) == [v % 0x100, v / 0x100 % 0x100, v / 0x1_0000 % 0x100, v / 0x100_0000]
  {
    var high := v / 0x1_0000;
    assert v / 0x100 / 0x100 == high && high / 0x100 == v / 0x100_0000;
    TwoBytes(high);
    assert LeBytes(v / 0x100, 3) == [v / 0x100 % 0x100] + LeBytes(high, 2);
  }

  // The C library's swaps reverse the bytes of a word.
  lemma SwapIsBswap16(v: nat)
    requires v < 0x1_0000
    ensures Bswap16(v) < 0x1_0000 && Bswap16(v) == Swapped(v, 2)
    ensures LeBytes(Bswap16(v), 2) == Reverse(LeBytes(v, 2))
  {
    TwoBytes(v);
    TwoBytes(Bswap16(v));
    Powers();
    LeRoundTrip(Bswap16(v), 2);
    assert LeBytes(Bswap16(v), 2) == Reverse(LeBytes(v, 2));
  }

  lemma SwapIsBswap32(v: nat)
    requires v < 0x1_0000_0000
    ensures Bswap32(v) < 0x1_0000_0000 && Bswap32(v) == Swapped(v, 4)
    ensures LeBytes(Bswap32(v), 4) == Reverse(LeBytes(v, 4))
  {
    var a, b, c, d := v % 0x100, v / 0x100 % 0x100, v / 0x1_0000 % 0x100, v / 0x100_0000;
    Digits(d, c, b, a, Bswap32(v));
    FourBytes(v);
    FourBytes(Bswap32(v));
    Powers();
    LeRoundTrip(Bswap32(v), 4);
    assert LeBytes(Bswap32(v), 4) == Reverse(LeBytes(v, 4));
  }

  lemma Digits(a: Byte, b: Byte, c: Byte, d: Byte, v: nat)
    requires v == a + 0x100 * b + 0x1_0000 * c + 0x100_0000 * d
    ensures v < 0x1_0000_0000
    ensures v % 0x100 == a && v / 0x100 % 0x100 == b && v / 0x1_0000 % 0x100 == c && v / 0x100_0000 == d
  {
    assert v / 0x100 == b + 0x100 * c + 0x1_0000 * d;
    assert v / 0x1_0000 == c + 0x100 * d;
  }

  // Keeping the low bytes of a 32-bit word.
  lemma Truncated(x: int, n: nat)
    requires IsWord(n)
    ensures Word(Word(x, 4), n) == Word(x, n)
  {
    Powers();
    var q := x / 0x1_0000_0000;
    assert x == q * 0x1_0000_0000 + Word(x, 4);
    if n == 1 {
      assert x == q * 0x100_0000 * 0x100 + Word(x, 4);
    } else if n == 2 {
      assert x == q * 0x1_0000 * 0x1_0000 + Word(x, 4);
    }
  }

  class Console {
    const mem: array<Byte>
    const hostBig: bool
    const bar: U32
    var bigEndian: bool

    constructor (mem: array<Byte>, hostBig: bool, bar: U32)
      ensures this.mem == mem && this.hostBig == hostBig && this.bar == bar && !bigEndian
    {
      this.mem, this.hostBig, this.bar := mem, hostBig, bar;
      bigEndian := false;
    }

    ghost function View(): Tool
      reads this, mem
    {
      Tool(mem[..], bigEndian)
    }

    // ----- The host's own loads and stores -----

    method Store16(addr: nat, data: nat)
      requires addr + 2 <= mem.Length && data < 0x1_0000
      modifies mem
      ensures mem[..] == Put(old(mem[..]), addr, Encode(hostBig, 2, data))
    {
      TwoBytes(data);
      if hostBig {
        mem[addr], mem[addr + 1] := data / 0x100, data % 0x100;
      } else {
        mem[addr], mem[addr + 1] := data % 0x100, data / 0x100;
      }
    }

    method Load16(addr: nat) returns (data: nat)
      requires addr + 2 <= mem.Length
      ensures data < 0x1_0000 && data == Decode(hostBig, mem[addr..addr + 2])
    {
      var b := mem[addr..addr + 2];
      TwoBytesValue(b);
      TwoBytesValue(Reverse(b));
      var b0: nat, b1: nat := b[0], b[1];
      data := if hostBig then b0 * 0x100 + b1 else b0 + b1 * 0x100;
    }

    method Store32(addr: nat, data: nat)
      requires addr + 4 <= mem.Length && data < 0x1_0000_0000
      modifies mem
      ensures mem[..] == Put(old(mem[..]), addr, Encode(hostBig, 4, data))
    {
      FourBytes(data);
      var b0, b1, b2, b3 := data % 0x100, data / 0x100 % 0x100, data / 0x1_0000 % 0x100, data / 0x100_0000;
      if hostBig {
        mem[addr], mem[addr + 1], mem[addr + 2], mem[addr + 3] := b3, b2, b1, b0;
      } else {
        mem[addr], mem[addr + 1], mem[addr + 2], mem[addr + 3] := b0, b1, b2, b3;
      }
    }

    method Load32(addr: nat) returns (data: nat)
      requires addr + 4 <= mem.Length
      ensures data < 0x1_0000_0000 && data == Decode(hostBig, mem[addr..addr + 4])
    {
      var b := mem[addr..addr + 4];
      FourBytesValue(b);
      FourBytesValue(Reverse(b));
      var b0: nat, b1: nat, b2: nat, b3: nat := b[0], b[1], b[2], b[3];
      data := if hostBig then b0 * 0x100_0000 + b1 * 0x1_0000 + b2 * 0x100 + b3
              else b0 + b1 * 0x100 + b2 * 0x1_0000 + b3 * 0x100_0000;
    }

    // ----- The ten accessors -----

    method Write8(addr: nat, data: Byte)
      requires addr < mem.Length
      modifies mem
      ensures mem[..] == Put(old(mem[..]), addr, [data])
    {
      mem[addr] := data;
    }

    method Read8(addr: nat) returns (data: Byte)
      requires addr < mem.Length
      ensures mem[addr..addr + 1] == [data]
    {
      data := mem[addr];
    }

    method WriteLe16(addr: nat, data: nat)
      requires addr + 2 <= mem.Length && data < 0x1_0000
      modifies mem
      ensures mem[..] == Put(old(mem[..]), addr, Encode(false, 2, data))
    {
      SwapIsBswap16(data);
      ReverseTwice(LeBytes(data, 2));
      Store16(addr, if hostBig then Bswap16(data) else data);
    }

    method WriteBe16(addr: nat, data: nat)
      requires addr + 2 <= mem.Length && data < 0x1_0000
      modifies mem
      ensures mem[..] == Put(old(mem[..]), addr, Encode(true, 2, data))
    {
      SwapIsBswap16(data);
      Store16(addr, if !hostBig then Bswap16(data) else data);
    }

    method ReadLe16(addr: nat) returns (data: nat)
      requires addr + 2 <= mem.Length
      ensures data < 0x1_0000 && data == Decode(false, mem[addr..addr + 2])
    {
      data := Load16(addr);
      SwappedDecode(hostBig, mem[addr..addr + 2]);
      SwapIsBswap16(data);
      data := if hostBig then Bswap16(data) else data;
    }

    method ReadBe16(addr: nat) returns (data: nat)
      requires addr + 2 <= mem.Length
      ensures data < 0x1_0000 && data == Decode(true, mem[addr..addr + 2])
    {
      data := Load16(addr);
      SwappedDecode(hostBig, mem[addr..addr + 2]);
      SwapIsBswap16(data);
      data := if !hostBig then Bswap16(data) else data;
    }

    method WriteLe32(addr: nat, data: nat)
      requires addr + 4 <= mem.Length && data < 0x1_0000_0000
      modifies mem
      ensures mem[..] == Put(old(mem[..]), addr, Encode(false, 4, data))
    {
      SwapIsBswap32(data);
      ReverseTwice(LeBytes(data, 4));
      Store32(addr, if hostBig then Bswap32(data) else data);
    }

    method WriteBe32(addr: nat, data: nat)
      requires addr + 4 <= mem.Length && data < 0x1_0000_0000
      modifies mem
      ensures mem[..] == Put(old(mem[..]), addr, Encode(true, 4, data))
    {
      SwapIsBswap32(data);
      Store32(addr, if !hostBig then Bswap32(data) else data);
    }

    method ReadLe32(addr: nat) returns (data: nat)
      requires addr + 4 <= mem.Length
      ensures data < 0x1_0000_0000 && data == Decode(false, mem[addr..addr + 4])
    {
      data := Load32(addr);
      SwappedDecode(hostBig, mem[addr..addr + 4]);
      SwapIsBswap32(data);
      data := if hostBig then Bswap32(data) else data;
    }

    method ReadBe32(addr: nat) returns (data: nat)
      requires addr + 4 <= mem.Length
      ensures data < 0x1_0000_0000 && data == Decode(true, mem[addr..addr + 4])
    {
      data := Load32(addr);
      SwappedDecode(hostBig, mem[addr..addr + 4]);
      SwapIsBswap32(data);
      data := if !hostBig then Bswap32(data) else data;
    }

    // The switch on width and mode shared by the change and fill commands.
    method WriteWord(n: nat, addr: nat, d32: nat)
      requires IsWord(n) && addr + n <= mem.Length && d32 < 0x1_0000_0000
      modifies mem
      ensures mem[..] == Put(old(mem[..]), addr, Encode(bigEndian, n, Word(d32, n)))
    {
      hide Put, Encode;
      Powers();
      if n == 1 {
        var d8 := d32 % 0x100;
        Write8(addr, d8);
        OneByteWord(bigEndian, d8);
      } else if n == 2 {
        var d16 := d32 % 0x1_0000;
        if !bigEndian {
          WriteLe16(addr, d16);
        } else {
          WriteBe16(addr, d16);
        }
      } else {
        if !bigEndian {
          WriteLe32(addr, d32);
        } else {
          WriteBe32(addr, d32);
        }
      }
    }

    method ReadWord(n: nat, addr: nat) returns (data: nat)
      requires IsWord(n) && addr + n <= mem.Length
      ensures data == Decode(bigEndian, mem[..][addr..addr + n])
    {
      assert mem[..][addr..addr + n] == mem[addr..addr + n];
      if n == 1 {
        data := Read8(addr);
        OneByteValue(mem[addr..addr + 1]);
      } else if n == 2 {
        if !bigEndian {
          data := ReadLe16(addr);
        } else {
          data := ReadBe16(addr);
        }
      } else {
        if !bigEndian {
          data := ReadLe32(addr);
        } else {
          data := ReadBe32(addr);
        }
      }
    }

    // ----- The commands -----

    method ListWords(n: nat, addr: nat, bytes: int) returns (cells: seq<Cell>)
      requires IsWord(n) && addr + Offset(n, ListCount(n, bytes)) <= mem.Length
      ensures cells == Cells(mem[..], bigEndian, n, addr, ListCount(n, bytes))
    {
      hide *;
      cells := [];
      var i := 0;
      ghost var done: nat, m := 0, mem[..];
      CellsNone(m, bigEndian, n, addr);
      while i < bytes
        invariant i == Offset(n, done) && done <= ListCount(n, bytes)
        invariant addr + i <= |m| && cells == Cells(m, bigEndian, n, addr, done)
      {
        AnotherWord(n, bytes, done);
        var d := ReadWord(n, addr + i);
        CellsNext(m, bigEndian, n, addr, done, i, d);
        cells := cells + [Cell(Row(addr, i), d)];
        i := i + n;
        done := done + 1;
      }
      NoMoreWords(n, bytes, done);
    }

    method DisplayMem(width: Option<int>, addr: U32, len: U32) returns (reply: Reply)
      requires InRange(Display(width, addr, len), mem.Length)
      ensures reply == Exec(View(), Display(width, addr, len)).1
    {
      if addr > mem.Length {
        return InvalidAddress;
      }
      var bytes := Length(addr, len, mem.Length);
      var n := WordBytes(width);
      if n == 0 {
        return SyntaxError;
      }
      var cells := ListWords(n, addr, bytes);
      return Listing(cells);
    }

    method ChangeMem(width: Option<int>, addr: U32, val: U32) returns (reply: Reply)
      requires InRange(Change(width, addr, val), mem.Length)
      modifies mem
      ensures (View(), reply) == Exec(old(View()), Change(width, addr, val))
    {
      if addr > mem.Length {
        return InvalidAddress;
      }
      var n := WordBytes(width);
      if n == 0 {
        return SyntaxError;
      }
      WriteWord(n, addr, val);
      return Silent;
    }

    method FillWords(n: nat, addr: nat, val: U32, inc: U32, bytes: int)
      requires IsWord(n) && addr + Offset(n, FillCount(n, bytes)) <= mem.Length
      modifies mem
      ensures mem[..] == Filled(old(mem[..]), bigEndian, n, addr, val, inc, FillCount(n, bytes))
    {
      hide *;
      var i: nat := 0;
      ghost var was := mem[..];
      FilledNone(was, bigEndian, n, addr, val, inc);
      Powers();
      while i < FillCount(n, bytes)
        invariant i <= FillCount(n, bytes) && addr + Offset(n, i) <= mem.Length
        invariant mem[..] == Filled(was, bigEndian, n, addr, val, inc, i)
      {
        OffsetFits(n, i, FillCount(n, bytes));
        Truncated(Term(val, inc, i), n);
        FilledNext(was, bigEndian, n, addr, val, inc, i);
        WriteWord(n, addr + Offset(n, i), Word(Term(val, inc, i), 4));
        i := i + 1;
      }
    }

    method FillMem(width: Option<int>, addr: U32, val: U32, len: U32, inc: Option<U32>) returns (reply: Reply)
      requires InRange(Fill(width, addr, val, len, inc), mem.Length)
      modifies mem
      ensures (View(), reply) == Exec(old(View()), Fill(width, addr, val, len, inc))
    {
      if addr > mem.Length {
        return InvalidAddress;
      }
      var bytes := Length(addr, len, mem.Length);
      var n := WordBytes(width);
      if n == 0 {
        return SyntaxError;
      }
      FillWords(n, addr, val, Increment(inc), bytes);
      return Silent;
    }

    method ChangeEndian(c: Command) returns (reply: Reply)
      requires c.ShowEndian? || c.SetEndian? || c.Malformed?
      requires mem.Length < 0x8000_0000
      modifies this`bigEndian
      ensures (View(), reply) == Exec(old(View()), c)
    {
      match c
      case ShowEndian => reply := Mode(bigEndian);
      case SetEndian(mode) =>
        if mode == 'b' {
          bigEndian := true;
          reply := Silent;
        } else if mode == 'l' {
          bigEndian := false;
          reply := Silent;
        } else {
          reply := SyntaxError;
        }
      case _ => reply := SyntaxError;
    }

    method ProcessCommand(c: Command) returns (status: int, reply: Reply)
      requires InRange(c, mem.Length)
      modifies mem, this`bigEndian
      ensures (View(), reply) == Exec(old(View()), c)
      ensures status == (if c.Quit? then -1 else 0)
    {
      status := 0;
      match c
      case Help => reply := HelpText;
      case Change(width, addr, val) => reply := ChangeMem(width, addr, val);
      case Display(width, addr, len) => reply := DisplayMem(width, addr, len);
      case Fill(width, addr, val, len, inc) => reply := FillMem(width, addr, val, len, inc);
      case ShowEndian => reply := ChangeEndian(c);
      case SetEndian(_) => reply := ChangeEndian(c);
      case Malformed => reply := SyntaxError;
      case Other => reply := Silent;
      case Quit => status, reply := -1, Silent;
    }

    // A command file for this region is played to its end, where a quit only draws a
    // warning; one for another region is not played.
    method UseCmdFile(file: CmdFile) returns (replies: seq<Reply>)
      requires AllInRange(FileCommands(bar, file), mem.Length)
      modifies mem, this`bigEndian
      ensures (View(), replies) == Play(old(View()), FileCommands(bar, file))
    {
      replies := [];
      var found := if file.header.None? then -1 else file.header.value;
      if found % 0x1_0000_0000 != bar {
        return;
      }
      var cmds := file.cmds;
      for k := 0 to |cmds|
        invariant (View(), replies) == Play(old(View()), cmds[..k])
      {
        var status, reply := ProcessCommand(cmds[k]);
        replies := replies + [reply];
        assert cmds[..k + 1][..k] == cmds[..k];
      }
      assert cmds[..|cmds|] == cmds;
    }

    // The prompt: a quit ends the session.
    method Prompt(cmds: seq<Command>) returns (replies: seq<Reply>)
      requires AllInRange(UntilQuit(cmds), mem.Length)
      modifies mem, this`bigEndian
      ensures (View(), replies) == Play(old(View()), UntilQuit(cmds))
    {
      replies := [];
      for k := 0 to |cmds|
        invariant Quit !in cmds[..k] && AllInRange(cmds[..k], mem.Length)
        invariant (View(), replies) == Play(old(View()), cmds[..k])
      {
        BeforeQuit(cmds, k);
        var status, reply := ProcessCommand(cmds[k]);
        replies := replies + [reply];
        assert cmds[..k + 1][..k] == cmds[..k];
        if status < 0 {
          UntilFirstQuit(cmds, k);
          return;
        }
      }
      assert cmds[..|cmds|] == cmds;
      NoQuit(cmds);
    }

    // A whole session: the command file, if there is one, then the prompt, unless the
    // tool was asked to quit after the file.
    method ParseCommand(file: Option<CmdFile>, quit: bool, typed: seq<Command>) returns (replies: seq<Reply>)
      requires AllInRange(SessionCommands(bar, file, quit, typed), mem.Length)
      modifies mem, this`bigEndian
      ensures (View(), replies) == Play(old(View()), SessionCommands(bar, file, quit, typed))
    {
      hide FileCommands, UntilQuit, InRange, Exec;
      ghost var first := if file.Some? then FileCommands(bar, file.value) else [];
      ghost var rest := if quit then [] else UntilQuit(typed);
      InParts(first, rest, mem.Length);
      PlayConcat(View(), first, rest);
      replies := [];
      if file.Some? {
        replies := UseCmdFile(file.value);
      }
      if quit {
        assert replies + [] == replies;
        return;
      }
      var more := Prompt(typed);
      replies := replies + more;
    }
  }

  lemma OneByteWord(big: bool, v: nat)
    requires v < 0x100
    ensures Encode(big, 1, v) == [v]
  {
    assert LeBytes(v, 1) == [v] + LeBytes(v / 0x100, 0);
  }

  lemma OneByteValue(b: seq<Byte>)
    requires |b| == 1
    ensures Decode(false, b) == b[0] == Decode(true, b)
  {
    assert Reverse(b) == b && LeValue(b[1..]) == 0;
  }

  lemma TwoBytesValue(b: seq<Byte>)
    requires |b| == 2
    ensures var b1: nat := b[1]; LeValue(b) == b[0] + 0x100 * b1
  {
    assert LeValue(b[1..]) == b[1] + 0x100 * LeValue(b[1..][1..]);
    assert b[1..][1..] == [];
  }

  lemma FourBytesValue(b: seq<Byte>)
    requires |b| == 4
    ensures var b1: nat, b2: nat, b3: nat := b[1], b[2], b[3];
      LeValue(b) == b[0] + 0x100 * b1 + 0x1_0000 * b2 + 0x100_0000 * b3
  {
    TwoBytesValue(b[2..]);
    assert b[1..][1..] == b[2..];
    assert LeValue(b[1..]) == b[1] + 0x100 * LeValue(b[2..]);
  }

  // Reading in the other mode swaps the bytes of what is read.
  lemma SwappedDecode(big: bool, b: seq<Byte>)
    ensures Decode(!big, b) == Swapped(Decode(big, b), |b|)
  {
    LeBytesOfValue(if big then Reverse(b) else b);
    ReverseTwice(b);
  }

  lemma CellsNone(m: seq<Byte>, big: bool, n: nat, addr: nat)
    requires IsWord(n) && addr <= |m|
    ensures n > 0 && Offset(n, 0) == 0 && Cells(m, big, n, addr, 0) == []
  {
  }

  lemma FilledNone(m: seq<Byte>, big: bool, n: nat, addr: nat, val: int, inc: int)
    requires addr <= |m|
    ensures Offset(n, 0) == 0 && Filled(m, big, n, addr, val, inc, 0) == m
  {
  }

  lemma CellsNext(m: seq<Byte>, big: bool, n: nat, addr: nat, k: nat, i: nat, d: nat)
    requires i == Offset(n, k) && addr + i + n <= |m|
    requires d == Decode(big, m[addr + i..addr + i + n])
    ensures i + n == Offset(n, k + 1)
    ensures Cells(m, big, n, addr, k + 1) == Cells(m, big, n, addr, k) + [Cell(Row(addr, i), d)]
  {
    hide Offset, Decode, Row;
    OffsetNext(n, k);
  }

  lemma FilledNext(m: seq<Byte>, big: bool, n: nat, addr: nat, val: int, inc: int, i: nat)
    requires addr + Offset(n, i + 1) <= |m|
    ensures addr + Offset(n, i) + n <= |m|
    ensures Filled(m, big, n, addr, val, inc, i + 1)
         == Put(Filled(m, big, n, addr, val, inc, i), addr + Offset(n, i), Encode(big, n, Word(Term(val, inc, i), n)))
  {
    OffsetNext(n, i);
  }

  lemma AnotherWord(n: nat, bytes: int, done: nat)
    requires IsWord(n) && Offset(n, done) < bytes
    ensures done < ListCount(n, bytes) && Offset(n, done) + n <= Offset(n, ListCount(n, bytes))
  {
    OffsetFits(n, done, ListCount(n, bytes));
  }

  lemma NoMoreWords(n: nat, bytes: int, done: nat)
    requires IsWord(n) && Offset(n, done) >= bytes && done <= ListCount(n, bytes)
    ensures done == ListCount(n, bytes)
  {
  }

  lemma InParts(a: seq<Command>, b: seq<Command>, size: nat)
    requires AllInRange(a + b, size)
    ensures AllInRange(a, size) && AllInRange(b, size)
  {
    hide InRange;
    forall k | 0 <= k < |a| ensures InRange(a[k], size) {
      assert (a + b)[k] == a[k];
    }
    forall k | 0 <= k < |b| ensures InRange(b[k], size) {
      assert (a + b)[|a| + k] == b[k];
    }
  }

  // Every command before the first quit is one of the session.
  lemma {:induction false} BeforeQuit(cmds: seq<Command>, k: nat)
    requires k < |cmds| && Quit !in cmds[..k]
    ensures k < |UntilQuit(cmds)| && UntilQuit(cmds)[k] == cmds[k]
    decreases k
  {
    if k > 0 {
      assert cmds[0] in cmds[..k];
      assert cmds[1..][..k - 1] == cmds[1..k];
      BeforeQuit(cmds[1..], k - 1);
    }
  }

  lemma {:induction false} UntilFirstQuit(cmds: seq<Command>, k: nat)
    requires k < |cmds| && cmds[k].Quit? && Quit !in cmds[..k]
    ensures UntilQuit(cmds) == cmds[..k + 1]
    decreases k
  {
    if k > 0 {
      assert cmds[0] in cmds[..k];
      assert cmds[1..][..k - 1] == cmds[1..k];
      UntilFirstQuit(cmds[1..], k - 1);
      assert cmds[..k + 1] == cmds[..1] + cmds[1..][..k];
    }
  }

  lemma {:induction false} NoQuit(cmds: seq<Command>)
    requires Quit !in cmds
    ensures UntilQuit(cmds) == cmds
    decreases |cmds|
  {
    if cmds != [] {
      assert cmds[0] != Quit;
      NoQuit(cmds[1..]);
      assert cmds == cmds[..1] + cmds[1..];
    }
  }
}
