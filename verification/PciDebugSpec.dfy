/**
 The BAR memory editor, host-free: what each command does to the region's bytes, to the
 endian mode and to the terminal. Words are little-endian byte strings or their reverse.
 */
module PciDebugSpec {
  import opened Common
  import opened Words

  // What sscanf's %x leaves in a 32-bit variable.
  type U32 = x: int | 0 <= x < 0x1_0000_0000

  // ----- Commands -----

  // A parsed command line. A width or an increment left out is None.
  datatype Command =
    | Help
    | Change(width: Option<int>, addr: U32, val: U32)
    | Display(width: Option<int>, addr: U32, len: U32)
    | Fill(width: Option<int>, addr: U32, val: U32, len: U32, inc: Option<U32>)
    | ShowEndian
    | SetEndian(mode: char)
    | Malformed
    | Other
    | Quit

  // One value of a listing; every sixteenth byte starts a row with its address.
  datatype Cell = Cell(row: Option<int>, value: nat)

  datatype Reply =
    | Silent
    | HelpText
    | SyntaxError
    | InvalidAddress
    | Mode(bigEndian: bool)
    | Listing(cells: seq<Cell>)

  datatype Tool = Tool(mem: seq<Byte>, big: bool)

  predicate IsWord(n: nat) {
    n in {1, 2, 4}
  }

  // Bytes per word, or 0 for a width that is not supported.
  function WordBytes(width: Option<int>): (n: nat)
    ensures n == 0 || IsWord(n)
  {
    match width
    case None => 4
    case Some(w) => if w == 8 then 1 else if w == 16 then 2 else if w == 32 then 4 else 0
  }

  // The length actually used: the whole region's when the range ends past it, read as
  // a signed number.
  function Length(addr: U32, len: U32, size: nat): int {
    var used := if (addr + len) % 0x1_0000_0000 > size then size else len;
    if used < 0x8000_0000 then used else used - 0x1_0000_0000
  }

  // Whole words in a length, rounding down for a fill and up for a listing.
  function FillCount(n: nat, len: int): (count: nat)
    requires IsWord(n)
    ensures len >= 0 ==> Offset(n, count) <= len < Offset(n, count + 1)
  {
    if len < 0 then 0 else len / n
  }

  function ListCount(n: nat, len: int): (count: nat)
    requires IsWord(n)
    ensures len > 0 ==> Offset(n, count) - n < len <= Offset(n, count)
  {
    if len < 0 then 0 else (len + n - 1) / n
  }

  // Words the command touches, from its address on.
  function Count(c: Command, size: nat): nat {
    if c.Change? && WordBytes(c.width) > 0 then 1
    else if c.Fill? && WordBytes(c.width) > 0 then FillCount(WordBytes(c.width), Length(c.addr, c.len, size))
    else if c.Display? && WordBytes(c.width) > 0 then ListCount(WordBytes(c.width), Length(c.addr, c.len, size))
    else 0
  }

  // Every byte the command touches lies in the region.
  predicate InRange(c: Command, size: nat) {
    size < 0x8000_0000
    && ((c.Change? || c.Fill? || c.Display?) && c.addr <= size ==>
          c.addr + Offset(WordBytes(c.width), Count(c, size)) <= size)
  }

  // The i-th value of an arithmetic progression.
  function Term(val: int, inc: int, i: nat): int {
    val + i * inc
  }

  // The first count words of a fill.
  function Filled(m: seq<Byte>, big: bool, n: nat, addr: nat, val: int, inc: int, count: nat): (r: seq<Byte>)
    requires addr + Offset(n, count) <= |m|
    ensures |r| == |m|
  {
    if count == 0 then m
    else
      OffsetNext(n, count - 1);
      Put(Filled(m, big, n, addr, val, inc, count - 1), addr + Offset(n, count - 1),
        Encode(big, n, Word(Term(val, inc, count - 1), n)))
  }

  // The address printed before the byte at offset i, if a row starts there.
  function Row(addr: nat, i: nat): Option<int> {
    if i % 16 == 0 then Some(addr + i) else None
  }

  function CellAt(m: seq<Byte>, big: bool, n: nat, addr: nat, i: nat): Cell
    requires addr + Offset(n, i) + n <= |m|
  {
    var at := addr + Offset(n, i);
    Cell(Row(addr, Offset(n, i)), Decode(big, m[at..at + n]))
  }

  function Cells(m: seq<Byte>, big: bool, n: nat, addr: nat, count: nat): (r: seq<Cell>)
    requires addr + Offset(n, count) <= |m|
    ensures |r| == count
  {
    if count == 0 then []
    else
      OffsetNext(n, count - 1);
      Cells(m, big, n, addr, count - 1) + [CellAt(m, big, n, addr, count - 1)]
  }

  function Increment(inc: Option<U32>): U32 {
    if inc.None? then 1 else inc.value
  }

  function Exec(t: Tool, c: Command): (r: (Tool, Reply))
    requires InRange(c, |t.mem|)
    ensures |r.0.mem| == |t.mem|
  {
    var size := |t.mem|;
    match c
    case Help => (t, HelpText)
    case Malformed => (t, SyntaxError)
    case Other => (t, Silent)
    case Quit => (t, Silent)
    case ShowEndian => (t, Mode(t.big))
    case SetEndian(mode) =>
      if mode == 'b' then (t.(big := true), Silent)
      else if mode == 'l' then (t.(big := false), Silent)
      else (t, SyntaxError)
    case Change(width, addr, val) =>
      if addr > size then (t, InvalidAddress)
      else
        var n := WordBytes(width);
        if n == 0 then (t, SyntaxError)
        else (t.(mem := Put(t.mem, addr, Encode(t.big, n, Word(val, n)))), Silent)
    case Display(width, addr, len) =>
      if addr > size then (t, InvalidAddress)
      else
        var n := WordBytes(width);
        if n == 0 then (t, SyntaxError)
        else (t, Listing(Cells(t.mem, t.big, n, addr, Count(c, size))))
    case Fill(width, addr, val, len, inc) =>
      if addr > size then (t, InvalidAddress)
      else
        var n := WordBytes(width);
        if n == 0 then (t, SyntaxError)
        else (t.(mem := Filled(t.mem, t.big, n, addr, val, Increment(inc), Count(c, size))), Silent)
  }

  predicate AllInRange(cmds: seq<Command>, size: nat) {
    forall k | 0 <= k < |cmds| :: InRange(cmds[k], size)
  }

  // Carry out every command in order.
  function Play(t: Tool, cmds: seq<Command>): (r: (Tool, seq<Reply>))
    requires AllInRange(cmds, |t.mem|)
    ensures |r.0.mem| == |t.mem| && |r.1| == |cmds|
  {
    if cmds == [] then (t, [])
    else
      var last := |cmds| - 1;
      var before := Play(t, cmds[..last]);
      var step := Exec(before.0, cmds[last]);
      (step.0, before.1 + [step.1])
  }

  // The commands of a prompt session: those before the first quit, and that one.
  function UntilQuit(cmds: seq<Command>): (r: seq<Command>)
    ensures r <= cmds
  {
    if cmds == [] then []
    else if cmds[0].Quit? then cmds[..1]
    else
      assert cmds == cmds[..1] + cmds[1..];
      cmds[..1] + UntilQuit(cmds[1..])
  }

  // A command file: the region its first line names, if it names one, and its commands.
  datatype CmdFile = CmdFile(header: Option<int>, cmds: seq<Command>)

  // The commands that are played from a file: none if it is meant for another region. A
  // header that does not parse leaves -1, compared as an unsigned number.
  function FileCommands(bar: U32, file: CmdFile): (r: seq<Command>)
    ensures r == file.cmds || r == []
  {
    var found := if file.header.None? then -1 else file.header.value;
    if found % 0x1_0000_0000 == bar then file.cmds else []
  }

  // All commands of a session: those of the file, and those typed up to the first quit
  // unless the session ends with the file.
  function SessionCommands(bar: U32, file: Option<CmdFile>, quit: bool, typed: seq<Command>): seq<Command> {
    (if file.Some? then FileCommands(bar, file.value) else []) + (if quit then [] else UntilQuit(typed))
  }

  // A session is its parts one after the other.
  lemma {:induction false} PlayConcat(t: Tool, a: seq<Command>, b: seq<Command>)
    requires AllInRange(a, |t.mem|) && AllInRange(b, |t.mem|)
    ensures AllInRange(a + b, |t.mem|)
    ensures Play(t, a + b).0 == Play(Play(t, a).0, b).0
    ensures Play(t, a + b).1 == Play(t, a).1 + Play(Play(t, a).0, b).1
    decreases |b|
  {
    hide Exec, InRange;
    if b == [] {
      assert a + b == a;
    } else {
      var last := |b| - 1;
      PlayConcat(t, a, b[..last]);
      assert (a + b)[..|a| + last] == a + b[..last];
    }
  }
}
