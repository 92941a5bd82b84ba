/**
 The Frame Check Sequence of an Ethernet frame: the bit loop over a 32-bit register,
 the append to the packet buffer, and what a receiver can rely on.
 */
module FrameCheck {
  import opened Gf2

  type byte = bv8

  const PRESET: bv32 := 0xFFFF_FFFF
  const POLYNOMIAL: bv32 := 0xEDB8_8320
  const RESIDUE: bv32 := 0x2144_DF1C

  // ----- The register as a 32-bit word -----

  function BitStep(crc: bv32): bv32 {
    if crc & 1 != 0 then (crc >> 1) ^ POLYNOMIAL else crc >> 1
  }

  function BitSteps(crc: bv32, n: nat): bv32
    decreases n
  {
    if n == 0 then crc else BitSteps(BitStep(crc), n - 1)
  }

  function ByteStep(crc: bv32, b: byte): bv32 {
    BitSteps(crc ^ (b as bv32), 8)
  }

  // The register after the bytes of data.
  function Register(crc: bv32, data: seq<byte>): bv32 {
    if data == [] then crc else ByteStep(Register(crc, data[..|data| - 1]), data[|data| - 1])
  }

  function Fcs(data: seq<byte>): bv32 {
    !Register(PRESET, data)
  }

  // The bytes of a word as a little-endian host stores it.
  function LeBytes(w: bv32): (s: seq<byte>)
    ensures |s| == 4
  {
    [(w & 0xFF) as byte, ((w >> 8) & 0xFF) as byte, ((w >> 16) & 0xFF) as byte, (w >> 24) as byte]
  }

  // The bytes of a word as the host stores it.
  function HostBytes(hostBig: bool, w: bv32): (s: seq<byte>)
    ensures |s| == 4
  {
    var l := LeBytes(w);
    if hostBig then [l[3], l[2], l[1], l[0]] else l
  }

  // ----- The code -----

  // The inner loop: eight steps on a register that has the byte in it.
  method ByteLoop(loaded: bv32) returns (crc: bv32)
    ensures crc == BitSteps(loaded, 8)
  {
    hide BitStep;
    crc := loaded;
    var bits := 8;
    for j := 0 to bits
      invariant BitSteps(crc, bits - j) == BitSteps(loaded, bits)
    {
      StepIs(crc);
      if crc & 1 != 0 {
        crc := (crc >> 1) ^ POLYNOMIAL;
      } else {
        crc := crc >> 1;
      }
    }
  }

  // The body of the outer loop: one byte goes into the register.
  method LoadByte(before: bv32, b: byte) returns (crc: bv32)
    ensures crc == ByteStep(before, b)
  {
    crc := ByteLoop(before ^ (b as bv32));
  }

  lemma NoBytes(crc: bv32)
    ensures Register(crc, []) == crc
  {
  }

  lemma OneByte(crc: bv32, data: seq<byte>, b: byte)
    ensures Register(crc, data + [b]) == ByteStep(Register(crc, data), b)
  {
    assert (data + [b])[..|data|] == data;
  }

  method CalculateFcs(data: array<byte>, length: nat) returns (fcs: bv32)
    requires length <= data.Length
    ensures fcs == Fcs(data[..length])
  {
    hide Register;
    var crc: bv32 := PRESET;
    NoBytes(crc);
    for i := 0 to length
      invariant crc == Register(PRESET, data[..i])
    {
      var b := data[i];
      OneByte(PRESET, data[..i], b);
      assert data[..i] + [b] == data[..i + 1];
      crc := LoadByte(crc, b);
    }
    fcs := !crc;
  }

  lemma StepIs(crc: bv32)
    ensures BitStep(crc) == if crc & 1 != 0 then (crc >> 1) ^ POLYNOMIAL else crc >> 1
  {
  }

  // Append the FCS to the packet, in the byte order of the host.
  method AppendFcs(packet: array<byte>, length: nat, hostBig: bool)
    requires length + 4 <= packet.Length
    modifies packet
    ensures packet[..length] == old(packet[..length])
    ensures packet[length..length + 4] == HostBytes(hostBig, Fcs(old(packet[..length])))
    ensures packet[length + 4..] == old(packet[length + 4..])
  {
    var fcs := CalculateFcs(packet, length);
    var bytes := HostBytes(hostBig, fcs);
    for k := 0 to 4
      invariant packet[..length] == old(packet[..length])
      invariant packet[length..length + k] == bytes[..k]
      invariant packet[length + 4..] == old(packet[length + 4..])
    {
      packet[length + k] := bytes[k];
    }
  }

  // ----- Words and bits -----

  // The bit of weight 2^k.
  function Mask(k: nat): bv32 {
    if k == 0 then 1 else Mask(k - 1) << 1
  }

  // The bits of a word, lowest first: the order in which they are on the wire.
  function WordBits(w: bv32): (s: Bits)
    ensures |s| == DEGREE
  {
    seq(DEGREE, k requires 0 <= k < DEGREE => w & Mask(k) != 0)
  }

  function ByteBits(b: byte): (s: Bits)
    ensures |s| == 8
  {
    WordBits(b as bv32)[..8]
  }

  // The message in transmission order.
  function MessageBits(data: seq<byte>): (s: Bits)
    ensures |s| == 8 * |data|
  {
    if data == [] then [] else MessageBits(data[..|data| - 1]) + ByteBits(data[|data| - 1])
  }

  lemma MaskValues()
    ensures Mask(0) == 0x1 && Mask(1) == 0x2 && Mask(2) == 0x4 && Mask(3) == 0x8
    ensures Mask(4) == 0x10 && Mask(5) == 0x20 && Mask(6) == 0x40 && Mask(7) == 0x80
    ensures Mask(8) == 0x100 && Mask(9) == 0x200 && Mask(10) == 0x400 && Mask(11) == 0x800
    ensures Mask(12) == 0x1000 && Mask(13) == 0x2000 && Mask(14) == 0x4000 && Mask(15) == 0x8000
    ensures Mask(16) == 0x1_0000 && Mask(17) == 0x2_0000 && Mask(18) == 0x4_0000 && Mask(19) == 0x8_0000
    ensures Mask(20) == 0x10_0000 && Mask(21) == 0x20_0000 && Mask(22) == 0x40_0000 && Mask(23) == 0x80_0000
    ensures Mask(24) == 0x100_0000 && Mask(25) == 0x200_0000 && Mask(26) == 0x400_0000 && Mask(27) == 0x800_0000
    ensures Mask(28) == 0x1000_0000 && Mask(29) == 0x2000_0000 && Mask(30) == 0x4000_0000 && Mask(31) == 0x8000_0000
  {
  }

  lemma {:induction false} MaskSingle(k: nat)
    ensures Mask(k) & (Mask(k) - 1) == 0
    ensures k >= 8 ==> Mask(k) & 0xFF == 0
  {
    if k > 0 {
      MaskSingle(k - 1);
      var m := Mask(k - 1);
      assert (m << 1) & ((m << 1) - 1) == 0;
      if k == 8 {
        MaskValues();
      }
    }
  }

  lemma XorBit(x: bv32, y: bv32, m: bv32)
    requires m & (m - 1) == 0
    ensures (x ^ y) & m != 0 <==> (x & m != 0) != (y & m != 0)
  {
  }

  lemma XorBits(x: bv32, y: bv32)
    ensures WordBits(x ^ y) == Xor(WordBits(x), WordBits(y))
  {
    forall k | 0 <= k < DEGREE ensures WordBits(x ^ y)[k] == Xor(WordBits(x), WordBits(y))[k] {
      MaskSingle(k);
      XorBit(x, y, Mask(k));
    }
  }

  lemma ShiftRightBit(x: bv32, m: bv32)
    ensures (x >> 1) & m != 0 <==> x & (m << 1) != 0
  {
  }

  lemma TopMask()
    ensures Mask(31) == 0x8000_0000
  {
    MaskValues();
  }

  lemma TopBitClear(x: bv32)
    ensures (x >> 1) & 0x8000_0000 == 0
  {
  }

  lemma WordBitAt(x: bv32, k: nat)
    requires k < DEGREE
    ensures WordBits(x)[k] == (x & Mask(k) != 0)
  {
  }

  lemma MaskNext(k: nat)
    ensures Mask(k + 1) == Mask(k) << 1
  {
  }

  lemma ShiftRightLow(x: bv32, k: nat)
    requires k < DEGREE - 1
    ensures WordBits(x >> 1)[k] == WordBits(x)[k + 1]
  {
    hide WordBits, Mask;
    WordBitAt(x >> 1, k);
    WordBitAt(x, k + 1);
    MaskNext(k);
    ShiftRightBit(x, Mask(k));
  }

  lemma ShiftRightTop(x: bv32)
    ensures !WordBits(x >> 1)[DEGREE - 1]
  {
    hide WordBits, Mask;
    WordBitAt(x >> 1, DEGREE - 1);
    TopMask();
    TopBitClear(x);
  }

  lemma ShiftRightBits(x: bv32)
    ensures WordBits(x >> 1) == WordBits(x)[1..] + [false]
  {
    hide WordBits;
    forall k | 0 <= k < DEGREE ensures WordBits(x >> 1)[k] == (WordBits(x)[1..] + [false])[k] {
      if k < DEGREE - 1 {
        ShiftRightLow(x, k);
      } else {
        ShiftRightTop(x);
      }
    }
  }

  lemma PolynomialBits()
    ensures WordBits(POLYNOMIAL) == Generator()[1..]
  {
    MaskValues();
    var p := POLYNOMIAL;
    forall k | 0 <= k < DEGREE ensures WordBits(p)[k] == Generator()[k + 1] {
      assert p & Mask(k) != 0 <==> DEGREE - 1 - k in POWERS;
    }
  }

  // One step of the bit loop is one step of polynomial arithmetic.
  lemma StepBits(crc: bv32)
    ensures WordBits(BitStep(crc)) == Shift(WordBits(crc))
  {
    ShiftRightBits(crc);
    assert WordBits(crc)[0] == (crc & 1 != 0);
    if crc & 1 != 0 {
      PolynomialBits();
      XorBits(crc >> 1, POLYNOMIAL);
    }
  }

  lemma {:induction false} StepsBits(crc: bv32, n: nat)
    ensures WordBits(BitSteps(crc, n)) == ShiftN(WordBits(crc), n)
    decreases n
  {
    if n > 0 {
      StepBits(crc);
      StepsBits(BitStep(crc), n - 1);
    }
  }

  lemma HighBitsClear(b: bv32, m: bv32)
    requires b <= 0xFF && m & 0xFF == 0
    ensures b & m == 0
  {
  }

  lemma WidenBits(b: byte)
    ensures WordBits(b as bv32) == ByteBits(b) + Zeros(24)
  {
    var w := b as bv32;
    assert w <= 0xFF;
    forall k | 0 <= k < DEGREE ensures WordBits(w)[k] == (ByteBits(b) + Zeros(24))[k] {
      if k >= 8 {
        MaskSingle(k);
        HighBitsClear(w, Mask(k));
      }
    }
  }

  // One byte of the loop feeds that byte's bits.
  lemma ByteFeeds(crc: bv32, b: byte)
    ensures WordBits(ByteStep(crc, b)) == Feed(WordBits(crc), ByteBits(b))
  {
    var w := b as bv32;
    StepsBits(crc ^ w, 8);
    XorBits(crc, w);
    WidenBits(b);
    Preload(WordBits(crc), ByteBits(b));
  }

  lemma {:induction false} RegisterFeeds(crc: bv32, data: seq<byte>)
    ensures WordBits(Register(crc, data)) == Feed(WordBits(crc), MessageBits(data))
  {
    if data != [] {
      var init, b := data[..|data| - 1], data[|data| - 1];
      RegisterFeeds(crc, init);
      ByteFeeds(Register(crc, init), b);
      FeedAppend(WordBits(crc), MessageBits(init), ByteBits(b));
    }
  }

  lemma SameBit(x: bv32, y: bv32, k: nat)
    requires k < DEGREE && WordBits(x)[k] == WordBits(y)[k]
    ensures (x ^ y) & Mask(k) == 0
  {
    MaskSingle(k);
    XorBit(x, y, Mask(k));
  }

  lemma BitsDetermine(x: bv32, y: bv32)
    requires WordBits(x) == WordBits(y)
    ensures x == y
  {
    hide WordBits, Mask;
    forall k | 0 <= k < DEGREE ensures (x ^ y) & Mask(k) == 0 {
      SameBit(x, y, k);
    }
    AllClear(x ^ y);
    XorZero(x, y);
  }

  lemma XorZero(x: bv32, y: bv32)
    requires x ^ y == 0
    ensures x == y
  {
  }

  lemma AllClear(z: bv32)
    requires forall k | 0 <= k < DEGREE :: z & Mask(k) == 0
    ensures z == 0
  {
    MaskValues();
  }
}
