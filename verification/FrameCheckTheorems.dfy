/**
 What the Frame Check Sequence guarantees, for messages of every length.
 */
module FrameCheckTheorems {
  import opened Gf2
  import opened FrameCheck

  // ----- The register is a polynomial remainder -----

  function Ones(): (r: Bits)
    ensures |r| == DEGREE
  {
    seq(DEGREE, _ => true)
  }

  lemma PresetBits()
    ensures WordBits(PRESET) == Ones()
  {
    MaskValues();
    forall k | 0 <= k < DEGREE ensures PRESET & Mask(k) != 0 {
    }
  }

  // The register after the loop holds, lowest bit first, the remainder of the message
  // polynomial times x^32 with its first 32 coefficients complemented.
  lemma RegisterIsRemainder(data: seq<byte>, s: Bits)
    ensures IsRemainder(Dividend(Ones(), MessageBits(data)), s) <==> s == WordBits(Register(PRESET, data))
  {
    PresetBits();
    RegisterFeeds(PRESET, data);
    FeedIsRemainder(Ones(), MessageBits(data), s);
  }

  // ----- The FCS of a sum -----

  function XorBytes(a: seq<byte>, b: seq<byte>): (c: seq<byte>)
    requires |a| == |b|
    ensures |c| == |a|
  {
    seq(|a|, k requires 0 <= k < |a| => a[k] ^ b[k])
  }

  lemma WidenAdds(a: byte, b: byte)
    ensures (a ^ b) as bv32 == (a as bv32) ^ (b as bv32)
  {
  }

  lemma LastByte(a: seq<byte>)
    requires a != []
    ensures MessageBits(a) == MessageBits(a[..|a| - 1]) + ByteBits(a[|a| - 1])
  {
  }

  lemma XorBytesLast(a: seq<byte>, b: seq<byte>)
    requires |a| == |b| > 0
    ensures var n := |a| - 1; var c := XorBytes(a, b);
      c[..n] == XorBytes(a[..n], b[..n]) && c[n] == a[n] ^ b[n]
  {
  }

  lemma {:induction false} MessageAdds(a: seq<byte>, b: seq<byte>)
    requires |a| == |b|
    ensures MessageBits(XorBytes(a, b)) == Xor(MessageBits(a), MessageBits(b))
  {
    if a != [] {
      var n, c := |a| - 1, XorBytes(a, b);
      MessageAdds(a[..n], b[..n]);
      XorBytesLast(a, b);
      LastByte(a);
      LastByte(b);
      LastByte(c);
      ByteBitsAdd(a[n], b[n]);
      hide ByteBits, MessageBits, XorBytes;
      XorAppend(MessageBits(a[..n]), ByteBits(a[n]), MessageBits(b[..n]), ByteBits(b[n]));
      hide Xor;
    }
  }

  lemma ByteBitsAdd(a: byte, b: byte)
    ensures ByteBits(a ^ b) == Xor(ByteBits(a), ByteBits(b))
  {
    hide WordBits;
    WidenAdds(a, b);
    XorBits(a as bv32, b as bv32);
  }

  lemma XorAppend(a: Bits, b: Bits, c: Bits, d: Bits)
    requires |a| == |c| && |b| == |d|
    ensures Xor(a + b, c + d) == Xor(a, c) + Xor(b, d)
  {
  }

  lemma NotIsXor(x: bv32)
    ensures !x == x ^ PRESET
  {
  }

  // The bits of the FCS: the register, complemented.
  lemma FcsBits(data: seq<byte>)
    ensures WordBits(Fcs(data)) == Xor(Feed(Ones(), MessageBits(data)), Ones())
  {
    hide Register, WordBits, Feed, MessageBits;
    PresetBits();
    RegisterFeeds(PRESET, data);
    NotIsXor(Register(PRESET, data));
    XorBits(Register(PRESET, data), PRESET);
  }

  // The preset comes out once, because it is added three times.
  lemma ThreeFeeds(x: Bits, y: Bits, z: Bits)
    requires |x| == |y| == |z|
    ensures var one := Ones();
      Xor(Feed(one, Xor(Xor(x, y), z)), one)
      == Xor(Xor(Xor(Feed(one, x), one), Xor(Feed(one, y), one)), Xor(Feed(one, z), one))
  {
    hide Feed;
    var one := Ones();
    FeedAdds(one, one, x, y);
    FeedAdds(Xor(one, one), one, Xor(x, y), z);
    assert Xor(Xor(one, one), one) == one;
    ThreeSums(Feed(one, x), Feed(one, y), Feed(one, z), one);
  }

  lemma ThreeSums(p: Bits, q: Bits, r: Bits, one: Bits)
    requires |p| == |q| == |r| == |one|
    ensures Xor(Xor(Xor(p, one), Xor(q, one)), Xor(r, one)) == Xor(Xor(Xor(p, q), r), one)
  {
  }

  // Three messages of one length: the FCS of their sum is the sum of their FCSs.
  lemma FcsOfSum(a: seq<byte>, b: seq<byte>, c: seq<byte>)
    requires |a| == |b| == |c|
    ensures Fcs(XorBytes(XorBytes(a, b), c)) == Fcs(a) ^ Fcs(b) ^ Fcs(c)
  {
    hide Fcs, Feed, WordBits, Xor, Ones, XorBytes, MessageBits;
    var ab := XorBytes(a, b);
    var abc := XorBytes(ab, c);
    MessageAdds(a, b);
    MessageAdds(ab, c);
    ThreeFeeds(MessageBits(a), MessageBits(b), MessageBits(c));
    FcsBits(a);
    FcsBits(b);
    FcsBits(c);
    FcsBits(abc);
    SumDetermined(Fcs(abc), Fcs(a), Fcs(b), Fcs(c));
  }

  lemma SumDetermined(s: bv32, x: bv32, y: bv32, z: bv32)
    requires WordBits(s) == Xor(Xor(WordBits(x), WordBits(y)), WordBits(z))
    ensures s == x ^ y ^ z
  {
    hide WordBits;
    XorBits(x, y);
    XorBits(x ^ y, z);
    BitsDetermine(s, x ^ y ^ z);
  }

  // ----- Messages and their bits -----

  lemma {:induction false} MessageAppend(a: seq<byte>, b: seq<byte>)
    ensures MessageBits(a + b) == MessageBits(a) + MessageBits(b)
  {
    if b == [] {
      assert a + b == a;
    } else {
      var n := |b| - 1;
      assert (a + b)[..|a| + n] == a + b[..n];
      MessageAppend(a, b[..n]);
      assert MessageBits(a) + (MessageBits(b[..n]) + ByteBits(b[n]))
          == (MessageBits(a) + MessageBits(b[..n])) + ByteBits(b[n]);
    }
  }

  lemma ByteDetermined(a: byte, b: byte)
    requires ByteBits(a) == ByteBits(b)
    ensures a == b
  {
    WidenBits(a);
    WidenBits(b);
    BitsDetermine(a as bv32, b as bv32);
    Narrow(a);
    Narrow(b);
  }

  lemma Narrow(a: byte)
    ensures (a as bv32) & 0xFF == a as bv32
    ensures ((a as bv32) & 0xFF) as byte == a
  {
  }

  lemma {:induction false} MessageDetermined(a: seq<byte>, b: seq<byte>)
    requires |a| == |b| && MessageBits(a) == MessageBits(b)
    ensures a == b
  {
    if a != [] {
      var n := |a| - 1;
      var x, y := MessageBits(a), MessageBits(b);
      hide ByteBits;
      assert x[..8 * n] == MessageBits(a[..n]) && y[..8 * n] == MessageBits(b[..n]);
      assert x[8 * n..] == ByteBits(a[n]) && y[8 * n..] == ByteBits(b[n]);
      hide MessageBits;
      ByteDetermined(a[n], b[n]);
      MessageDetermined(a[..n], b[..n]);
      assert a == a[..n] + [a[n]] && b == b[..n] + [b[n]];
    }
  }

  lemma SameFcs(a: seq<byte>, b: seq<byte>)
    ensures Fcs(a) == Fcs(b) <==> Feed(Ones(), MessageBits(a)) == Feed(Ones(), MessageBits(b))
  {
    hide Fcs, WordBits, Feed, MessageBits;
    FcsBits(a);
    FcsBits(b);
    var p, q := Feed(Ones(), MessageBits(a)), Feed(Ones(), MessageBits(b));
    if Fcs(a) == Fcs(b) {
      forall k | 0 <= k < DEGREE ensures p[k] == q[k] {
        assert Xor(p, Ones())[k] == Xor(q, Ones())[k];
      }
    }
    if p == q {
      BitsDetermine(Fcs(a), Fcs(b));
    }
  }

  // ----- Error detection -----

  // An error goes undetected exactly when it is a multiple of the generator.
  lemma Undetected(a: seq<byte>, b: seq<byte>)
    requires |a| == |b|
    ensures Fcs(a) == Fcs(b) <==>
      exists q :: |q| == 8 * |a| && Xor(MessageBits(a), MessageBits(b)) + Zeros(DEGREE) == Times(q)
  {
    SameFcs(a, b);
    SameRegister(Ones(), MessageBits(a), MessageBits(b));
  }

  // The two bit strings agree but for at most 32 consecutive bits from the i-th on.
  ghost predicate OneBurst(x: Bits, y: Bits, i: nat) {
    |x| == |y| && forall k | 0 <= k < |x| && !(i <= k < i + DEGREE) :: x[k] == y[k]
  }

  // Every error burst of at most 32 bits is detected, wherever it is.
  lemma BurstDetected(a: seq<byte>, b: seq<byte>, i: nat)
    requires |a| == |b| && a != b && OneBurst(MessageBits(a), MessageBits(b), i)
    ensures Fcs(a) != Fcs(b)
  {
    if Fcs(a) == Fcs(b) {
      var x, y := MessageBits(a), MessageBits(b);
      SameFcs(a, b);
      BurstSeen(x, y, i);
      MessageDetermined(a, b);
    }
  }

  lemma BurstSeen(x: Bits, y: Bits, i: nat)
    requires OneBurst(x, y, i) && Feed(Ones(), x) == Feed(Ones(), y)
    ensures x == y
  {
    hide Feed, Ones;
    var lo := if i < |x| then i else |x|;
    var hi := if i + DEGREE < |x| then i + DEGREE else |x|;
    var head, v, w, tail := x[..lo], x[lo..hi], y[lo..hi], x[hi..];
    assert head == y[..lo] && tail == y[hi..];
    assert x == head + (v + tail) && y == head + (w + tail);
    FeedAppend(Ones(), head, v + tail);
    FeedAppend(Ones(), head, w + tail);
    var r := Feed(Ones(), head);
    FeedAppend(r, v, tail);
    FeedAppend(r, w, tail);
    FeedInjective(Feed(r, v), Feed(r, w), tail);
    BurstInjective(r, v, w);
  }

  // Two messages that differ only within four consecutive bytes.
  lemma ByteBurstDetected(head: seq<byte>, v: seq<byte>, w: seq<byte>, tail: seq<byte>)
    requires |v| == |w| <= 4 && v != w
    ensures Fcs(head + v + tail) != Fcs(head + w + tail)
  {
    hide Fcs;
    var a, b := head + v + tail, head + w + tail;
    assert a[|head|..|head| + |v|] == v && b[|head|..|head| + |v|] == w;
    MessageAppend(head + v, tail);
    MessageAppend(head, v);
    MessageAppend(head + w, tail);
    MessageAppend(head, w);
    BurstInside(MessageBits(head), MessageBits(v), MessageBits(w), MessageBits(tail));
    hide MessageBits, OneBurst;
    BurstDetected(a, b, 8 * |head|);
  }

  lemma BurstInside(p: Bits, v: Bits, w: Bits, t: Bits)
    requires |v| == |w| <= DEGREE
    ensures OneBurst(p + v + t, p + w + t, |p|)
  {
  }

  // ----- The receiver's check -----

  lemma LowMask(k: nat)
    requires k < 8
    ensures Mask(k) & 0xFF == Mask(k)
  {
    MaskValues();
  }

  lemma LowBit(x: bv32, m: bv32)
    requires m & 0xFF == m
    ensures (x & 0xFF) & m == x & m
  {
  }

  function LowByte(x: bv32): byte {
    (x & 0xFF) as byte
  }

  lemma LowByteBits(x: bv32)
    ensures ByteBits(LowByte(x)) == WordBits(x)[..8]
  {
    assert LowByte(x) as bv32 == x & 0xFF;
    forall k | 0 <= k < 8 ensures ByteBits(LowByte(x))[k] == WordBits(x)[k] {
      LowMask(k);
      LowBit(x, Mask(k));
    }
  }

  function Half(x: bv32): bv32 {
    x >> 1
  }

  function NextWord(x: bv32): bv32 {
    x >> 8
  }

  lemma HalfBits(x: bv32)
    ensures WordBits(Half(x)) == WordBits(x)[1..] + [false]
  {
    ShiftRightBits(x);
  }

  lemma EightHalves(x: bv32)
    ensures Half(Half(Half(Half(Half(Half(Half(Half(x)))))))) == NextWord(x)
  {
  }

  // Dropping the lowest bit n times.
  ghost function Drop(x: bv32, n: nat): bv32 {
    if n == 0 then x else Half(Drop(x, n - 1))
  }

  lemma {:induction false} DropBits(x: bv32, n: nat)
    requires n <= DEGREE
    ensures WordBits(Drop(x, n)) == WordBits(x)[n..] + Zeros(n)
  {
    hide WordBits, Half;
    if n > 0 {
      DropBits(x, n - 1);
      HalfBits(Drop(x, n - 1));
      assert Drop(x, n) == Half(Drop(x, n - 1));
      var bits := WordBits(x);
      assert (bits[n - 1..] + Zeros(n - 1))[1..] == bits[n..] + Zeros(n - 1);
      assert Zeros(n) == Zeros(n - 1) + [false];
      assert bits[n..] + Zeros(n - 1) + [false] == bits[n..] + Zeros(n);
    }
  }

  lemma DropEight(x: bv32)
    ensures Drop(x, 8) == NextWord(x)
  {
    hide Half, NextWord;
    EightHalves(x);
    assert Drop(x, 0) == x;
    assert Drop(x, 1) == Half(x);
    assert Drop(x, 2) == Half(Half(x));
    assert Drop(x, 3) == Half(Half(Half(x)));
    assert Drop(x, 4) == Half(Half(Half(Half(x))));
    assert Drop(x, 6) == Half(Half(Half(Half(Half(Half(x))))));
  }

  lemma NextByte(x: bv32)
    ensures WordBits(NextWord(x))[..24] == WordBits(x)[8..]
  {
    hide WordBits, NextWord, Drop;
    DropBits(x, 8);
    DropEight(x);
  }

  lemma BytesByShift(w: bv32)
    ensures LeBytes(w) ==
      [LowByte(w), LowByte(NextWord(w)), LowByte(NextWord(NextWord(w))), LowByte(NextWord(NextWord(NextWord(w))))]
  {
    assert (w >> 8) >> 8 == w >> 16 && ((w >> 8) >> 8) >> 8 == w >> 24;
    assert (w >> 24) & 0xFF == w >> 24;
  }

  // The bytes of a word carry its bits in order.
  lemma WordOnWire(w: bv32)
    ensures MessageBits(LeBytes(w)) == WordBits(w)
  {
    hide NextWord;
    var w1 := NextWord(w);
    var w2 := NextWord(w1);
    var w3 := NextWord(w2);
    BytesByShift(w);
    FourBytes(LowByte(w), LowByte(w1), LowByte(w2), LowByte(w3));
    LowByteBits(w);
    LowByteBits(w1);
    LowByteBits(w2);
    LowByteBits(w3);
    NextByte(w);
    NextByte(w1);
    NextByte(w2);
    hide MessageBits, ByteBits, WordBits, LeBytes, LowByte;
    var b, b1, b2, b3 := WordBits(w), WordBits(w1), WordBits(w2), WordBits(w3);
    assert b == b[..8] + b[8..];
    assert b1[..24] == b1[..8] + b1[8..][..16];
    assert b2[..16] == b2[..8] + b2[8..][..8] && b1[8..][..16] == b2[..24][..16] == b2[..16];
    assert b2[8..][..8] == b3[..24][..8] == b3[..8];
  }

  lemma FourBytes(a: byte, b: byte, c: byte, d: byte)
    ensures MessageBits([a, b, c, d]) == ByteBits(a) + (ByteBits(b) + (ByteBits(c) + ByteBits(d)))
  {
    hide ByteBits;
    MessageAppend([a], [b, c, d]);
    MessageAppend([b], [c, d]);
    MessageAppend([c], [d]);
    assert [a, b, c, d] == [a] + [b, c, d] && [b, c, d] == [b] + [c, d] && [c, d] == [c] + [d];
    OneByteBits(a);
    OneByteBits(b);
    OneByteBits(c);
    OneByteBits(d);
  }

  lemma OneByteBits(a: byte)
    ensures MessageBits([a]) == ByteBits(a)
  {
    assert [a][..0] == [];
  }

  lemma {:induction false} StepsSplit(c: bv32, m: nat, n: nat)
    ensures BitSteps(c, m + n) == BitSteps(BitSteps(c, m), n)
    decreases m
  {
    hide BitStep;
    if m > 0 {
      StepsSplit(BitStep(c), m - 1, n);
    }
  }

  lemma EightSteps()
    ensures BitSteps(0xFFFF_FFFF, 8) == 0x2DFD_1072 && BitSteps(0x2DFD_1072, 8) == 0xBE26_ED00
    ensures BitSteps(0xBE26_ED00, 8) == 0x00BE_26ED && BitSteps(0x00BE_26ED, 8) == 0xDEBB_20E3
  {
  }

  lemma ResidueOfOnes()
    ensures BitSteps(PRESET, 32) == !RESIDUE
  {
    hide BitSteps;
    EightSteps();
    StepsSplit(PRESET, 8, 24);
    StepsSplit(0x2DFD_1072, 8, 16);
    StepsSplit(0xBE26_ED00, 8, 8);
  }

  lemma OwnComplement(c: bv32)
    ensures c ^ !c == PRESET
  {
  }

  // A message followed by its own FCS always checks to the same constant.
  lemma ResidueConstant(m: seq<byte>)
    ensures Fcs(m + LeBytes(Fcs(m))) == RESIDUE
  {
    hide Register, WordBits, Feed, ShiftN, BitSteps, MessageBits, LeBytes;
    var c := Register(PRESET, m);
    var tail := LeBytes(!c);
    RegisterFeeds(PRESET, m + tail);
    RegisterFeeds(PRESET, m);
    MessageAppend(m, tail);
    FeedAppend(WordBits(PRESET), MessageBits(m), MessageBits(tail));
    WordOnWire(!c);
    Preload(WordBits(c), WordBits(!c));
    assert WordBits(!c) + Zeros(0) == WordBits(!c);
    XorBits(c, !c);
    OwnComplement(c);
    StepsBits(PRESET, 32);
    BitsDetermine(Register(PRESET, m + tail), BitSteps(PRESET, 32));
    ResidueOfOnes();
    TwiceComplemented(RESIDUE);
  }

  lemma TwiceComplemented(x: bv32)
    ensures !!x == x
  {
  }

  // A receiver's check passes exactly when the last four bytes are the FCS of the
  // rest, low byte first.
  lemma ReceiverCheck(m: seq<byte>, tail: seq<byte>)
    requires |tail| == 4
    ensures Fcs(m + tail) == RESIDUE <==> tail == LeBytes(Fcs(m))
  {
    hide Fcs, LeBytes;
    ResidueConstant(m);
    var own := LeBytes(Fcs(m));
    if tail != own {
      ByteBurstDetected(m, tail, own, []);
      assert m + tail + [] == m + tail && m + own + [] == m + own;
    }
  }

  // The frame that is appended to passes the check on a little-endian host always, and on
  // a big-endian one exactly when its FCS reads the same in both directions.
  lemma AppendedFrame(m: seq<byte>, hostBig: bool)
    ensures var l := LeBytes(Fcs(m));
      Fcs(m + HostBytes(hostBig, Fcs(m))) == RESIDUE <==> !hostBig || (l[0] == l[3] && l[1] == l[2])
  {
    hide Fcs, LeBytes;
    var l := LeBytes(Fcs(m));
    ReceiverCheck(m, HostBytes(hostBig, Fcs(m)));
    assert [l[3], l[2], l[1], l[0]] == l <==> l[0] == l[3] && l[1] == l[2];
  }
}
