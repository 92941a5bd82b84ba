/**
 Words of any number of bytes, in either byte order, and where they lie in a region.
 */
module Words {
  type Byte = b: int | 0 <= b < 0x100

  function LeBytes(v: nat, n: nat): (b: seq<Byte>)
    ensures |b| == n
  {
    if n == 0 then [] else [v % 0x100] + LeBytes(v / 0x100, n - 1)
  }

  function LeValue(b: seq<Byte>): nat {
    if b == [] then 0 else b[0] + 0x100 * LeValue(b[1..])
  }

  function Reverse(b: seq<Byte>): (r: seq<Byte>)
    ensures |r| == |b|
    ensures forall k | 0 <= k < |b| :: r[k] == b[|b| - 1 - k]
  {
    seq(|b|, k requires 0 <= k < |b| => b[|b| - 1 - k])
  }

  function Encode(big: bool, n: nat, v: nat): (b: seq<Byte>)
    ensures |b| == n
  {
    if big then Reverse(LeBytes(v, n)) else LeBytes(v, n)
  }

  function Decode(big: bool, b: seq<Byte>): nat {
    LeValue(if big then Reverse(b) else b)
  }

  function Pow256(n: nat): (p: nat)
    ensures p > 0
  {
    if n == 0 then 1 else 0x100 * Pow256(n - 1)
  }

  // The word an n-byte unsigned variable holds after x is assigned to it.
  function Word(x: int, n: nat): (w: nat)
    ensures w < Pow256(n)
  {
    x % Pow256(n)
  }

  function Swapped(v: nat, n: nat): nat {
    LeValue(Reverse(LeBytes(v, n)))
  }

  lemma {:induction false} LeRoundTrip(v: nat, n: nat)
    requires v < Pow256(n)
    ensures LeValue(LeBytes(v, n)) == v
    decreases n
  {
    if n > 0 {
      LeRoundTrip(v / 0x100, n - 1);
      assert LeBytes(v, n)[1..] == LeBytes(v / 0x100, n - 1);
    }
  }

  lemma {:induction false} LeBytesOfValue(b: seq<Byte>)
    ensures LeValue(b) < Pow256(|b|) && LeBytes(LeValue(b), |b|) == b
    decreases |b|
  {
    if b != [] {
      LeBytesOfValue(b[1..]);
      Digit(LeValue(b), LeValue(b[1..]), b[0]);
      assert b == [b[0]] + b[1..];
      assert Pow256(|b|) == 0x100 * Pow256(|b| - 1);
    }
  }

  // Byte j of a word, counted from the lowest.
  lemma {:induction false} ByteOf(v: nat, n: nat, j: nat)
    requires j < n
    ensures LeBytes(v, n)[j] == v / Pow256(j) % 0x100
    decreases n
  {
    if j > 0 {
      ByteOf(v / 0x100, n - 1, j - 1);
      DivTwice(v, Pow256(j - 1));
    }
  }

  lemma AtLeastOne(p: nat, d: nat)
    requires d > 0
    ensures p * d >= p
  {
  }

  lemma DivModUnique(t: int, p: nat, q: int, r: int)
    requires p > 0 && t == p * q + r && 0 <= r < p
    ensures t / p == q && t % p == r
  {
    var q' := t / p;
    if q < q' {
      assert p * (q' - q) == p * q' - p * q;
      AtLeastOne(p, q' - q);
    } else if q > q' {
      assert p * (q - q') == p * q - p * q';
      AtLeastOne(p, q - q');
    }
  }

  lemma DivTwice(v: nat, b: nat)
    requires b > 0
    ensures v / 0x100 / b == v / (0x100 * b)
  {
    var q, r := v / 0x100, v % 0x100;
    var s, t := q / b, q % b;
    assert q == b * s + t && 0x100 * b * s == 0x100 * (b * s);
    DivModUnique(v, 0x100 * b, s, 0x100 * t + r);
  }

  // Dividing by 0x100 * p: the lowest byte joins the remainder of the others.
  lemma ModNext(x: nat, p: nat)
    requires p > 0
    ensures x % (0x100 * p) == 0x100 * (x / 0x100 % p) + x % 0x100
  {
    var h := x / 0x100;
    var q, r := h / p, h % p;
    assert h == p * q + r;
    assert 0x100 * p * q == 0x100 * (p * q);
    DivModUnique(x, 0x100 * p, q, 0x100 * r + x % 0x100);
  }

  lemma WordNext(x: nat, n: nat)
    requires n > 0
    ensures Word(x, n) % 0x100 == x % 0x100 && Word(x, n) / 0x100 == Word(x / 0x100, n - 1)
  {
    var p := Pow256(n - 1);
    assert Pow256(n) == 0x100 * p;
    ModNext(x, p);
    Digit(Word(x, n), x / 0x100 % p, x % 0x100);
  }

  lemma Digit(w: nat, high: nat, low: nat)
    requires w == 0x100 * high + low && low < 0x100
    ensures w % 0x100 == low && w / 0x100 == high
  {
  }

  // Only the low bytes count.
  lemma {:induction false} LowBytes(x: nat, n: nat)
    ensures LeBytes(Word(x, n), n) == LeBytes(x, n)
    decreases n
  {
    hide Word;
    if n > 0 {
      LowBytes(x / 0x100, n - 1);
      WordNext(x, n);
    }
  }

  lemma ReverseTwice(b: seq<Byte>)
    ensures Reverse(Reverse(b)) == b
  {
  }

  // What is stored in a mode is read back in that mode, and byte-swapped in the other.
  lemma DecodeEncode(big: bool, n: nat, v: nat)
    requires v < Pow256(n)
    ensures Decode(big, Encode(big, n, v)) == v
    ensures Decode(!big, Encode(big, n, v)) == Swapped(v, n)
  {
    LeRoundTrip(v, n);
    ReverseTwice(LeBytes(v, n));
  }

  // Writing back what was read changes no byte.
  lemma EncodeDecode(big: bool, b: seq<Byte>)
    ensures Decode(big, b) < Pow256(|b|) && Encode(big, |b|, Decode(big, b)) == b
  {
    LeBytesOfValue(if big then Reverse(b) else b);
    ReverseTwice(b);
  }

  // Where the i-th word starts.
  function Offset(n: nat, i: nat): nat {
    n * i
  }

  lemma OffsetNext(n: nat, i: nat)
    ensures Offset(n, i + 1) == Offset(n, i) + n
  {
  }

  lemma OffsetFits(n: nat, i: nat, count: nat)
    requires i < count
    ensures Offset(n, i + 1) == Offset(n, i) + n <= Offset(n, count)
  {
  }

  // A region with some of its bytes replaced.
  function Put(m: seq<Byte>, addr: nat, b: seq<Byte>): (r: seq<Byte>)
    requires addr + |b| <= |m|
    ensures |r| == |m|
    ensures forall k | 0 <= k < |m| :: r[k] == if addr <= k < addr + |b| then b[k - addr] else m[k]
  {
    m[..addr] + b + m[addr + |b|..]
  }
}
