/**
 Polynomials over GF(2) as bit strings, highest power first, and division by the
 CRC-32 generator of section 3.2.9 of IEEE 802.3.
 */
module Gf2 {
  type Bits = seq<bool>

  const DEGREE := 32

  // x^32 + x^26 + x^23 + x^22 + x^16 + x^12 + x^11 + x^10 + x^8 + x^7 + x^5 + x^4 + x^2 + x + 1
  const POWERS: set<nat> := {32, 26, 23, 22, 16, 12, 11, 10, 8, 7, 5, 4, 2, 1, 0}

  function Generator(): (g: Bits)
    ensures |g| == DEGREE + 1 && g[0] && g[DEGREE]
  {
    seq(DEGREE + 1, k requires 0 <= k <= DEGREE => DEGREE - k in POWERS)
  }

  function Zeros(n: nat): (z: Bits)
    ensures |z| == n && forall k | 0 <= k < n :: !z[k]
  {
    seq(n, _ => false)
  }

  // Addition, which is also subtraction.
  function Xor(a: Bits, b: Bits): (c: Bits)
    requires |a| == |b|
    ensures |c| == |a| && forall k | 0 <= k < |a| :: c[k] == (a[k] != b[k])
  {
    seq(|a|, k requires 0 <= k < |a| => a[k] != b[k])
  }

  // The product of q and the generator.
  function Times(q: Bits): (p: Bits)
    ensures |p| == |q| + DEGREE
  {
    if q == [] then Zeros(DEGREE)
    else
      var rest := [false] + Times(q[1..]);
      if q[0] then Xor(Generator() + Zeros(|q| - 1), rest) else rest
  }

  // A remainder, written to the length of a dividend with n quotient bits.
  function Padded(n: nat, r: Bits): (p: Bits)
    ensures |p| == n + |r|
    ensures forall k | 0 <= k < n :: !p[k]
    ensures forall k | n <= k < n + |r| :: p[k] == r[k - n]
  {
    Zeros(n) + r
  }

  // r is the remainder of p divided by the generator.
  ghost predicate IsRemainder(p: Bits, r: Bits) {
    |r| == DEGREE && exists q :: |q| + DEGREE == |p| && p == Xor(Times(q), Padded(|q|, r))
  }

  // ----- The shift register -----

  // One step: multiply by x modulo the generator.
  function Shift(r: Bits): (s: Bits)
    requires |r| == DEGREE
    ensures |s| == DEGREE
  {
    if r[0] then Xor(r[1..] + [false], Generator()[1..]) else r[1..] + [false]
  }

  function ShiftN(r: Bits, n: nat): (s: Bits)
    requires |r| == DEGREE
    ensures |s| == DEGREE
    decreases n
  {
    if n == 0 then r else ShiftN(Shift(r), n - 1)
  }

  // Feed message bits into the register, first bit first.
  function Feed(r: Bits, m: Bits): (s: Bits)
    requires |r| == DEGREE
    ensures |s| == DEGREE
    decreases |m|
  {
    if m == [] then r else Feed(Shift(r[0 := r[0] != m[0]]), m[1..])
  }

  // The message polynomial times x^32, with the register's preset added to its
  // leading 32 coefficients.
  function Dividend(r: Bits, m: Bits): (p: Bits)
    requires |r| == DEGREE
    ensures |p| == |m| + DEGREE
  {
    Xor(m + Zeros(DEGREE), r + Zeros(|m|))
  }

  // ----- The register holds the remainder -----

  // One bit of long division.
  lemma DivideOne(r: Bits, m: Bits)
    requires |r| == DEGREE && m != []
    ensures var t := r[0] != m[0]; var rest := [false] + Dividend(Shift(r[0 := t]), m[1..]);
      Dividend(r, m) == if t then Xor(Generator() + Zeros(|m| - 1), rest) else rest
  {
    var t := r[0] != m[0];
    var s := Shift(r[0 := t]);
    var rest := [false] + Dividend(s, m[1..]);
    var lead := Generator() + Zeros(|m| - 1);
    var whole := Dividend(r, m);
    forall k | 0 <= k < |whole| ensures whole[k] == if t then Xor(lead, rest)[k] else rest[k] {
      if k > 0 {
        assert (m + Zeros(DEGREE))[k] == (m[1..] + Zeros(DEGREE))[k - 1];
        if k < DEGREE {
          assert (r + Zeros(|m|))[k] == r[k];
          assert s[k - 1] == (r[k] != (t && Generator()[k]));
        } else if k == DEGREE {
          assert s[k - 1] == t;
        }
      }
    }
    if t {
      assert whole == Xor(lead, rest);
    } else {
      assert whole == rest;
    }
  }

  lemma XorAssoc(a: Bits, b: Bits, c: Bits)
    requires |a| == |b| == |c|
    ensures Xor(a, Xor(b, c)) == Xor(Xor(a, b), c)
  {
  }

  // (a + b) + c == (a + c) + b
  lemma XorSwap(a: Bits, b: Bits, c: Bits)
    requires |a| == |b| == |c|
    ensures Xor(Xor(a, b), c) == Xor(Xor(a, c), b)
  {
  }

  lemma XorLongerByOne(a: Bits, n: nat, r: Bits)
    requires |a| == n + |r|
    ensures [false] + Xor(a, Padded(n, r)) == Xor([false] + a, Padded(n + 1, r))
  {
    hide Padded, Xor;
    var l, m := [false] + Xor(a, Padded(n, r)), Xor([false] + a, Padded(n + 1, r));
    forall k | 0 <= k < |l| ensures l[k] == m[k] {
      if k > 0 {
        assert ([false] + a)[k] == a[k - 1];
      }
    }
  }

  // One digit of long division, on polynomials that have been computed.
  lemma OneMoreDigit(t: bool, lead: Bits, product: Bits, n: nat, r: Bits)
    requires |lead| == |product| + 1 == n + 1 + |r|
    ensures var rest := [false] + Xor(product, Padded(n, r)); var more := [false] + product;
      (if t then Xor(lead, rest) else rest)
      == Xor(if t then Xor(lead, more) else more, Padded(n + 1, r))
  {
    hide Xor, Padded;
    XorLongerByOne(product, n, r);
    if t {
      XorAssoc(lead, [false] + product, Padded(n + 1, r));
    }
  }

  lemma {:induction false} RegisterDivides(r: Bits, m: Bits) returns (q: Bits)
    requires |r| == DEGREE
    ensures |q| == |m| && Dividend(r, m) == Xor(Times(q), Padded(|q|, Feed(r, m)))
    decreases |m|
  {
    if m == [] {
      q := [];
      assert Dividend(r, m) == r;
      assert Xor(Times([]), Padded(0, r)) == r;
    } else {
      hide Generator, Shift, Dividend, Xor, Padded, Zeros;
      var t := r[0] != m[0];
      var s := Shift(r[0 := t]);
      var q' := RegisterDivides(s, m[1..]);
      q := [t] + q';
      assert q[1..] == q' && Feed(r, m) == Feed(s, m[1..]);
      DivideOne(r, m);
      hide Feed;
      OneMoreDigit(t, Generator() + Zeros(|m| - 1), Times(q'), |q'|, Feed(r, m));
    }
  }

  // A quotient and a remainder are determined by what they make up.
  lemma {:induction false} DivisionUnique(q: Bits, r: Bits, q': Bits, r': Bits)
    requires |q| == |q'| && |r| == |r'| == DEGREE
    requires Xor(Times(q), Padded(|q|, r)) == Xor(Times(q'), Padded(|q|, r'))
    ensures q == q' && r == r'
    decreases |q|
  {
    hide Generator, Xor, Padded, Zeros;
    var p, p' := Xor(Times(q), Padded(|q|, r)), Xor(Times(q'), Padded(|q|, r'));
    if q == [] {
      assert p == r && p' == r';
    } else {
      FirstDigit(q, r, q', r');
      hide Times;
      DivisionUnique(q[1..], r, q'[1..], r');
      assert q == [q[0]] + q[1..] && q' == [q'[0]] + q'[1..];
    }
  }

  lemma FirstDigit(q: Bits, r: Bits, q': Bits, r': Bits)
    requires |q| == |q'| > 0 && |r| == |r'| == DEGREE
    requires Xor(Times(q), Padded(|q|, r)) == Xor(Times(q'), Padded(|q|, r'))
    ensures q[0] == q'[0]
    ensures Xor(Times(q[1..]), Padded(|q| - 1, r)) == Xor(Times(q'[1..]), Padded(|q| - 1, r'))
  {
    hide Times, Generator, Xor, Padded, Zeros;
    var p, p' := Xor(Times(q), Padded(|q|, r)), Xor(Times(q'), Padded(|q|, r'));
    TimesAt(q);
    TimesAt(q');
    var t, t' := Times(q[1..]), Times(q'[1..]);
    assert p[0] == q[0] && p'[0] == q'[0];
    var u, u' := Xor(t, Padded(|q| - 1, r)), Xor(t', Padded(|q| - 1, r'));
    forall k | 0 <= k < |u| ensures u[k] == u'[k] {
      assert p[k + 1] == p'[k + 1];
    }
    assert u == u';
  }

  lemma TimesAt(q: Bits)
    requires q != []
    ensures Times(q)[0] == q[0]
    ensures forall k | 0 < k < |q| + DEGREE ::
      Times(q)[k] == ((q[0] && (Generator() + Zeros(|q| - 1))[k]) != Times(q[1..])[k - 1])
  {
    hide Generator;
    var g := Generator();
  }

  // Feeding a message leaves exactly the remainder of its dividend.
  lemma FeedIsRemainder(r: Bits, m: Bits, s: Bits)
    requires |r| == DEGREE
    ensures IsRemainder(Dividend(r, m), s) <==> s == Feed(r, m)
  {
    var q := RegisterDivides(r, m);
    assert IsRemainder(Dividend(r, m), Feed(r, m));
    if IsRemainder(Dividend(r, m), s) {
      var q' :| |q'| + DEGREE == |Dividend(r, m)| && Dividend(r, m) == Xor(Times(q'), Padded(|q'|, s));
      DivisionUnique(q, Feed(r, m), q', s);
    }
  }

  // ----- What the register cannot tell apart -----

  lemma {:induction false} TimesAdds(a: Bits, b: Bits)
    requires |a| == |b|
    ensures Times(Xor(a, b)) == Xor(Times(a), Times(b))
    decreases |a|
  {
    if a == [] {
      assert Xor(Times(a), Times(b)) == Zeros(DEGREE);
    } else {
      TimesAdds(a[1..], b[1..]);
      assert Xor(a, b)[1..] == Xor(a[1..], b[1..]);
      var lead := Generator() + Zeros(|a| - 1);
      var x, y := [false] + Times(a[1..]), [false] + Times(b[1..]);
      var p, c := Xor(Times(a), Times(b)), Times(Xor(a, b));
      forall k | 0 <= k < |p| ensures p[k] == c[k] {
        assert Times(a)[k] == ((a[0] && lead[k]) != x[k]);
        assert Times(b)[k] == ((b[0] && lead[k]) != y[k]);
        assert c[k] == ((Xor(a, b)[0] && lead[k]) != ([false] + Times(Xor(a, b)[1..]))[k]);
      }
    }
  }

  // Two messages of one length leave the same register exactly when their difference
  // is a multiple of the generator.
  lemma SameRegister(r: Bits, a: Bits, b: Bits)
    requires |r| == DEGREE && |a| == |b|
    ensures Feed(r, a) == Feed(r, b) <==>
      exists q :: |q| == |a| && Xor(a, b) + Zeros(DEGREE) == Times(q)
  {
    var qa := RegisterDivides(r, a);
    var qb := RegisterDivides(r, b);
    var diff := Xor(a, b) + Zeros(DEGREE);
    assert diff == Xor(Dividend(r, a), Dividend(r, b));
    assert Dividend(r, b) == Xor(Dividend(r, a), diff);
    hide Dividend, Feed, Generator, Zeros, Times;
    if Feed(r, a) == Feed(r, b) {
      TimesAdds(qa, qb);
      XorCancels(Times(qa), Times(qb), Padded(|qa|, Feed(r, a)));
      assert diff == Times(Xor(qa, qb));
    }
    if q :| |q| == |a| && diff == Times(q) {
      TimesAdds(qa, q);
      XorSwap(Times(qa), Padded(|q|, Feed(r, a)), Times(q));
      DivisionUnique(qb, Feed(r, b), Xor(qa, q), Feed(r, a));
    }
  }

  lemma XorCancels(a: Bits, b: Bits, c: Bits)
    requires |a| == |b| == |c|
    ensures Xor(Xor(a, c), Xor(b, c)) == Xor(a, b)
  {
  }

  // ----- The register map is linear -----

  lemma ShiftAdds(r: Bits, s: Bits)
    requires |r| == |s| == DEGREE
    ensures Shift(Xor(r, s)) == Xor(Shift(r), Shift(s))
  {
    hide Generator;
    var g := Generator();
    forall k | 0 <= k < DEGREE ensures Shift(Xor(r, s))[k] == Xor(Shift(r), Shift(s))[k] {
      assert Shift(r)[k] == ((r[1..] + [false])[k] != (r[0] && g[k + 1]));
      assert Shift(s)[k] == ((s[1..] + [false])[k] != (s[0] && g[k + 1]));
    }
  }

  lemma {:induction false} FeedAdds(r: Bits, s: Bits, a: Bits, b: Bits)
    requires |r| == |s| == DEGREE && |a| == |b|
    ensures Feed(Xor(r, s), Xor(a, b)) == Xor(Feed(r, a), Feed(s, b))
    decreases |a|
  {
    hide Shift;
    if a != [] {
      var r', s' := r[0 := r[0] != a[0]], s[0 := s[0] != b[0]];
      var sum := Xor(r, s);
      assert sum[0 := sum[0] != Xor(a, b)[0]] == Xor(r', s');
      assert Xor(a, b)[1..] == Xor(a[1..], b[1..]);
      ShiftAdds(r', s');
      FeedAdds(Shift(r'), Shift(s'), a[1..], b[1..]);
    }
  }

  // ----- The register map is reversible -----

  lemma ShiftInjective(r: Bits, s: Bits)
    requires |r| == |s| == DEGREE && Shift(r) == Shift(s)
    ensures r == s
  {
    assert Shift(r)[DEGREE - 1] == r[0] && Shift(s)[DEGREE - 1] == s[0];
    forall k | 0 < k < DEGREE ensures r[k] == s[k] {
      assert Shift(r)[k - 1] == (r[k] != (r[0] && Generator()[k]));
      assert Shift(s)[k - 1] == (s[k] != (s[0] && Generator()[k]));
    }
  }

  lemma {:induction false} ShiftNInjective(r: Bits, s: Bits, n: nat)
    requires |r| == |s| == DEGREE && ShiftN(r, n) == ShiftN(s, n)
    ensures r == s
    decreases n
  {
    if n > 0 {
      ShiftNInjective(Shift(r), Shift(s), n - 1);
      ShiftInjective(r, s);
    }
  }

  lemma ShiftAt(r: Bits, k: nat)
    requires |r| == DEGREE && k < DEGREE
    ensures Shift(r)[k] == ((k < DEGREE - 1 && r[k + 1]) != (r[0] && Generator()[k + 1]))
  {
  }

  // Adding a word before shifting, or its first bit before and the rest after.
  lemma ShiftedSum(r: Bits, w: Bits)
    requires |r| == DEGREE && 0 < |w| <= DEGREE
    ensures Xor(Shift(r[0 := r[0] != w[0]]), w[1..] + Zeros(DEGREE - |w| + 1))
         == Shift(Xor(r, w + Zeros(DEGREE - |w|)))
  {
    hide Shift, Generator;
    var all, first := Xor(r, w + Zeros(DEGREE - |w|)), r[0 := r[0] != w[0]];
    var s, t, rest := Shift(first), Shift(all), w[1..] + Zeros(DEGREE - |w| + 1);
    forall k | 0 <= k < DEGREE ensures Xor(s, rest)[k] == t[k] {
      ShiftAt(first, k);
      ShiftAt(all, k);
    }
    assert Xor(s, rest) == t;
  }

  // At most a register's worth of bits may be added in one go before shifting.
  lemma {:induction false} Preload(r: Bits, w: Bits)
    requires |r| == DEGREE && |w| <= DEGREE
    ensures Feed(r, w) == ShiftN(Xor(r, w + Zeros(DEGREE - |w|)), |w|)
    decreases |w|
  {
    hide Generator, Shift;
    var all := Xor(r, w + Zeros(DEGREE - |w|));
    if w == [] {
      assert all == r;
    } else {
      hide Xor, Zeros;
      Preload(Shift(r[0 := r[0] != w[0]]), w[1..]);
      ShiftedSum(r, w);
    }
  }

  lemma {:induction false} FeedAppend(r: Bits, a: Bits, b: Bits)
    requires |r| == DEGREE
    ensures Feed(r, a + b) == Feed(Feed(r, a), b)
    decreases |a|
  {
    if a == [] {
      assert a + b == b;
    } else {
      assert (a + b)[1..] == a[1..] + b;
      FeedAppend(Shift(r[0 := r[0] != a[0]]), a[1..], b);
    }
  }

  // Different registers stay different under the same bits.
  lemma {:induction false} FeedInjective(r: Bits, s: Bits, m: Bits)
    requires |r| == |s| == DEGREE && Feed(r, m) == Feed(s, m)
    ensures r == s
    decreases |m|
  {
    if m != [] {
      var r', s' := r[0 := r[0] != m[0]], s[0 := s[0] != m[0]];
      FeedInjective(Shift(r'), Shift(s'), m[1..]);
      ShiftInjective(r', s');
      assert r == r'[0 := r[0]] && s == s'[0 := s[0]];
    }
  }

  // Two bursts of at most 32 bits leave the same register only if they are equal.
  lemma BurstInjective(r: Bits, v: Bits, w: Bits)
    requires |r| == DEGREE && |v| == |w| <= DEGREE && Feed(r, v) == Feed(r, w)
    ensures v == w
  {
    Preload(r, v);
    Preload(r, w);
    var x, y := v + Zeros(DEGREE - |v|), w + Zeros(DEGREE - |w|);
    ShiftNInjective(Xor(r, x), Xor(r, y), |v|);
    forall k | 0 <= k < |v| ensures v[k] == w[k] {
      assert Xor(r, x)[k] == (r[k] != v[k]) && Xor(r, y)[k] == (r[k] != w[k]);
    }
  }
}
