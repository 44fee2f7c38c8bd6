/**
 Polynomials over GF(2), written as bit strings with the most significant
 coefficient first, and the shift register that divides by one of them.

 A generator of degree w is [true] + p, where p holds its w low coefficients.
 Nothing in this module knows about bytes or machine words.
 */
module Gf2 {
  type Bits = seq<bool>

  function Zeros(n: nat): (z: Bits)
    ensures |z| == n
  {
    seq(n, i => false)
  }

  /** Addition of polynomials. */
  function Xor(a: Bits, b: Bits): (c: Bits)
    requires |a| == |b|
    ensures |c| == |a|
  {
    seq(|a|, i requires 0 <= i < |a| => a[i] != b[i])
  }

  lemma XorAt(a: Bits, b: Bits)
    requires |a| == |b|
    ensures forall i :: 0 <= i < |a| ==> Xor(a, b)[i] == (a[i] != b[i])
  {
  }

  lemma XorConcat(a: Bits, b: Bits, c: Bits, d: Bits)
    requires |a| == |c| && |b| == |d|
    ensures Xor(a + b, c + d) == Xor(a, c) + Xor(b, d)
  {
  }

  /** Schoolbook product by Horner's rule: (q*x + b) * g == (q*g)*x + b*g. */
  ghost function Times(q: Bits, g: Bits): (m: Bits)
    requires |g| > 0
    ensures |m| == |q| + |g| - 1
  {
    if q == [] then Zeros(|g| - 1)
    else
      var n := |q| - 1;
      Xor(Times(q[..n], g) + [false], Zeros(n) + if q[n] then g else Zeros(|g|))
  }

  /** r is the remainder of d on division by g: d == q*g + r for some q, with r of lower degree than g. */
  ghost predicate IsRemainder(g: Bits, d: Bits, r: Bits)
    requires 0 < |g| <= |d| + 1
  {
    |r| == |g| - 1 &&
    exists q: Bits :: |q| == |d| - |r| && d == Xor(Times(q, g), Zeros(|q|) + r)
  }

  /** Multiplication by x, reduced: one clock of the register without input. */
  function Shift(p: Bits, r: Bits): (s: Bits)
    requires |p| == |r| > 0
    ensures |s| == |r|
  {
    var s := r[1..] + [false];
    if r[0] then Xor(s, p) else s
  }

  function ShiftN(p: Bits, r: Bits, k: nat): (s: Bits)
    requires |p| == |r| > 0
    ensures |s| == |r|
    decreases k
  {
    if k == 0 then r else ShiftN(p, Shift(p, r), k - 1)
  }

  /** One clock with message bit b added to the leading register bit. */
  function Step(p: Bits, r: Bits, b: bool): (s: Bits)
    requires |p| == |r| > 0
    ensures |s| == |r|
  {
    Shift(p, r[0 := r[0] != b])
  }

  function Feed(p: Bits, r: Bits, m: Bits): (s: Bits)
    requires |p| == |r| > 0
    ensures |s| == |r|
    decreases |m|
  {
    if m == [] then r else Feed(p, Step(p, r, m[0]), m[1..])
  }

  lemma {:induction false} FeedConcat(p: Bits, r: Bits, a: Bits, b: Bits)
    requires |p| == |r| > 0
    ensures Feed(p, r, a + b) == Feed(p, Feed(p, r, a), b)
    decreases |a|
  {
    if a == [] {
      assert a + b == b;
    } else {
      assert (a + b)[1..] == a[1..] + b;
      FeedConcat(p, Step(p, r, a[0]), a[1..], b);
    }
  }

  lemma FeedSnoc(p: Bits, r: Bits, m: Bits, b: bool)
    requires |p| == |r| > 0
    ensures Feed(p, r, m + [b]) == Step(p, Feed(p, r, m), b)
  {
    FeedConcat(p, r, m, [b]);
  }

  // ---------------------------------------------------------------- division

  /** m*x^w plus the start value r placed on the w leading coefficients. */
  ghost function Adjusted(r: Bits, m: Bits): (d: Bits)
    ensures |d| == |r| + |m|
  {
    Xor(m + Zeros(|r|), r + Zeros(|m|))
  }

  /** The bits that fall out of the register are the quotient. */
  ghost function Quotient(p: Bits, r: Bits, m: Bits): (q: Bits)
    requires |p| == |r| > 0
    ensures |q| == |m|
  {
    if m == [] then []
    else
      var n := |m| - 1;
      Quotient(p, r, m[..n]) + [Feed(p, r, m[..n])[0] != m[n]]
  }

  lemma {:induction false} FeedDivides(p: Bits, r: Bits, m: Bits)
    requires |p| == |r| > 0
    ensures Adjusted(r, m) == Xor(Times(Quotient(p, r, m), [true] + p), Zeros(|m|) + Feed(p, r, m))
    decreases |m|
  {
    if m == [] {
      assert Adjusted(r, m) == r;
      assert Xor(Zeros(|p|), Zeros(0) + r) == r;
    } else {
      hide Xor, Zeros, Adjusted, Step, Feed, Times;
      var n := |m| - 1;
      var m', b := m[..n], m[n];
      assert m == m' + [b];
      FeedDivides(p, r, m');
      FeedSnoc(p, r, m', b);
      DivideOneBit(p, r, m', b, Quotient(p, r, m'), Feed(p, r, m'));
      assert Quotient(p, r, m)[..n] == Quotient(p, r, m');
    }
  }

  /** One more message bit: the old identity times x, with the outgoing bit t taking away t times the generator. */
  lemma DivideOneBit(p: Bits, r: Bits, m: Bits, b: bool, q: Bits, f: Bits)
    requires |p| == |r| == |f| > 0 && |q| == |m|
    requires Adjusted(r, m) == Xor(Times(q, [true] + p), Zeros(|m|) + f)
    ensures Adjusted(r, m + [b]) ==
            Xor(Times(q + [f[0] != b], [true] + p), Zeros(|m| + 1) + Step(p, f, b))
  {
    hide Xor, Zeros, Step, Adjusted, Times;
    var t, n, g := f[0] != b, |m|, [true] + p;
    var c, tg := (Zeros(n) + [b]) + Zeros(|p|), Zeros(n) + if t then g else Zeros(|p| + 1);
    calc {
      Adjusted(r, m + [b]);
      { AdjustedSnoc(r, m, b); }
      Xor(Xor(Times(q, g), Zeros(n) + f) + [false], c);
      { StepAsSubtraction(p, f, b, n); XorExchange(Times(q, g), Zeros(n) + f, c, tg, Zeros(n + 1) + Step(p, f, b)); }
      Xor(Xor(Times(q, g) + [false], tg), Zeros(n + 1) + Step(p, f, b));
      { TimesSnoc(q, t, g); }
      Xor(Times(q + [t], g), Zeros(n + 1) + Step(p, f, b));
    }
  }

  lemma TimesSnoc(q: Bits, t: bool, g: Bits)
    requires |g| > 0
    ensures Times(q + [t], g) == Xor(Times(q, g) + [false], Zeros(|q|) + if t then g else Zeros(|g|))
  {
    assert (q + [t])[..|q|] == q;
  }

  lemma AdjustedSnoc(r: Bits, m: Bits, b: bool)
    ensures Adjusted(r, m + [b]) == Xor(Adjusted(r, m) + [false], (Zeros(|m|) + [b]) + Zeros(|r|))
  {
    var lhs, rhs := Adjusted(r, m + [b]), Xor(Adjusted(r, m) + [false], (Zeros(|m|) + [b]) + Zeros(|r|));
    var n, w := |m|, |r|;
    forall i | 0 <= i < n + 1 + w
      ensures lhs[i] == rhs[i]
    {
      assert lhs[i] == ((i == n && b) != ((i < n && m[i]) != (i < w && r[i])));
    }
  }

  lemma StepAsSubtraction(p: Bits, f: Bits, b: bool, n: nat)
    requires |p| == |f| > 0
    ensures Xor(Zeros(n) + f + [false], (Zeros(n) + [b]) + Zeros(|p|)) ==
            Xor(Zeros(n) + if f[0] != b then [true] + p else Zeros(|p| + 1), Zeros(n + 1) + Step(p, f, b))
  {
  }

  lemma XorExchange(a: Bits, f: Bits, b: Bits, c: Bits, d: Bits)
    requires |a| == |f| && |b| == |c| == |d| == |a| + 1
    requires Xor(f + [false], b) == Xor(c, d)
    ensures Xor(Xor(a, f) + [false], b) == Xor(Xor(a + [false], c), d)
  {
    forall i | 0 <= i < |b|
      ensures Xor(Xor(a, f) + [false], b)[i] == Xor(Xor(a + [false], c), d)[i]
    {
      assert Xor(f + [false], b)[i] == Xor(c, d)[i];
    }
  }

  lemma TimesSnocAt(q: Bits, t: bool, g: Bits, i: nat)
    requires |g| > 0 && i <= |q|
    ensures Times(q + [t], g)[i] == ((Times(q, g) + [false])[i] != (i == |q| && t && g[0]))
  {
    hide Times;
    TimesSnoc(q, t, g);
  }

  /** Two products with a monic generator that agree on their leading |q| coefficients have equal factors. */
  lemma {:induction false} LeadingBitsFixQuotient(q: Bits, q': Bits, g: Bits)
    requires |q| == |q'| && |g| > 0 && g[0]
    requires forall i :: 0 <= i < |q| ==> Times(q, g)[i] == Times(q', g)[i]
    ensures q == q'
    decreases |q|
  {
    hide Times;
    if q != [] {
      var n := |q| - 1;
      assert q == q[..n] + [q[n]] && q' == q'[..n] + [q'[n]];
      forall i | 0 <= i < n
        ensures Times(q[..n], g)[i] == Times(q'[..n], g)[i]
      {
        TimesSnocAt(q[..n], q[n], g, i);
        TimesSnocAt(q'[..n], q'[n], g, i);
      }
      LeadingBitsFixQuotient(q[..n], q'[..n], g);
      TimesSnocAt(q[..n], q[n], g, n);
      TimesSnocAt(q'[..n], q'[n], g, n);
    }
  }

  lemma SumsAgree(t: Bits, s: Bits, t': Bits, s': Bits, n: nat)
    requires |s| == |s'| && |t| == |t'| == n + |s|
    requires Xor(t, Zeros(n) + s) == Xor(t', Zeros(n) + s')
    ensures forall i :: 0 <= i < n ==> t[i] == t'[i]
    ensures t == t' ==> s == s'
  {
    var d, d' := Xor(t, Zeros(n) + s), Xor(t', Zeros(n) + s');
    forall i | 0 <= i < n
      ensures t[i] == t'[i]
    {
      assert d[i] == t[i] && d'[i] == t'[i];
    }
    if t == t' {
      forall i | 0 <= i < |s|
        ensures s[i] == s'[i]
      {
        assert d[n + i] == (t[n + i] != s[i]) && d'[n + i] == (t'[n + i] != s'[i]);
      }
    }
  }

  /** Quotient and remainder are determined by the dividend. */
  lemma DivisionUnique(g: Bits, q: Bits, s: Bits, q': Bits, s': Bits)
    requires |g| > 0 && g[0] && |q| == |q'| && |s| == |s'| == |g| - 1
    requires Xor(Times(q, g), Zeros(|q|) + s) == Xor(Times(q', g), Zeros(|q|) + s')
    ensures q == q' && s == s'
  {
    hide Xor, Zeros, Times;
    SumsAgree(Times(q, g), s, Times(q', g), s', |q|);
    LeadingBitsFixQuotient(q, q', g);
  }

  /** The register holds the remainder, and nothing else is the remainder. */
  lemma RegisterIsTheRemainder(p: Bits, r: Bits, m: Bits, s: Bits)
    requires |p| == |r| > 0
    ensures IsRemainder([true] + p, Adjusted(r, m), s) <==> s == Feed(p, r, m)
  {
    var g, d, f, q := [true] + p, Adjusted(r, m), Feed(p, r, m), Quotient(p, r, m);
    FeedDivides(p, r, m);
    assert |q| == |d| - |f|;
    assert IsRemainder(g, d, f);
    if IsRemainder(g, d, s) {
      var q' :| |q'| == |d| - |s| && d == Xor(Times(q', g), Zeros(|q'|) + s);
      DivisionUnique(g, q, f, q', s);
    }
  }

  // --------------------------------------------------------------- linearity

  lemma StepLinear(p: Bits, r: Bits, r': Bits, b: bool, b': bool)
    requires |p| == |r| == |r'| > 0
    ensures Step(p, Xor(r, r'), b != b') == Xor(Step(p, r, b), Step(p, r', b'))
  {
  }

  lemma {:induction false} FeedLinear(p: Bits, r: Bits, r': Bits, m: Bits, m': Bits)
    requires |p| == |r| == |r'| > 0 && |m| == |m'|
    ensures Feed(p, Xor(r, r'), Xor(m, m')) == Xor(Feed(p, r, m), Feed(p, r', m'))
    decreases |m|
  {
    if m != [] {
      StepLinear(p, r, r', m[0], m'[0]);
      assert Xor(m, m')[1..] == Xor(m[1..], m'[1..]);
      FeedLinear(p, Step(p, r, m[0]), Step(p, r', m'[0]), m[1..], m'[1..]);
    }
  }

  // ---------------------------------------------------------- error patterns

  /** r with a message of at most |r| bits added from the top. */
  function PadXor(r: Bits, m: Bits): (v: Bits)
    requires |m| <= |r|
    ensures |v| == |r|
  {
    Xor(r, m + Zeros(|r| - |m|))
  }

  lemma StepPads(p: Bits, r: Bits, m: Bits)
    requires |p| == |r| > 0 && 0 < |m| <= |r|
    ensures PadXor(Step(p, r, m[0]), m[1..]) == Shift(p, PadXor(r, m))
  {
    var w, v := |r|, PadXor(r, m);
    var lhs, rhs := PadXor(Step(p, r, m[0]), m[1..]), Shift(p, v);
    assert v[0] == (r[0] != m[0]);
    forall i | 0 <= i < w
      ensures lhs[i] == rhs[i]
    {
      assert Step(p, r, m[0])[i] == ((if i + 1 < w then r[i + 1] else false) != (v[0] && p[i]));
      assert rhs[i] == ((if i + 1 < w then v[i + 1] else false) != (v[0] && p[i]));
    }
  }

  /** Feeding at most w bits is adding them at the top and clocking. */
  lemma {:induction false} FeedIsShift(p: Bits, r: Bits, m: Bits)
    requires |p| == |r| > 0 && |m| <= |r|
    ensures Feed(p, r, m) == ShiftN(p, PadXor(r, m), |m|)
    decreases |m|
  {
    if m == [] {
      assert PadXor(r, m) == r;
    } else {
      FeedIsShift(p, Step(p, r, m[0]), m[1..]);
      StepPads(p, r, m);
    }
  }

  /** With a nonzero constant coefficient the register never forgets. */
  lemma ShiftInjective(p: Bits, r: Bits, r': Bits)
    requires |p| == |r| == |r'| > 0 && p[|p| - 1]
    requires Shift(p, r) == Shift(p, r')
    ensures r == r'
  {
    var w := |p|;
    assert r[0] == Shift(p, r)[w - 1] == r'[0];
    forall i | 1 <= i < w
      ensures r[i] == r'[i]
    {
      assert Shift(p, r)[i - 1] == (r[i] != (r[0] && p[i - 1]));
      assert Shift(p, r')[i - 1] == (r'[i] != (r'[0] && p[i - 1]));
    }
  }

  lemma {:induction false} ShiftNInjective(p: Bits, r: Bits, r': Bits, k: nat)
    requires |p| == |r| == |r'| > 0 && p[|p| - 1]
    requires ShiftN(p, r, k) == ShiftN(p, r', k)
    ensures r == r'
    decreases k
  {
    if k > 0 {
      ShiftNInjective(p, Shift(p, r), Shift(p, r'), k - 1);
      ShiftInjective(p, r, r');
    }
  }

  lemma {:induction false} FeedInjective(p: Bits, r: Bits, r': Bits, m: Bits)
    requires |p| == |r| == |r'| > 0 && p[|p| - 1]
    requires Feed(p, r, m) == Feed(p, r', m)
    ensures r == r'
    decreases |m|
  {
    if m != [] {
      FeedInjective(p, Step(p, r, m[0]), Step(p, r', m[0]), m[1..]);
      ShiftInjective(p, r[0 := r[0] != m[0]], r'[0 := r'[0] != m[0]]);
      assert r == r[0 := r[0] != m[0]][0 := r[0]];
      assert r' == r'[0 := r'[0] != m[0]][0 := r'[0]];
    }
  }

  /** x and y agree outside the k positions that start at j. */
  predicate DifferOnlyIn(x: Bits, y: Bits, j: nat, k: nat) {
    |x| == |y| && forall i :: 0 <= i < |x| && !(j <= i < j + k) ==> x[i] == y[i]
  }

  /** Two messages that differ only inside a window no wider than the register end in different states. */
  lemma BurstDetected(p: Bits, r: Bits, x: Bits, y: Bits, j: nat, k: nat)
    requires |p| == |r| > 0 && p[|p| - 1]
    requires k <= |p| && DifferOnlyIn(x, y, j, k) && x != y
    ensures Feed(p, r, x) != Feed(p, r, y)
  {
    hide Feed;
    if j < |x| {
      var e := if j + k <= |x| then j + k else |x|;
      assert x[..j] == y[..j] && x[e..] == y[e..];
      Pieces(x, j, e);
      Pieces(y, j, e);
      WindowDetected(p, r, x[..j], x[j..e], y[j..e], x[e..]);
    }
  }

  lemma Pieces(x: Bits, j: nat, e: nat)
    requires j <= e <= |x|
    ensures x == x[..j] + (x[j..e] + x[e..])
  {
  }

  lemma WindowDetected(p: Bits, r: Bits, u: Bits, m: Bits, m': Bits, v: Bits)
    requires |p| == |r| > 0 && p[|p| - 1] && |m| == |m'| <= |p|
    requires m != m'
    ensures Feed(p, r, u + (m + v)) != Feed(p, r, u + (m' + v))
  {
    hide Feed;
    var f := Feed(p, r, u);
    FeedConcat(p, r, u, m + v);
    FeedConcat(p, f, m, v);
    FeedConcat(p, r, u, m' + v);
    FeedConcat(p, f, m', v);
    if Feed(p, Feed(p, f, m), v) == Feed(p, Feed(p, f, m'), v) {
      FeedInjective(p, Feed(p, f, m), Feed(p, f, m'), v);
      WindowInjective(p, f, m, m');
    }
  }

  lemma WindowInjective(p: Bits, r: Bits, m: Bits, m': Bits)
    requires |p| == |r| > 0 && p[|p| - 1] && |m| == |m'| <= |p|
    requires Feed(p, r, m) == Feed(p, r, m')
    ensures m == m'
  {
    FeedIsShift(p, r, m);
    FeedIsShift(p, r, m');
    ShiftNInjective(p, PadXor(r, m), PadXor(r, m'), |m|);
    forall i | 0 <= i < |m|
      ensures m[i] == m'[i]
    {
      assert PadXor(r, m)[i] == (r[i] != m[i]) && PadXor(r, m')[i] == (r[i] != m'[i]);
    }
  }

  function Parity(b: Bits): bool {
    if b == [] then false else b[0] != Parity(b[1..])
  }

  lemma {:induction false} ParityXor(a: Bits, b: Bits)
    requires |a| == |b|
    ensures Parity(Xor(a, b)) == (Parity(a) != Parity(b))
    decreases |a|
  {
    if a != [] {
      assert Xor(a, b)[1..] == Xor(a[1..], b[1..]);
      ParityXor(a[1..], b[1..]);
    }
  }

  lemma {:induction false} ParitySnoc(a: Bits, b: bool)
    ensures Parity(a + [b]) == (Parity(a) != b)
    decreases |a|
  {
    if a == [] {
      assert a + [b] == [b];
    } else {
      assert (a + [b])[1..] == a[1..] + [b];
      ParitySnoc(a[1..], b);
    }
  }

  /** A generator with an even number of terms keeps the parity of register plus message. */
  lemma {:induction false} FeedParity(p: Bits, r: Bits, m: Bits)
    requires |p| == |r| > 0 && Parity(p)
    ensures Parity(Feed(p, r, m)) == (Parity(r) != Parity(m))
    decreases |m|
  {
    if m != [] {
      FeedParity(p, Step(p, r, m[0]), m[1..]);
      var r' := r[0 := r[0] != m[0]];
      assert r'[1..] == r[1..];
      ParitySnoc(r[1..], false);
      ParityXor(r[1..] + [false], p);
    }
  }
}
