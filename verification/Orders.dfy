/**
 The order of x modulo the two generators: which numbers of clocks bring a
 shift register back to where it was. Powers are reached by multiplying powers,
 and the order follows from the prime factors of 255 and 32767.
 */
module Orders {
  import opened Crc
  import opened Gf2

  // ---------------------------------------------------- exponents of power 1

  /** What holds of the exponents whose power is 1: zero is one of them, and so are sums and differences of two. */
  ghost predicate Closed(one: nat -> bool) {
    one(0) && forall a: nat, b: nat :: a <= b && one(a) ==> (one(b - a) <==> one(b))
  }

  lemma {:induction false} Multiples(one: nat -> bool, a: nat, k: nat)
    requires Closed(one) && one(a)
    ensures one(k * a)
    decreases k
  {
    if k > 0 {
      Multiples(one, a, k - 1);
      assert k * a - a == (k - 1) * a;
      assert one(k * a) <==> one(k * a - a);
    }
  }

  lemma RestOf(one: nat -> bool, a: nat, k: nat, rest: nat)
    requires Closed(one) && one(a)
    ensures one(k * a + rest) <==> one(rest)
  {
    Multiples(one, a, k);
    assert one(k * a + rest) <==> one(k * a + rest - k * a);
  }

  predicate Divides(a: nat, q: nat)
    requires a > 0
  {
    q % a == 0
  }

  ghost predicate Prime(q: nat) {
    q >= 2 && forall a | 2 <= a < q :: !Divides(a, q)
  }

  /** Euclid's descent: from e * q and e * s with q prime and s smaller, down to e. */
  lemma {:induction false} Descend(one: nat -> bool, e: nat, q: nat, s: nat)
    requires Closed(one) && Prime(q) && 0 < s < q && one(e * q) && one(e * s)
    ensures one(e)
    decreases s
  {
    if s > 1 {
      var k, r := q / s, q % s;
      assert !Divides(s, q);
      assert q == k * s + r;
      Distribute(e, k, s, r);
      RestOf(one, e * s, k, e * r);
      Descend(one, e, q, r);
    }
  }

  lemma Distribute(e: nat, k: nat, q: nat, s: nat)
    ensures e * (k * q + s) == k * (e * q) + e * s
  {
  }

  lemma RemainderToo(one: nat -> bool, e: nat, q: nat, k: nat, s: nat)
    requires Closed(one) && one(e * q) && one(k * q + s)
    ensures one(e * s)
  {
    hide Closed;
    Distribute(e, k, q, s);
    Multiples(one, k * q + s, e);
    RestOf(one, e * q, k, e * s);
  }

  /** If e * q gives 1 and e does not, then q divides every exponent of 1. */
  lemma PrimeDivides(one: nat -> bool, e: nat, q: nat, d: nat)
    requires Closed(one) && Prime(q) && one(e * q) && !one(e) && one(d)
    ensures d % q == 0
  {
    hide Closed;
    var s := d % q;
    assert d == (d / q) * q + s && 0 <= s < q;
    RemainderToo(one, e, q, d / q, s);
    if s > 0 {
      Descend(one, e, q, s);
    }
  }

  lemma SmallPrimes()
    ensures Prime(3) && Prime(5) && Prime(7) && Prime(17) && Prime(31)
  {
  }

  lemma NoFactorOf151(a: nat, k: nat)
    requires 2 <= a <= 12
    ensures a * k != 151
  {
    assert a == 2 || a == 3 || a == 4 || a == 5 || a == 6 || a == 7 ||
           a == 8 || a == 9 || a == 10 || a == 11 || a == 12;
  }

  lemma Prime151()
    ensures Prime(151)
  {
    forall a | 2 <= a < 151
      ensures !Divides(a, 151)
    {
      var k := 151 / a;
      if 151 % a == 0 {
        assert a * k == 151;
        if a <= 12 {
          NoFactorOf151(a, k);
        } else {
          assert 2 <= k <= 12 by {
            assert k >= 13 ==> a * k >= 169;
            assert k <= 1 ==> a * k <= a;
          }
          NoFactorOf151(k, a);
        }
      }
    }
  }

  lemma Product255(d: nat)
    requires d % 3 == 0 && d % 5 == 0 && d % 17 == 0
    ensures d % 255 == 0
  {
    Combine255(d / 3, d / 5, d / 17, d);
  }

  lemma Combine255(a: int, b: int, c: int, d: int)
    requires d == 3 * a == 5 * b == 17 * c
    ensures d % 255 == 0
  {
    var k := 2 * b - a;
    var m := 8 * c - 7 * k;
    assert d == 15 * k;
    assert d == m * 255;
  }

  lemma Product32767(d: nat)
    requires d % 7 == 0 && d % 31 == 0 && d % 151 == 0
    ensures d % 32767 == 0
  {
    Combine32767(d / 7, d / 31, d / 151, d);
  }

  lemma Combine32767(a: int, b: int, c: int, d: int)
    requires d == 7 * a == 31 * b == 151 * c
    ensures d % 32767 == 0
  {
    var k := 9 * b - 2 * a;
    var m := 135 * c - 194 * k;
    assert d == 217 * k;
    assert d == m * 32767;
  }

  lemma ShiftLinear(p: Bits, r: Bits, s: Bits)
    requires |p| == |r| == |s| > 0
    ensures Shift(p, Xor(r, s)) == Xor(Shift(p, r), Shift(p, s))
  {
    StepLinear(p, r, s, false, false);
    var x := Xor(r, s);
    assert x[0 := x[0] != false] == x && r[0 := r[0] != false] == r && s[0 := s[0] != false] == s;
  }

  // ---------------------------------------------------------------- 8 bits

  lemma {:induction false} Clocks8Add(c: bv8, a: nat, b: nat)
    ensures Clocks8(c, a + b) == Clocks8(Clocks8(c, a), b)
    decreases a
  {
    hide Clock8;
    if a > 0 {
      Clocks8Add(Clock8(c), a - 1, b);
    }
  }

  lemma OneMore8(c: bv8, n: nat)
    ensures Clocks8(c, n + 1) == Clock8(Clocks8(c, n))
  {
    hide Clock8;
    Clocks8Add(c, n, 1);
    var d := Clocks8(c, n);
    assert Clocks8(d, 1) == Clocks8(Clock8(d), 0);
  }

  /** The sum of two registers. */
  function Plus8(a: bv8, b: bv8): bv8 {
    a ^ b
  }

  lemma Plus8IsXor(a: bv8, b: bv8)
    ensures Bits8(Plus8(a, b)) == Xor(Bits8(a), Bits8(b))
  {
    Bits8Xor(a, b);
  }

  lemma Clock8Plus(a: bv8, b: bv8)
    ensures Clock8(Plus8(a, b)) == Plus8(Clock8(a), Clock8(b))
  {
    hide Bits8, Clock8, Plus8, Xor, Shift;
    var s, t, p := Bits8(a), Bits8(b), Bits8(0x1D);
    Plus8IsXor(a, b);
    Clock8IsShift(Plus8(a, b));
    Clock8IsShift(a);
    Clock8IsShift(b);
    ShiftLinear(p, s, t);
    Plus8IsXor(Clock8(a), Clock8(b));
    Bits8Injective(Clock8(Plus8(a, b)), Plus8(Clock8(a), Clock8(b)));
  }

  lemma {:induction false} Clocks8Plus(a: bv8, b: bv8, n: nat)
    ensures Clocks8(Plus8(a, b), n) == Plus8(Clocks8(a, n), Clocks8(b, n))
    decreases n
  {
    hide Clock8, Plus8;
    if n > 0 {
      Clock8Plus(a, b);
      Clocks8Plus(Clock8(a), Clock8(b), n - 1);
    }
  }

  lemma {:induction false} Clocks8Zero(n: nat)
    ensures Clocks8(0, n) == 0
    decreases n
  {
    if n > 0 {
      Clocks8Zero(n - 1);
    }
  }

  /** One step of Horner's scheme: times x, plus e if the next coefficient is set. */
  function Horner8(h: bv8, e: bv8, b: bool): bv8 {
    if b then Plus8(Clock8(h), e) else Clock8(h)
  }

  /** The product of two registers modulo the generator. */
  function Product8(v: bv8, e: bv8): bv8 {
    var h0 := Horner8(0, e, v & 0x80 != 0);
    var h1 := Horner8(h0, e, v & 0x40 != 0);
    var h2 := Horner8(h1, e, v & 0x20 != 0);
    var h3 := Horner8(h2, e, v & 0x10 != 0);
    var h4 := Horner8(h3, e, v & 0x08 != 0);
    var h5 := Horner8(h4, e, v & 0x04 != 0);
    var h6 := Horner8(h5, e, v & 0x02 != 0);
    Horner8(h6, e, v & 0x01 != 0)
  }

  lemma HornerClocks8(h: bv8, b: bool, n: nat)
    ensures Horner8(Clocks8(h, n), Clocks8(1, n), b) == Clocks8(Horner8(h, 1, b), n)
  {
    hide Clock8, Clocks8, Plus8;
    OneMore8(h, n);
    Clocks8Add(h, 1, n);
    OneMore8(h, 0);
    NoClocks8(h);
    Clocks8Plus(Clock8(h), 1, n);
  }

  lemma NoClocks8(h: bv8)
    ensures Clocks8(h, 0) == h
  {
  }

  lemma ProductClocks8(v: bv8, n: nat)
    ensures Product8(v, Clocks8(1, n)) == Clocks8(Product8(v, 1), n)
  {
    hide Clocks8, Horner8;
    Clocks8Zero(n);
    var h: bv8 := 0;
    HornerClocks8(h, v & 0x80 != 0, n);
    h := Horner8(h, 1, v & 0x80 != 0);
    HornerClocks8(h, v & 0x40 != 0, n);
    h := Horner8(h, 1, v & 0x40 != 0);
    HornerClocks8(h, v & 0x20 != 0, n);
    h := Horner8(h, 1, v & 0x20 != 0);
    HornerClocks8(h, v & 0x10 != 0, n);
    h := Horner8(h, 1, v & 0x10 != 0);
    HornerClocks8(h, v & 0x08 != 0, n);
    h := Horner8(h, 1, v & 0x08 != 0);
    HornerClocks8(h, v & 0x04 != 0, n);
    h := Horner8(h, 1, v & 0x04 != 0);
    HornerClocks8(h, v & 0x02 != 0, n);
    h := Horner8(h, 1, v & 0x02 != 0);
    HornerClocks8(h, v & 0x01 != 0, n);
  }

  /** The product of two powers of x is the power with the sum of the exponents. */
  lemma Power8(n: nat, v: bv8, m: nat, e: bv8)
    requires Clocks8(1, n) == v && Clocks8(1, m) == e && Product8(v, 1) == v
    ensures Clocks8(1, n + m) == Product8(v, e)
  {
    hide Clocks8, Product8;
    ProductClocks8(v, m);
    Clocks8Add(1, n, m);
  }

  lemma Powers8To7()
    ensures Clocks8(1, 7) == 0x80
  {
    hide Clocks8;
    NoClocks8(1);
    OneMore8(1, 0);
    OneMore8(1, 1);
    OneMore8(1, 2);
    OneMore8(1, 3);
    OneMore8(1, 4);
    OneMore8(1, 5);
    OneMore8(1, 6);
  }

  lemma Powers8To51()
    ensures Clocks8(1, 15) == 0x26
    ensures Clocks8(1, 34) == 0x4E
    ensures Clocks8(1, 51) == 0x0A
  {
    hide Clocks8;
    Powers8To7();
    Power8(7, 0x80, 7, 0x80);
    OneMore8(1, 14);
    OneMore8(1, 15);
    OneMore8(1, 16);
    Power8(17, 0x98, 17, 0x98);
    Power8(34, 0x4E, 17, 0x98);
  }

  lemma Powers8To255()
    ensures Clocks8(1, 85) == 0xD6
    ensures Clocks8(1, 255) == 0x01
  {
    hide Clocks8;
    Powers8To51();
    Power8(51, 0x0A, 34, 0x4E);
    Power8(85, 0xD6, 85, 0xD6);
    Power8(170, 0xD7, 85, 0xD6);
  }

  /** Whether n clocks bring x^0 back. */
  function Returns8(): nat -> bool {
    (n: nat) => Clocks8(1, n) == 1
  }

  lemma Returns8Closed()
    ensures Closed(Returns8())
  {
    hide Clocks8;
    NoClocks8(1);
    forall a: nat, b: nat | a <= b && Returns8()(a)
      ensures Returns8()(b - a) <==> Returns8()(b)
    {
      Clocks8Add(1, a, b - a);
    }
  }

  /** x has order 255 modulo the generator. */
  lemma OrderIs255(d: nat)
    ensures Clocks8(1, d) == 1 <==> d % 255 == 0
  {
    hide Clocks8, Closed, Prime;
    var one := Returns8();
    Returns8Closed();
    Powers8To51();
    Powers8To255();
    if one(d) {
      SmallPrimes();
      PrimeDivides(one, 85, 3, d);
      PrimeDivides(one, 51, 5, d);
      PrimeDivides(one, 15, 17, d);
      Product255(d);
    } else if d % 255 == 0 {
      Multiples(one, 255, d / 255);
    }
  }

  /** The register with only its leading bit set comes back when x^0 does. */
  lemma LeadingBitReturns8(d: nat)
    ensures Clocks8(0x80, d) == 0x80 <==> Clocks8(1, d) == 1
  {
    hide Clocks8, Bits8, ShiftN;
    Powers8To7();
    Clocks8Add(1, 7, d);
    Clocks8Add(1, d, 7);
    if Clocks8(0x80, d) == 0x80 {
      Clocks8IsShiftN(Clocks8(1, d), 7);
      Clocks8IsShiftN(1, 7);
      LowestBit8();
      ShiftNInjective(Bits8(0x1D), Bits8(Clocks8(1, d)), Bits8(1), 7);
      Bits8Injective(Clocks8(1, d), 1);
    }
  }

  lemma LowestBit8()
    ensures Bits8(0x1D)[7]
  {
  }

  // ---------------------------------------------------------------- 16 bits

  lemma {:induction false} Clocks16Add(c: bv16, a: nat, b: nat)
    ensures Clocks16(c, a + b) == Clocks16(Clocks16(c, a), b)
    decreases a
  {
    hide Clock16;
    if a > 0 {
      Clocks16Add(Clock16(c), a - 1, b);
    }
  }

  lemma OneMore16(c: bv16, n: nat)
    ensures Clocks16(c, n + 1) == Clock16(Clocks16(c, n))
  {
    hide Clock16;
    Clocks16Add(c, n, 1);
    var d := Clocks16(c, n);
    assert Clocks16(d, 1) == Clocks16(Clock16(d), 0);
  }

  /** The sum of two registers. */
  function Plus16(a: bv16, b: bv16): bv16 {
    a ^ b
  }

  lemma Plus16IsXor(a: bv16, b: bv16)
    ensures Bits16(Plus16(a, b)) == Xor(Bits16(a), Bits16(b))
  {
    Bits16Xor(a, b);
  }

  lemma Clock16Plus(a: bv16, b: bv16)
    ensures Clock16(Plus16(a, b)) == Plus16(Clock16(a), Clock16(b))
  {
    hide Bits16, Clock16, Plus16, Xor, Shift;
    var s, t, p := Bits16(a), Bits16(b), Bits16(0x1021);
    Plus16IsXor(a, b);
    Clock16IsShift(Plus16(a, b));
    Clock16IsShift(a);
    Clock16IsShift(b);
    ShiftLinear(p, s, t);
    Plus16IsXor(Clock16(a), Clock16(b));
    Bits16Injective(Clock16(Plus16(a, b)), Plus16(Clock16(a), Clock16(b)));
  }

  lemma {:induction false} Clocks16Plus(a: bv16, b: bv16, n: nat)
    ensures Clocks16(Plus16(a, b), n) == Plus16(Clocks16(a, n), Clocks16(b, n))
    decreases n
  {
    hide Clock16, Plus16;
    if n > 0 {
      Clock16Plus(a, b);
      Clocks16Plus(Clock16(a), Clock16(b), n - 1);
    }
  }

  lemma {:induction false} Clocks16Zero(n: nat)
    ensures Clocks16(0, n) == 0
    decreases n
  {
    if n > 0 {
      Clocks16Zero(n - 1);
    }
  }

  /** One step of Horner's scheme: times x, plus e if the next coefficient is set. */
  function Horner16(h: bv16, e: bv16, b: bool): bv16 {
    if b then Plus16(Clock16(h), e) else Clock16(h)
  }

  /** The product of two registers modulo the generator. */
  function Product16(v: bv16, e: bv16): bv16 {
    var h0 := Horner16(0, e, v & 0x8000 != 0);
    var h1 := Horner16(h0, e, v & 0x4000 != 0);
    var h2 := Horner16(h1, e, v & 0x2000 != 0);
    var h3 := Horner16(h2, e, v & 0x1000 != 0);
    var h4 := Horner16(h3, e, v & 0x0800 != 0);
    var h5 := Horner16(h4, e, v & 0x0400 != 0);
    var h6 := Horner16(h5, e, v & 0x0200 != 0);
    var h7 := Horner16(h6, e, v & 0x0100 != 0);
    var h8 := Horner16(h7, e, v & 0x0080 != 0);
    var h9 := Horner16(h8, e, v & 0x0040 != 0);
    var h10 := Horner16(h9, e, v & 0x0020 != 0);
    var h11 := Horner16(h10, e, v & 0x0010 != 0);
    var h12 := Horner16(h11, e, v & 0x0008 != 0);
    var h13 := Horner16(h12, e, v & 0x0004 != 0);
    var h14 := Horner16(h13, e, v & 0x0002 != 0);
    Horner16(h14, e, v & 0x0001 != 0)
  }

  lemma HornerClocks16(h: bv16, b: bool, n: nat)
    ensures Horner16(Clocks16(h, n), Clocks16(1, n), b) == Clocks16(Horner16(h, 1, b), n)
  {
    hide Clock16, Clocks16, Plus16;
    OneMore16(h, n);
    Clocks16Add(h, 1, n);
    OneMore16(h, 0);
    NoClocks16(h);
    Clocks16Plus(Clock16(h), 1, n);
  }

  lemma NoClocks16(h: bv16)
    ensures Clocks16(h, 0) == h
  {
  }

  lemma ProductClocks16(v: bv16, n: nat)
    ensures Product16(v, Clocks16(1, n)) == Clocks16(Product16(v, 1), n)
  {
    hide Clocks16, Horner16;
    Clocks16Zero(n);
    var h: bv16 := 0;
    HornerClocks16(h, v & 0x8000 != 0, n);
    h := Horner16(h, 1, v & 0x8000 != 0);
    HornerClocks16(h, v & 0x4000 != 0, n);
    h := Horner16(h, 1, v & 0x4000 != 0);
    HornerClocks16(h, v & 0x2000 != 0, n);
    h := Horner16(h, 1, v & 0x2000 != 0);
    HornerClocks16(h, v & 0x1000 != 0, n);
    h := Horner16(h, 1, v & 0x1000 != 0);
    HornerClocks16(h, v & 0x0800 != 0, n);
    h := Horner16(h, 1, v & 0x0800 != 0);
    HornerClocks16(h, v & 0x0400 != 0, n);
    h := Horner16(h, 1, v & 0x0400 != 0);
    HornerClocks16(h, v & 0x0200 != 0, n);
    h := Horner16(h, 1, v & 0x0200 != 0);
    HornerClocks16(h, v & 0x0100 != 0, n);
    h := Horner16(h, 1, v & 0x0100 != 0);
    HornerClocks16(h, v & 0x0080 != 0, n);
    h := Horner16(h, 1, v & 0x0080 != 0);
    HornerClocks16(h, v & 0x0040 != 0, n);
    h := Horner16(h, 1, v & 0x0040 != 0);
    HornerClocks16(h, v & 0x0020 != 0, n);
    h := Horner16(h, 1, v & 0x0020 != 0);
    HornerClocks16(h, v & 0x0010 != 0, n);
    h := Horner16(h, 1, v & 0x0010 != 0);
    HornerClocks16(h, v & 0x0008 != 0, n);
    h := Horner16(h, 1, v & 0x0008 != 0);
    HornerClocks16(h, v & 0x0004 != 0, n);
    h := Horner16(h, 1, v & 0x0004 != 0);
    HornerClocks16(h, v & 0x0002 != 0, n);
    h := Horner16(h, 1, v & 0x0002 != 0);
    HornerClocks16(h, v & 0x0001 != 0, n);
  }

  /** The product of two powers of x is the power with the sum of the exponents. */
  lemma Power16(n: nat, v: bv16, m: nat, e: bv16)
    requires Clocks16(1, n) == v && Clocks16(1, m) == e && Product16(v, 1) == v
    ensures Clocks16(1, n + m) == Product16(v, e)
  {
    hide Clocks16, Product16;
    ProductClocks16(v, m);
    Clocks16Add(1, n, m);
  }

  lemma Powers16To15()
    ensures Clocks16(1, 13) == 0x2000
    ensures Clocks16(1, 15) == 0x8000
  {
    hide Clocks16;
    NoClocks16(1);
    OneMore16(1, 0);
    OneMore16(1, 1);
    OneMore16(1, 2);
    OneMore16(1, 3);
    OneMore16(1, 4);
    OneMore16(1, 5);
    OneMore16(1, 6);
    OneMore16(1, 7);
    OneMore16(1, 8);
    OneMore16(1, 9);
    OneMore16(1, 10);
    OneMore16(1, 11);
    OneMore16(1, 12);
    OneMore16(1, 13);
    OneMore16(1, 14);
  }

  lemma Powers16To31()
    ensures Clocks16(1, 31) == 0x1B98
  {
    hide Clocks16;
    Powers16To15();
    Power16(15, 0x8000, 15, 0x8000);
    OneMore16(1, 30);
  }

  lemma Powers16To62()
    ensures Clocks16(1, 62) == 0x6A10
  {
    hide Clocks16;
    Powers16To31();
    Power16(31, 0x1B98, 31, 0x1B98);
  }

  lemma Powers16To151()
    ensures Clocks16(1, 151) == 0xF008
  {
    hide Clocks16;
    Powers16To15();
    Powers16To62();
    Power16(62, 0x6A10, 13, 0x2000);
    Power16(75, 0x1EDA, 75, 0x1EDA);
    OneMore16(1, 150);
  }

  lemma Powers16To186()
    ensures Clocks16(1, 186) == 0xA741
  {
    hide Clocks16;
    Powers16To31();
    Powers16To62();
    Power16(62, 0x6A10, 31, 0x1B98);
    Power16(93, 0x390D, 93, 0x390D);
  }

  lemma Powers16To217()
    ensures Clocks16(1, 217) == 0x48E3
  {
    hide Clocks16;
    Powers16To31();
    Powers16To186();
    Power16(186, 0xA741, 31, 0x1B98);
  }

  lemma Powers16To453()
    ensures Clocks16(1, 453) == 0xE624
  {
    hide Clocks16;
    Powers16To151();
    Power16(151, 0xF008, 151, 0xF008);
    Power16(302, 0xF10A, 151, 0xF008);
  }

  lemma Powers16To1057()
    ensures Clocks16(1, 1057) == 0xF2AF
  {
    hide Clocks16;
    Powers16To151();
    Powers16To453();
    Power16(453, 0xE624, 453, 0xE624);
    Power16(906, 0x94DE, 151, 0xF008);
  }

  lemma Powers16To2114()
    ensures Clocks16(1, 2114) == 0xF59B
  {
    hide Clocks16;
    Powers16To1057();
    Power16(1057, 0xF2AF, 1057, 0xF2AF);
  }

  lemma Powers16To4228()
    ensures Clocks16(1, 4228) == 0xB21F
  {
    hide Clocks16;
    Powers16To2114();
    Power16(2114, 0xF59B, 2114, 0xF59B);
  }

  lemma Powers16To9362()
    ensures Clocks16(1, 4681) == 0x2C42
    ensures Clocks16(1, 9362) == 0x8635
  {
    hide Clocks16;
    Powers16To453();
    Powers16To4228();
    Power16(4228, 0xB21F, 453, 0xE624);
    Power16(4681, 0x2C42, 4681, 0x2C42);
  }

  lemma Powers16To28086()
    ensures Clocks16(1, 28086) == 0x762B
  {
    hide Clocks16;
    Powers16To9362();
    Power16(9362, 0x8635, 4681, 0x2C42);
    Power16(14043, 0xDC5C, 14043, 0xDC5C);
  }

  lemma Powers16To32767()
    ensures Clocks16(1, 32767) == 0x0001
  {
    hide Clocks16;
    Powers16To9362();
    Powers16To28086();
    Power16(28086, 0x762B, 4681, 0x2C42);
  }

  /** Whether n clocks bring x^0 back. */
  function Returns16(): nat -> bool {
    (n: nat) => Clocks16(1, n) == 1
  }

  lemma Returns16Closed()
    ensures Closed(Returns16())
  {
    hide Clocks16;
    NoClocks16(1);
    forall a: nat, b: nat | a <= b && Returns16()(a)
      ensures Returns16()(b - a) <==> Returns16()(b)
    {
      Clocks16Add(1, a, b - a);
    }
  }

  /** x has order 32767 modulo the generator. */
  lemma OrderIs32767(d: nat)
    ensures Clocks16(1, d) == 1 <==> d % 32767 == 0
  {
    hide Clocks16, Closed, Prime;
    var one := Returns16();
    Returns16Closed();
    Powers16To217();
    Powers16To1057();
    Powers16To9362();
    Powers16To32767();
    if one(d) {
      SmallPrimes();
      Prime151();
      PrimeDivides(one, 4681, 7, d);
      PrimeDivides(one, 1057, 31, d);
      PrimeDivides(one, 217, 151, d);
      Product32767(d);
    } else if d % 32767 == 0 {
      Multiples(one, 32767, d / 32767);
    }
  }

  /** The register with only its leading bit set comes back when x^0 does. */
  lemma LeadingBitReturns16(d: nat)
    ensures Clocks16(0x8000, d) == 0x8000 <==> Clocks16(1, d) == 1
  {
    hide Clocks16, Bits16, ShiftN;
    Powers16To15();
    Clocks16Add(1, 15, d);
    Clocks16Add(1, d, 15);
    if Clocks16(0x8000, d) == 0x8000 {
      Clocks16IsShiftN(Clocks16(1, d), 15);
      Clocks16IsShiftN(1, 15);
      LowestBit16();
      ShiftNInjective(Bits16(0x1021), Bits16(Clocks16(1, d)), Bits16(1), 15);
      Bits16Injective(Clocks16(1, d), 1);
    }
  }

  lemma LowestBit16()
    ensures Bits16(0x1021)[15]
  {
  }
}
