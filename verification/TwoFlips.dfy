/**
 Two flipped bits go unseen exactly at distances that are multiples of the order
 of x: 255 for the CRC-8, where a protected payload is 152 bits long, and 32767
 for the CRC-16.
 */
module TwoFlips {
  import opened Bytes
  import opened Gf2
  import opened Crc
  import opened Orders
  import opened SomeIp
  import opened VehicleSignalProxy

  // ----------------------------------------------------------- any generator

  /** The register with only its leading bit set. */
  function Unit(w: nat): (u: Bits)
    requires w > 0
    ensures |u| == w
  {
    [true] + Zeros(w - 1)
  }

  lemma {:induction false} FeedZeros(p: Bits, r: Bits, n: nat)
    requires |p| == |r| > 0
    ensures Feed(p, r, Zeros(n)) == ShiftN(p, r, n)
    decreases n
  {
    if n > 0 {
      assert Zeros(n)[1..] == Zeros(n - 1);
      assert r[0 := r[0] != false] == r;
      FeedZeros(p, Shift(p, r), n - 1);
    }
  }

  /** Flipping the next message bit adds the clocked unit register. */
  lemma FlipOne(p: Bits, r: Bits, b: bool)
    requires |p| == |r| > 0
    ensures Step(p, r, !b) == Xor(Step(p, r, b), Shift(p, Unit(|p|)))
  {
    var z := Zeros(|p|);
    StepLinear(p, r, z, b, true);
    assert Xor(r, z) == r && z[0 := z[0] != true] == Unit(|p|);
  }

  /** The difference made by a first flipped bit travels through the following bits on its own. */
  lemma DifferenceTravels(p: Bits, r: Bits, e: Bits, m: Bits)
    requires |p| == |r| == |e| > 0
    ensures Feed(p, Xor(r, e), m) == Xor(Feed(p, r, m), ShiftN(p, e, |m|))
  {
    hide Feed, ShiftN;
    FeedLinear(p, r, e, m, Zeros(|m|));
    assert Xor(m, Zeros(|m|)) == m;
    FeedZeros(p, e, |m|);
  }

  lemma ShiftOfZeros(p: Bits, e: Bits)
    requires |p| == |e| > 0 && p[|p| - 1]
    ensures Shift(p, e) == Zeros(|p|) <==> e == Zeros(|p|)
  {
    var z := Zeros(|p|);
    assert Shift(p, z) == z;
    if Shift(p, e) == z {
      ShiftInjective(p, e, z);
    }
  }

  lemma XorIsSame(a: Bits, e: Bits)
    requires |a| == |e|
    ensures Xor(a, e) == a <==> e == Zeros(|a|)
  {
    if Xor(a, e) == a {
      XorAt(a, e);
    }
  }

  /** Equality under a name, which a proof that only passes it on can hide. */
  ghost predicate Same(a: Bits, b: Bits) {
    a == b
  }

  /** A second flipped bit cancels the first iff the difference has come back to the unit register. */
  lemma FlipTwo(p: Bits, r: Bits, e: Bits, b: bool)
    requires |p| == |r| == |e| > 0 && p[|p| - 1]
    ensures Same(Step(p, Xor(r, e), !b), Step(p, r, b)) <==> Same(e, Unit(|p|))
  {
    hide Step;
    var u, z := Unit(|p|), Zeros(|p|);
    StepLinear(p, r, e, b, true);
    assert Step(p, Xor(r, e), !b) == Xor(Step(p, r, b), Step(p, e, true));
    StepIsShift(p, e);
    ShiftOfZeros(p, Xor(e, u));
    XorIsSame(Step(p, r, b), Step(p, e, true));
    XorWithUnit(e);
  }

  lemma StepIsShift(p: Bits, e: Bits)
    requires |p| == |e| > 0
    ensures Step(p, e, true) == Shift(p, Xor(e, Unit(|p|)))
  {
    assert e[0 := e[0] != true] == Xor(e, Unit(|p|));
  }

  lemma XorWithUnit(e: Bits)
    requires |e| > 0
    ensures Xor(e, Unit(|e|)) == Zeros(|e|) <==> e == Unit(|e|)
  {
    var u := Unit(|e|);
    XorAt(e, u);
    if Xor(e, u) == Zeros(|e|) {
      assert forall i | 0 <= i < |e| :: Xor(e, u)[i] == false;
    }
  }

  lemma AfterFirstFlip(p: Bits, f: Bits, b: bool, m: Bits)
    requires |p| == |f| > 0
    ensures Feed(p, Step(p, f, !b), m) == Xor(Feed(p, Step(p, f, b), m), ShiftN(p, Unit(|p|), |m| + 1))
  {
    hide Feed, Step, Shift, Unit, Xor;
    FlipOne(p, f, b);
    DifferenceTravels(p, Step(p, f, b), Shift(p, Unit(|p|)), m);
  }

  lemma FeedSameIff(p: Bits, x: Bits, y: Bits, v: Bits)
    requires |p| == |x| == |y| > 0 && p[|p| - 1]
    ensures Same(Feed(p, x, v), Feed(p, y, v)) <==> Same(x, y)
  {
    hide Feed;
    if Feed(p, x, v) == Feed(p, y, v) {
      FeedInjective(p, x, y, v);
    }
  }

  /** A message with two marked bits. */
  function Marked(u: Bits, b: bool, m: Bits, c: bool, v: Bits): Bits {
    u + ([b] + (m + ([c] + v)))
  }

  lemma Staged(p: Bits, r: Bits, x: Bits, u: Bits, b: bool, m: Bits, c: bool, v: Bits)
    requires |p| == |r| > 0 && x == Marked(u, b, m, c, v)
    ensures Feed(p, r, x) ==
            Feed(p, Step(p, Feed(p, Step(p, Feed(p, r, u), b), m), c), v)
  {
    hide Feed, Step;
    FeedConcat(p, r, u, [b] + (m + ([c] + v)));
    FeedConcat(p, Feed(p, r, u), [b], m + ([c] + v));
    OneBit(p, Feed(p, r, u), b);
    var s := Step(p, Feed(p, r, u), b);
    FeedConcat(p, s, m, [c] + v);
    FeedConcat(p, Feed(p, s, m), [c], v);
    OneBit(p, Feed(p, s, m), c);
  }

  lemma FlipsCancelIff(p: Bits, f: Bits, b: bool, m: Bits, c: bool, v: Bits)
    requires |p| == |f| > 0 && p[|p| - 1]
    ensures Same(Feed(p, Step(p, Feed(p, Step(p, f, !b), m), !c), v),
                 Feed(p, Step(p, Feed(p, Step(p, f, b), m), c), v)) <==>
            Same(ShiftN(p, Unit(|p|), |m| + 1), Unit(|p|))
  {
    hide *;
    var g, e := Feed(p, Step(p, f, b), m), ShiftN(p, Unit(|p|), |m| + 1);
    AfterFirstFlip(p, f, b, m);
    FlipTwo(p, g, e, c);
    FeedSameIff(p, Step(p, Xor(g, e), !c), Step(p, g, c), v);
  }

  /** y is x with the bits at i and j flipped. */
  predicate FlippedAt(x: Bits, y: Bits, i: nat, j: nat) {
    i < j < |x| && y == x[i := !x[i]][j := !x[j]]
  }

  lemma FlippedParts(x: Bits, y: Bits, i: nat, j: nat)
    requires FlippedAt(x, y, i, j)
    ensures x == Marked(x[..i], x[i], x[i + 1..j], x[j], x[j + 1..])
    ensures y == Marked(x[..i], !x[i], x[i + 1..j], !x[j], x[j + 1..])
  {
  }

  /** Two flipped bits leave the register unchanged iff x^distance is 1 modulo the generator. */
  lemma TwoFlipsCancelIff(p: Bits, r: Bits, x: Bits, y: Bits, i: nat, j: nat)
    requires |p| == |r| > 0 && p[|p| - 1] && FlippedAt(x, y, i, j)
    ensures Same(Feed(p, r, y), Feed(p, r, x)) <==> Same(ShiftN(p, Unit(|p|), j - i), Unit(|p|))
  {
    hide *;
    Split(x, y, i, j);
    var u, m, v := x[..i], x[i + 1..j], x[j + 1..];
    FlippedParts(x, y, i, j);
    Staged(p, r, x, u, x[i], m, x[j], v);
    Staged(p, r, y, u, !x[i], m, !x[j], v);
    FlipsCancelIff(p, Feed(p, r, u), x[i], m, x[j], v);
  }

  lemma Split(x: Bits, y: Bits, i: nat, j: nat)
    requires FlippedAt(x, y, i, j)
    ensures i < j < |x| && |x[i + 1..j]| + 1 == j - i
  {
  }

  lemma OneBit(p: Bits, r: Bits, b: bool)
    requires |p| == |r| > 0
    ensures Feed(p, r, [b]) == Step(p, r, b)
  {
    assert [b][1..] == [];
  }

  // ------------------------------------------------------------ main theorems

  lemma UnitAt()
    ensures Unit(8)[0] && forall i | 1 <= i < 8 :: !Unit(8)[i]
  {
  }

  /** Two flipped bits escape the CRC-8 exactly when they are a multiple of 255 bits apart. */
  lemma Crc8MissesTwoFlipsIff(a: seq<byte>, b: seq<byte>, i: nat, j: nat)
    requires FlippedAt(BlockBits(a), BlockBits(b), i, j)
    ensures Crc8(a) == Crc8(b) <==> (j - i) % 255 == 0
  {
    hide Bits8, BlockBits, Register8, Feed, ShiftN, Clocks8, Unit;
    var x, p := BlockBits(a), Bits8(0x1D);
    Register8IsFeed(0xFF, a);
    Register8IsFeed(0xFF, b);
    Bits8At(0x1D);
    TwoFlipsCancelIff(p, Bits8(0xFF), x, BlockBits(b), i, j);
    Bits8At(0x80);
    UnitAt();
    Same8(Bits8(0x80), Unit(8));
    Clocks8IsShiftN(0x80, j - i);
    LeadingBitReturns8(j - i);
    OrderIs255(j - i);
    if Bits8(Clocks8(0x80, j - i)) == Bits8(0x80) {
      Bits8Injective(Clocks8(0x80, j - i), 0x80);
    }
    if Bits8(Register8(0xFF, a)) == Bits8(Register8(0xFF, b)) {
      Bits8Injective(Register8(0xFF, a), Register8(0xFF, b));
    }
    Inverted(Crc8(a), Register8(0xFF, a));
    Inverted(Crc8(b), Register8(0xFF, b));
  }

  lemma LeadingBit16()
    ensures Bits16(0x8000) == Unit(16) && Bits16(0x1021)[15]
  {
    hide Bits8;
    assert High(0x8000) == 0x80 && Low(0x8000) == 0 && Low(0x1021) == 0x21;
    Bits8At(0x80);
    Bits8At(0);
    Bits8At(0x21);
    UnitAt16();
    assert forall i | 0 <= i < 16 :: Bits16(0x8000)[i] == (i == 0);
  }

  lemma UnitAt16()
    ensures Unit(16)[0] && forall i | 1 <= i < 16 :: !Unit(16)[i]
  {
  }

  /** Two flipped bits escape the CRC-16 exactly when they are a multiple of 32767 apart. */
  lemma Crc16MissesTwoFlipsIff(a: seq<byte>, b: seq<byte>, i: nat, j: nat)
    requires FlippedAt(BlockBits(a), BlockBits(b), i, j)
    ensures Crc16(a) == Crc16(b) <==> (j - i) % 32767 == 0
  {
    hide Bits16, BlockBits, Register16, Feed, ShiftN, Clocks16, Unit;
    var x, p := BlockBits(a), Bits16(0x1021);
    Register16IsFeed(0xFFFF, a);
    Register16IsFeed(0xFFFF, b);
    LeadingBit16();
    TwoFlipsCancelIff(p, Bits16(0xFFFF), x, BlockBits(b), i, j);
    Clocks16IsShiftN(0x8000, j - i);
    LeadingBitReturns16(j - i);
    OrderIs32767(j - i);
    if Bits16(Clocks16(0x8000, j - i)) == Bits16(0x8000) {
      Bits16Injective(Clocks16(0x8000, j - i), 0x8000);
    }
    if Bits16(Register16(0xFFFF, a)) == Bits16(Register16(0xFFFF, b)) {
      Bits16Injective(Register16(0xFFFF, a), Register16(0xFFFF, b));
    }
  }

  /**
   A delivered frame with any two bits of its first 19 payload bytes flipped
   is caught, however far apart they are.
   */
  lemma TwoFlipsNeverDelivered(d: seq<byte>, e: seq<byte>, i: nat, j: nat)
    requires Classify(d).Delivered? && |e| == |d| && d[0..16] == e[0..16]
    requires FlippedAt(BlockBits(d[16..35]), BlockBits(e[16..35]), i, j)
    ensures Classify(e).CrcMismatch?
  {
    hide BlockBits, Crc8, Classify, FlippedAt, RequiredSize, PayloadLen, Read16, Read32;
    DeliveredIffResidue(d);
    DeliveredIffResidue(e);
    SameHeader(d, e);
    Distances(d[16..35], e[16..35], i, j);
    Crc8MissesTwoFlipsIff(d[16..35], e[16..35], i, j);
  }

  lemma Distances(a: seq<byte>, b: seq<byte>, i: nat, j: nat)
    requires |a| == 19 && FlippedAt(BlockBits(a), BlockBits(b), i, j)
    ensures i < j && (j - i) % 255 != 0
  {
    hide BlockBits;
    assert 0 < j - i < 8 * 19;
  }
}
