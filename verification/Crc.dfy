/**
 The two checksum loops of the stack, CRC-8 SAE J1850 and CRC-16/CCITT-FALSE,
 related to polynomial division over GF(2).
 */
module Crc {
  import opened Bytes
  import opened Gf2

  // ------------------------------------------------------- machine registers

  function Clock8(c: bv8): bv8 {
    if c & 0x80 != 0 then (c << 1) ^ 0x1D else c << 1
  }

  function Clocks8(c: bv8, k: nat): bv8
    decreases k
  {
    if k == 0 then c else Clocks8(Clock8(c), k - 1)
  }

  function Absorb8(c: bv8, d: byte): bv8 {
    Clocks8(c ^ d, 8)
  }

  /** Register contents after data, starting from c. */
  function Register8(c: bv8, data: seq<byte>): bv8
    decreases |data|
  {
    if data == [] then c else Register8(Absorb8(c, data[0]), data[1..])
  }

  function Crc8(data: seq<byte>): bv8 {
    Register8(0xFF, data) ^ 0xFF
  }

  function Clock16(c: bv16): bv16 {
    if c & 0x8000 != 0 then (c << 1) ^ 0x1021 else c << 1
  }

  function Clocks16(c: bv16, k: nat): bv16
    decreases k
  {
    if k == 0 then c else Clocks16(Clock16(c), k - 1)
  }

  function Absorb16(c: bv16, d: byte): bv16 {
    Clocks16(c ^ ((d as bv16) << 8), 8)
  }

  function Register16(c: bv16, data: seq<byte>): bv16
    decreases |data|
  {
    if data == [] then c else Register16(Absorb16(c, data[0]), data[1..])
  }

  function Crc16(data: seq<byte>): bv16 {
    Register16(0xFFFF, data)
  }

  lemma Clock8Is(c: bv8)
    ensures Clock8(c) == if c & 0x80 != 0 then (c << 1) ^ 0x1D else c << 1
  {
  }

  lemma Clock16Is(c: bv16)
    ensures Clock16(c) == if c & 0x8000 != 0 then (c << 1) ^ 0x1021 else c << 1
  {
  }

  method E2eCrc8(data: seq<byte>, len: nat) returns (crc: bv8)
    requires len <= |data|
    ensures crc == Crc8(data[..len])
  {
    hide Clock8;
    crc := 0xFF;
    var i := 0;
    while i < len
      invariant 0 <= i <= len
      invariant Register8(crc, data[i..len]) == Register8(0xFF, data[..len])
    {
      assert data[i..len][1..] == data[i + 1..len];
      ghost var next := Absorb8(crc, data[i]);
      crc := crc ^ data[i];
      var b := 0;
      while b < 8
        invariant 0 <= b <= 8
        invariant Clocks8(crc, 8 - b) == next
      {
        Clock8Is(crc);
        crc := if crc & 0x80 != 0 then (crc << 1) ^ 0x1D else crc << 1;
        b := b + 1;
      }
      i := i + 1;
    }
    crc := crc ^ 0xFF;
  }

  method ComputeCRC16(data: seq<byte>) returns (crc: bv16)
    ensures crc == Crc16(data)
  {
    hide Clock16;
    crc := 0xFFFF;
    for n := 0 to |data|
      invariant Register16(crc, data[n..]) == Crc16(data)
    {
      assert data[n..][1..] == data[n + 1..];
      ghost var next := Absorb16(crc, data[n]);
      crc := crc ^ ((data[n] as bv16) << 8);
      for i := 0 to 8
        invariant Clocks16(crc, 8 - i) == next
      {
        Clock16Is(crc);
        if crc & 0x8000 != 0 {
          crc := (crc << 1) ^ 0x1021;
        } else {
          crc := crc << 1;
        }
      }
    }
  }

  // --------------------------------------------------- registers as bit strings

  function Bits8(b: bv8): (s: Bits)
    ensures |s| == 8
  {
    [b & 0x80 != 0, b & 0x40 != 0, b & 0x20 != 0, b & 0x10 != 0,
     b & 0x08 != 0, b & 0x04 != 0, b & 0x02 != 0, b & 0x01 != 0]
  }

  function High(c: bv16): byte {
    (c >> 8) as bv8
  }

  function Low(c: bv16): byte {
    (c & 0xFF) as bv8
  }

  function Bits16(c: bv16): (s: Bits)
    ensures |s| == 16
  {
    Bits8(High(c)) + Bits8(Low(c))
  }

  /** A block as one bit string, first byte first and most significant bit first. */
  function BlockBits(data: seq<byte>): (s: Bits)
    ensures |s| == 8 * |data|
  {
    if data == [] then [] else Bits8(data[0]) + BlockBits(data[1..])
  }

  /** x^8 + x^4 + x^3 + x^2 + 1. */
  const G8: Bits := [true] + Bits8(0x1D)

  /** x^16 + x^12 + x^5 + 1. */
  const G16: Bits := [true] + Bits16(0x1021)

  lemma Bits8Injective(a: bv8, b: bv8)
    requires Bits8(a) == Bits8(b)
    ensures a == b
  {
    var s, t := Bits8(a), Bits8(b);
    assert s[0] == t[0] && s[1] == t[1] && s[2] == t[2] && s[3] == t[3];
    assert s[4] == t[4] && s[5] == t[5] && s[6] == t[6] && s[7] == t[7];
  }

  lemma Bits16Injective(a: bv16, b: bv16)
    requires Bits16(a) == Bits16(b)
    ensures a == b
  {
    hide Bits8, High, Low;
    assert Bits8(High(a)) == Bits16(a)[..8] && Bits8(High(b)) == Bits16(b)[..8];
    assert Bits8(Low(a)) == Bits16(a)[8..] && Bits8(Low(b)) == Bits16(b)[8..];
    Bits8Injective(High(a), High(b));
    Bits8Injective(Low(a), Low(b));
    HalvesDetermine(a, b);
  }

  lemma HalvesDetermine(a: bv16, b: bv16)
    requires High(a) == High(b) && Low(a) == Low(b)
    ensures a == b
  {
  }

  lemma Bits8Xor(a: bv8, b: bv8)
    ensures Bits8(a ^ b) == Xor(Bits8(a), Bits8(b))
  {
    hide Bits8, Xor;
    XorAt(Bits8(a), Bits8(b));
    XorByBit8(a, b);
    Bits8At(a);
    Bits8At(b);
    Bits8At(a ^ b);
    Same8(Bits8(a ^ b), Xor(Bits8(a), Bits8(b)));
  }

  lemma XorByBit8(a: bv8, b: bv8)
    ensures ((a ^ b) & 0x80 != 0) == ((a & 0x80 != 0) != (b & 0x80 != 0))
    ensures ((a ^ b) & 0x40 != 0) == ((a & 0x40 != 0) != (b & 0x40 != 0))
    ensures ((a ^ b) & 0x20 != 0) == ((a & 0x20 != 0) != (b & 0x20 != 0))
    ensures ((a ^ b) & 0x10 != 0) == ((a & 0x10 != 0) != (b & 0x10 != 0))
    ensures ((a ^ b) & 0x08 != 0) == ((a & 0x08 != 0) != (b & 0x08 != 0))
    ensures ((a ^ b) & 0x04 != 0) == ((a & 0x04 != 0) != (b & 0x04 != 0))
    ensures ((a ^ b) & 0x02 != 0) == ((a & 0x02 != 0) != (b & 0x02 != 0))
    ensures ((a ^ b) & 0x01 != 0) == ((a & 0x01 != 0) != (b & 0x01 != 0))
  {
  }

  lemma Bits8At(c: bv8)
    ensures Bits8(c)[0] == (c & 0x80 != 0)
    ensures Bits8(c)[1] == (c & 0x40 != 0)
    ensures Bits8(c)[2] == (c & 0x20 != 0)
    ensures Bits8(c)[3] == (c & 0x10 != 0)
    ensures Bits8(c)[4] == (c & 0x08 != 0)
    ensures Bits8(c)[5] == (c & 0x04 != 0)
    ensures Bits8(c)[6] == (c & 0x02 != 0)
    ensures Bits8(c)[7] == (c & 0x01 != 0)
  {
  }

  lemma Same8(s: Bits, t: Bits)
    requires |s| == |t| == 8
    requires s[0] == t[0] && s[1] == t[1] && s[2] == t[2] && s[3] == t[3]
    requires s[4] == t[4] && s[5] == t[5] && s[6] == t[6] && s[7] == t[7]
    ensures s == t
  {
  }

  lemma Bits16Xor(a: bv16, b: bv16)
    ensures Bits16(a ^ b) == Xor(Bits16(a), Bits16(b))
  {
    hide Bits8, High, Low, Xor;
    XorConcat(Bits8(High(a)), Bits8(Low(a)), Bits8(High(b)), Bits8(Low(b)));
    HalvesXor(a, b);
    Bits8Xor(High(a), High(b));
    Bits8Xor(Low(a), Low(b));
  }

  lemma HalvesXor(a: bv16, b: bv16)
    ensures High(a ^ b) == High(a) ^ High(b) && Low(a ^ b) == Low(a) ^ Low(b)
  {
  }

  lemma Bits8Doubled(c: bv8)
    ensures Bits8(c << 1) == Bits8(c)[1..] + [false]
  {
  }

  lemma Bits16Doubled(c: bv16)
    ensures Bits16(c << 1) == Bits16(c)[1..] + [false]
  {
    hide Bits8, High, Low;
    HalvesDoubled(c);
    Bits8At(Low(c));
    Bits8Doubled(Low(c));
    CarryIn(High(c), c & 0x80 != 0);
    Reassociate(Bits8(High(c)), Bits8(Low(c)));
  }

  lemma CarryIn(h: bv8, carry: bool)
    ensures Bits8(if carry then (h << 1) ^ 1 else h << 1) == Bits8(h)[1..] + [carry]
  {
    hide Bits8;
    Bits8Doubled(h);
    if carry {
      LowBitSet(h << 1);
    }
  }

  lemma Reassociate(h: Bits, l: Bits)
    requires |h| == |l| == 8
    ensures (h[1..] + [l[0]]) + (l[1..] + [false]) == (h + l)[1..] + [false]
  {
  }

  lemma HalvesDoubled(c: bv16)
    ensures High(c << 1) == if c & 0x80 != 0 then (High(c) << 1) ^ 1 else High(c) << 1
    ensures Low(c << 1) == Low(c) << 1
    ensures (Low(c) & 0x80 != 0) == (c & 0x80 != 0)
    ensures (High(c) & 0x80 != 0) == (c & 0x8000 != 0)
  {
  }

  lemma LowBitSet(c: bv8)
    requires c & 1 == 0
    ensures Bits8(c ^ 1) == Bits8(c)[..7] + [true]
  {
  }

  lemma Clock8IsShift(c: bv8)
    ensures Bits8(Clock8(c)) == Shift(Bits8(0x1D), Bits8(c))
  {
    hide Bits8;
    Bits8At(c);
    Bits8Doubled(c);
    Bits8Xor(c << 1, 0x1D);
  }

  lemma Clock16IsShift(c: bv16)
    ensures Bits16(Clock16(c)) == Shift(Bits16(0x1021), Bits16(c))
  {
    hide Bits8, Bits16, High, Low;
    Bits16Top(c);
    Bits16Doubled(c);
    Bits16Xor(c << 1, 0x1021);
  }

  lemma Bits16Top(c: bv16)
    ensures Bits16(c)[0] == (c & 0x8000 != 0)
  {
    hide Bits8, High, Low;
    Bits8At(High(c));
    HalvesDoubled(c);
  }

  lemma {:induction false} Clocks8IsShiftN(c: bv8, k: nat)
    ensures Bits8(Clocks8(c, k)) == ShiftN(Bits8(0x1D), Bits8(c), k)
    decreases k
  {
    hide Bits8, Clock8;
    if k > 0 {
      Clock8IsShift(c);
      Clocks8IsShiftN(Clock8(c), k - 1);
    }
  }

  lemma {:induction false} Clocks16IsShiftN(c: bv16, k: nat)
    ensures Bits16(Clocks16(c, k)) == ShiftN(Bits16(0x1021), Bits16(c), k)
    decreases k
  {
    hide Bits16, Clock16;
    if k > 0 {
      Clock16IsShift(c);
      Clocks16IsShiftN(Clock16(c), k - 1);
    }
  }

  lemma Absorb8IsFeed(c: bv8, d: byte)
    ensures Bits8(Absorb8(c, d)) == Feed(Bits8(0x1D), Bits8(c), Bits8(d))
  {
    hide Bits8, Clocks8, Feed, ShiftN;
    Clocks8IsShiftN(c ^ d, 8);
    FeedIsShift(Bits8(0x1D), Bits8(c), Bits8(d));
    Bits8Xor(c, d);
    assert Bits8(d) + Zeros(0) == Bits8(d);
  }

  lemma Absorb16IsFeed(c: bv16, d: byte)
    ensures Bits16(Absorb16(c, d)) == Feed(Bits16(0x1021), Bits16(c), Bits8(d))
  {
    hide Bits8, Bits16, Clocks16, Feed, ShiftN;
    var top := (d as bv16) << 8;
    Clocks16IsShiftN(c ^ top, 8);
    FeedIsShift(Bits16(0x1021), Bits16(c), Bits8(d));
    Bits16Xor(c, top);
    HighByteBits(d);
  }

  lemma HighByteBits(d: byte)
    ensures Bits16((d as bv16) << 8) == Bits8(d) + Zeros(8)
  {
    hide Bits8, High, Low;
    HighByte(d);
    assert Bits8(0) == Zeros(8) by {
      Bits8At(0);
      Same8(Bits8(0), Zeros(8));
    }
  }

  lemma HighByte(d: byte)
    ensures High((d as bv16) << 8) == d && Low((d as bv16) << 8) == 0
  {
  }

  /** The byte-wise loop feeds the block bit by bit. */
  lemma {:induction false} Register8IsFeed(c: bv8, data: seq<byte>)
    ensures Bits8(Register8(c, data)) == Feed(Bits8(0x1D), Bits8(c), BlockBits(data))
    decreases |data|
  {
    hide Bits8, Absorb8;
    if data != [] {
      Absorb8IsFeed(c, data[0]);
      FeedConcat(Bits8(0x1D), Bits8(c), Bits8(data[0]), BlockBits(data[1..]));
      Register8IsFeed(Absorb8(c, data[0]), data[1..]);
    }
  }

  lemma {:induction false} Register16IsFeed(c: bv16, data: seq<byte>)
    ensures Bits16(Register16(c, data)) == Feed(Bits16(0x1021), Bits16(c), BlockBits(data))
    decreases |data|
  {
    hide Bits8, Bits16, Absorb16;
    if data != [] {
      Absorb16IsFeed(c, data[0]);
      FeedConcat(Bits16(0x1021), Bits16(c), Bits8(data[0]), BlockBits(data[1..]));
      Register16IsFeed(Absorb16(c, data[0]), data[1..]);
    }
  }

  // ----------------------------------------------------------- main theorems

  /**
   c is the CRC-8 of data iff c with the final inversion taken off is the
   remainder of the start-value-adjusted message, times x^8, divided by G8.
   */
  lemma Crc8IsTheRemainder(data: seq<byte>, c: bv8)
    ensures IsRemainder(G8, Adjusted(Bits8(0xFF), BlockBits(data)), Bits8(c ^ 0xFF)) <==> c == Crc8(data)
  {
    hide Bits8, BlockBits, Register8, Feed, IsRemainder;
    var f := Register8(0xFF, data);
    Register8IsFeed(0xFF, data);
    RegisterIsTheRemainder(Bits8(0x1D), Bits8(0xFF), BlockBits(data), Bits8(c ^ 0xFF));
    if Bits8(c ^ 0xFF) == Bits8(f) {
      Bits8Injective(c ^ 0xFF, f);
    }
    Inverted(c, f);
  }

  lemma Inverted(c: bv8, f: bv8)
    ensures c ^ 0xFF == f <==> c == f ^ 0xFF
    ensures c == f ^ 0xFF <==> f ^ c == 0xFF
  {
  }

  /** c is the CRC-16 of data iff it is the remainder of the adjusted message, times x^16, divided by G16. */
  lemma Crc16IsTheRemainder(data: seq<byte>, c: bv16)
    ensures IsRemainder(G16, Adjusted(Bits16(0xFFFF), BlockBits(data)), Bits16(c)) <==> c == Crc16(data)
  {
    hide Bits16, BlockBits, Register16, Feed, IsRemainder;
    Register16IsFeed(0xFFFF, data);
    RegisterIsTheRemainder(Bits16(0x1021), Bits16(0xFFFF), BlockBits(data), Bits16(c));
    if Bits16(c) == Bits16(Crc16(data)) {
      Bits16Injective(c, Crc16(data));
    }
  }

  function XorBlocks(a: seq<byte>, b: seq<byte>): (c: seq<byte>)
    requires |a| == |b|
    ensures |c| == |a|
  {
    seq(|a|, i requires 0 <= i < |a| => a[i] ^ b[i])
  }

  lemma XorBlocksTail(a: seq<byte>, b: seq<byte>)
    requires |a| == |b| > 0
    ensures XorBlocks(a, b)[0] == a[0] ^ b[0] && XorBlocks(a, b)[1..] == XorBlocks(a[1..], b[1..])
  {
  }

  lemma EmptyXor()
    ensures Xor([], []) == []
  {
  }

  lemma {:induction false} BlockBitsXor(a: seq<byte>, b: seq<byte>)
    requires |a| == |b|
    ensures BlockBits(XorBlocks(a, b)) == Xor(BlockBits(a), BlockBits(b))
    decreases |a|
  {
    hide Bits8, Xor, XorBlocks;
    if a != [] {
      Bits8Xor(a[0], b[0]);
      XorBlocksTail(a, b);
      XorConcat(Bits8(a[0]), BlockBits(a[1..]), Bits8(b[0]), BlockBits(b[1..]));
      BlockBitsXor(a[1..], b[1..]);
    } else {
      EmptyXor();
    }
  }

  lemma {:induction false} BlockBitsZero(n: nat)
    ensures BlockBits(seq(n, i => 0)) == Zeros(8 * n)
    decreases n
  {
    hide Bits8;
    if n > 0 {
      Bits8At(0);
      Same8(Bits8(0), Zeros(8));
      assert seq(n, i => 0 as bv8)[1..] == seq(n - 1, i => 0 as bv8);
      BlockBitsZero(n - 1);
    }
  }

  lemma FeedAffine(p: Bits, r: Bits, a: Bits, b: Bits)
    requires |p| == |r| > 0 && |a| == |b|
    ensures Feed(p, r, Xor(a, b)) == Xor(Xor(Feed(p, r, a), Feed(p, r, b)), Feed(p, r, Zeros(|a|)))
  {
    FeedLinear(p, r, r, a, b);
    FeedLinear(p, Xor(r, r), r, Xor(a, b), Zeros(|a|));
    assert Xor(Xor(r, r), r) == r && Xor(Xor(a, b), Zeros(|a|)) == Xor(a, b);
  }

  lemma Register8BitsAffine(a: seq<byte>, b: seq<byte>)
    requires |a| == |b|
    ensures Bits8(Register8(0xFF, XorBlocks(a, b))) ==
            Xor(Xor(Bits8(Register8(0xFF, a)), Bits8(Register8(0xFF, b))), Bits8(Register8(0xFF, seq(|a|, i => 0))))
  {
    hide Bits8, BlockBits, Register8, Feed;
    Register8IsFeed(0xFF, a);
    Register8IsFeed(0xFF, b);
    Register8IsFeed(0xFF, seq(|a|, i => 0));
    Register8IsFeed(0xFF, XorBlocks(a, b));
    BlockBitsXor(a, b);
    BlockBitsZero(|a|);
    FeedAffine(Bits8(0x1D), Bits8(0xFF), BlockBits(a), BlockBits(b));
  }

  lemma XorOfThree8(s: bv8, x: bv8, y: bv8, t: bv8)
    requires Bits8(s) == Xor(Xor(Bits8(x), Bits8(y)), Bits8(t))
    ensures s == x ^ y ^ t
  {
    hide Bits8, Xor;
    Bits8Xor(x, y);
    Bits8Xor(x ^ y, t);
    Bits8Injective(s, x ^ y ^ t);
  }

  lemma Crc8Affine(a: seq<byte>, b: seq<byte>)
    requires |a| == |b|
    ensures Crc8(XorBlocks(a, b)) ^ Crc8(a) ^ Crc8(b) == Crc8(seq(|a|, i => 0))
  {
    hide Register8, XorBlocks, Bits8, Xor;
    var x, y, t := Register8(0xFF, a), Register8(0xFF, b), Register8(0xFF, seq(|a|, i => 0));
    Register8BitsAffine(a, b);
    XorOfThree8(Register8(0xFF, XorBlocks(a, b)), x, y, t);
    XorAlgebra8(x, y, t);
  }

  lemma XorAlgebra8(x: bv8, y: bv8, t: bv8)
    ensures ((x ^ y ^ t) ^ 0xFF) ^ (x ^ 0xFF) ^ (y ^ 0xFF) == t ^ 0xFF
  {
  }

  lemma Crc16BitsAffine(a: seq<byte>, b: seq<byte>)
    requires |a| == |b|
    ensures Bits16(Crc16(XorBlocks(a, b))) ==
            Xor(Xor(Bits16(Crc16(a)), Bits16(Crc16(b))), Bits16(Crc16(seq(|a|, i => 0))))
  {
    hide Bits16, BlockBits, Register16, Feed;
    Register16IsFeed(0xFFFF, a);
    Register16IsFeed(0xFFFF, b);
    Register16IsFeed(0xFFFF, seq(|a|, i => 0));
    Register16IsFeed(0xFFFF, XorBlocks(a, b));
    BlockBitsXor(a, b);
    BlockBitsZero(|a|);
    FeedAffine(Bits16(0x1021), Bits16(0xFFFF), BlockBits(a), BlockBits(b));
  }

  lemma XorOfThree16(s: bv16, x: bv16, y: bv16, t: bv16)
    requires Bits16(s) == Xor(Xor(Bits16(x), Bits16(y)), Bits16(t))
    ensures s == x ^ y ^ t
  {
    hide Bits16, Xor;
    Bits16Xor(x, y);
    Bits16Xor(x ^ y, t);
    Bits16Injective(s, x ^ y ^ t);
  }

  lemma Crc16Affine(a: seq<byte>, b: seq<byte>)
    requires |a| == |b|
    ensures Crc16(XorBlocks(a, b)) ^ Crc16(a) ^ Crc16(b) == Crc16(seq(|a|, i => 0))
  {
    hide Register16, XorBlocks, Bits16, Xor, Crc16;
    var x, y, t := Crc16(a), Crc16(b), Crc16(seq(|a|, i => 0));
    Crc16BitsAffine(a, b);
    XorOfThree16(Crc16(XorBlocks(a, b)), x, y, t);
    XorAlgebra16(x, y, t);
  }

  lemma XorAlgebra16(x: bv16, y: bv16, t: bv16)
    ensures (x ^ y ^ t) ^ x ^ y == t
  {
  }

  lemma {:induction false} BlockBitsInjective(a: seq<byte>, b: seq<byte>)
    requires BlockBits(a) == BlockBits(b)
    ensures a == b
    decreases |a|
  {
    assert |a| == |b|;
    if a != [] {
      assert Bits8(a[0]) == BlockBits(a)[..8] && Bits8(b[0]) == BlockBits(b)[..8];
      assert BlockBits(a[1..]) == BlockBits(a)[8..] && BlockBits(b[1..]) == BlockBits(b)[8..];
      Bits8Injective(a[0], b[0]);
      BlockBitsInjective(a[1..], b[1..]);
    }
  }

  /** Distinct blocks that differ only in a window of at most 8 consecutive bits have distinct CRC-8 values. */
  lemma Crc8DetectsBursts(a: seq<byte>, b: seq<byte>, j: nat, k: nat)
    requires a != b && k <= 8 && DifferOnlyIn(BlockBits(a), BlockBits(b), j, k)
    ensures Crc8(a) != Crc8(b)
  {
    hide Bits8, BlockBits, Register8, Feed;
    if BlockBits(a) == BlockBits(b) {
      BlockBitsInjective(a, b);
    }
    Register8IsFeed(0xFF, a);
    Register8IsFeed(0xFF, b);
    Bits8At(0x1D);
    BurstDetected(Bits8(0x1D), Bits8(0xFF), BlockBits(a), BlockBits(b), j, k);
    Inverted(Crc8(a), Register8(0xFF, a));
    Inverted(Crc8(b), Register8(0xFF, b));
  }

  /** Distinct blocks that differ only in a window of at most 16 consecutive bits have distinct CRC-16 values. */
  lemma Crc16DetectsBursts(a: seq<byte>, b: seq<byte>, j: nat, k: nat)
    requires a != b && k <= 16 && DifferOnlyIn(BlockBits(a), BlockBits(b), j, k)
    ensures Crc16(a) != Crc16(b)
  {
    hide Bits16, BlockBits, Register16, Feed;
    if BlockBits(a) == BlockBits(b) {
      BlockBitsInjective(a, b);
    }
    Register16IsFeed(0xFFFF, a);
    Register16IsFeed(0xFFFF, b);
    Poly16Bits();
    BurstDetected(Bits16(0x1021), Bits16(0xFFFF), BlockBits(a), BlockBits(b), j, k);
  }

  /** G16 has an even number of terms, so any odd number of flipped bits changes the CRC-16. */
  lemma Crc16DetectsOddErrors(a: seq<byte>, b: seq<byte>)
    requires |a| == |b| && Parity(Xor(BlockBits(a), BlockBits(b)))
    ensures Crc16(a) != Crc16(b)
  {
    hide Bits16, BlockBits, Register16, Feed, Parity;
    var p, r := Bits16(0x1021), Bits16(0xFFFF);
    Register16IsFeed(0xFFFF, a);
    Register16IsFeed(0xFFFF, b);
    Poly16Bits();
    FeedParity(p, r, BlockBits(a));
    FeedParity(p, r, BlockBits(b));
    ParityXor(BlockBits(a), BlockBits(b));
  }

  lemma Poly16Bits()
    ensures Bits16(0x1021)[15] && Parity(Bits16(0x1021))
  {
    hide Bits8, Parity;
    Bits8At(0x10);
    Bits8At(0x21);
    var f := [false, false, false];
    Same8(Bits8(0x10), f + [true] + f + [false]);
    Same8(Bits8(0x21), [false, false, true] + f + [false, true]);
    GeneratorParity(f);
  }

  /** The low coefficients of G16, eight and eight, make three terms. */
  lemma GeneratorParity(f: Bits)
    requires f == [false, false, false]
    ensures Parity((f + [true] + f + [false]) + ([false, false, true] + f + [false, true]))
  {
    ParityConcat(f + [true] + f + [false], [false, false, true] + f + [false, true]);
    ParityConcat(f + [true] + f, [false]);
    ParityConcat(f + [true], f);
    ParityConcat(f, [true]);
    ParityConcat([false, false, true] + f, [false, true]);
    ParityConcat([false, false, true], f);
  }

  lemma {:induction false} ParityConcat(a: Bits, b: Bits)
    ensures Parity(a + b) == (Parity(a) != Parity(b))
    decreases |a|
  {
    if a == [] {
      assert a + b == b;
    } else {
      assert (a + b)[1..] == a[1..] + b;
      ParityConcat(a[1..], b);
    }
  }

  // ---------------------------------------------------------------- residues

  lemma {:induction false} Register8Concat(c: bv8, a: seq<byte>, b: seq<byte>)
    ensures Register8(c, a + b) == Register8(Register8(c, a), b)
    decreases |a|
  {
    hide Absorb8;
    if a == [] {
      assert a + b == b;
    } else {
      assert (a + b)[1..] == a[1..] + b;
      Register8Concat(Absorb8(c, a[0]), a[1..], b);
    }
  }

  lemma {:induction false} Register16Concat(c: bv16, a: seq<byte>, b: seq<byte>)
    ensures Register16(c, a + b) == Register16(Register16(c, a), b)
    decreases |a|
  {
    hide Absorb16;
    if a == [] {
      assert a + b == b;
    } else {
      assert (a + b)[1..] == a[1..] + b;
      Register16Concat(Absorb16(c, a[0]), a[1..], b);
    }
  }

  lemma Clocks8Injective(a: bv8, b: bv8, k: nat)
    requires Clocks8(a, k) == Clocks8(b, k)
    ensures a == b
  {
    hide Bits8, Clocks8;
    Clocks8IsShiftN(a, k);
    Clocks8IsShiftN(b, k);
    Bits8At(0x1D);
    ShiftNInjective(Bits8(0x1D), Bits8(a), Bits8(b), k);
    Bits8Injective(a, b);
  }

  /** Appending a check byte leaves the fixed residue 0x3B exactly when it is the right check byte. */
  lemma Crc8Residue(data: seq<byte>, c: byte)
    ensures c == Crc8(data) <==> Crc8(data + [c]) == 0x3B
  {
    hide Absorb8;
    var r := Register8(0xFF, data);
    Register8Concat(0xFF, data, [c]);
    assert Crc8(data + [c]) == Absorb8(r, c) ^ 0xFF;
    AbsorbedResidue(r, c);
    Inverted(0x3B, Absorb8(r, c));
    Inverted(c, r);
  }

  lemma AbsorbedResidue(r: bv8, c: byte)
    ensures Absorb8(r, c) == 0xC4 <==> r ^ c == 0xFF
  {
    hide Clocks8;
    Residue8();
    if Absorb8(r, c) == 0xC4 {
      Clocks8Injective(r ^ c, 0xFF, 8);
    }
  }

  lemma Residue8()
    ensures Clocks8(0xFF, 8) == 0xC4
  {
    var c4 := Clock8(Clock8(Clock8(Clock8(0xFF))));
    assert c4 == 0x4B;
    assert Clocks8(0xFF, 8) == Clocks8(c4, 4);
  }

  function Be16(c: bv16): seq<byte> {
    [High(c), Low(c)]
  }

  /** Appending a check word, high byte first, leaves zero exactly when it is the right check word. */
  lemma Crc16Residue(data: seq<byte>, c: bv16)
    ensures c == Crc16(data) <==> Crc16(data + Be16(c)) == 0
  {
    hide Bits16, BlockBits, Register16, Feed, Be16, ShiftN, Clocks16;
    var r, p, s := Crc16(data), Bits16(0x1021), Crc16(data + Be16(c));
    Register16Concat(0xFFFF, data, Be16(c));
    Register16IsFeed(r, Be16(c));
    Be16Bits(c);
    FeedIsShift(p, Bits16(r), Bits16(c));
    assert Bits16(c) + Zeros(0) == Bits16(c);
    Bits16Xor(r, c);
    assert Bits16(s) == ShiftN(p, Bits16(r ^ c), 16);
    Clocks16IsShiftN(0, 16);
    ClocksOfZero(16);
    Poly16Bits();
    if s == 0 {
      ShiftNInjective(p, Bits16(r ^ c), Bits16(0), 16);
      Bits16Injective(r ^ c, 0);
    } else if r == c {
      XorZero(r, c);
      Bits16Injective(s, 0);
    }
    XorZero(r, c);
  }

  lemma XorZero(a: bv16, b: bv16)
    ensures a ^ b == 0 <==> a == b
  {
  }

  lemma Be16Bits(c: bv16)
    ensures BlockBits(Be16(c)) == Bits16(c)
  {
    hide Bits8, High, Low;
    assert Be16(c)[1..] == [Low(c)] && BlockBits([Low(c)]) == Bits8(Low(c)) + [];
  }

  lemma {:induction false} ClocksOfZero(k: nat)
    ensures Clocks16(0, k) == 0
    decreases k
  {
    if k > 0 {
      assert Clock16(0) == 0;
      ClocksOfZero(k - 1);
    }
  }
}
