/** The stand-in hash of the crypto provider: a 64-bit polynomial accumulator stretched to 32 bytes. */
module Hash {
  import opened Bytes
  import opened Common
  import BigEndian

  const M: int := 0x1_0000_0000_0000_0000
  const SEED: u64 := 0xDEADBEEF

  function Accumulate(h: u64, data: seq<byte>): u64
    decreases |data|
  {
    if data == [] then h else Accumulate((h * 31 + FromByte(data[0])) % M, data[1..])
  }

  function Mix(h: u64): u64 {
    (h * 6364136223846793005 + 1442695040888963407) % M
  }

  function Stretch(h: u64, blocks: nat): seq<byte>
    decreases blocks
  {
    if blocks == 0 then [] else BigEndian.Encode(h, 8) + Stretch(Mix(h), blocks - 1)
  }

  function Digest(data: seq<byte>): seq<byte> {
    Stretch(Accumulate(SEED, data), 4)
  }

  lemma EightBytes(h: nat)
    ensures BigEndian.Encode(h, 8) ==
            [ToByte(h / 0x100_0000_0000_0000), ToByte(h / 0x1_0000_0000_0000),
             ToByte(h / 0x100_0000_0000), ToByte(h / 0x1_0000_0000),
             ToByte(h / 0x100_0000), ToByte(h / 0x1_0000), ToByte(h / 0x100), ToByte(h)]
  {
    hide ToByte, BigEndian.Encode;
    BigEndian.FourBytes(h, 4);
    BigEndian.FourBytes(h / 0x1_0000_0000, 0);
    HighWord(h);
  }

  lemma HighWord(h: nat)
    ensures h / 0x1_0000_0000 / 0x100 == h / 0x100_0000_0000
    ensures h / 0x1_0000_0000 / 0x1_0000 == h / 0x1_0000_0000_0000
    ensures h / 0x1_0000_0000 / 0x100_0000 == h / 0x100_0000_0000_0000
  {
  }

  method Compute(data: seq<byte>) returns (digest: seq<byte>)
    ensures digest == Digest(data)
  {
    hide FromByte, ToByte, BigEndian.Encode;
    var h: u64 := SEED;
    for n := 0 to |data|
      invariant Accumulate(h, data[n..]) == Accumulate(SEED, data)
    {
      assert data[n..][1..] == data[n + 1..];
      h := (h * 31 + FromByte(data[n])) % M;
    }
    digest := [];
    ghost var start := h;
    for i := 0 to 4
      invariant digest + Stretch(h, 4 - i) == Stretch(start, 4)
    {
      EightBytes(h);
      assert digest + Stretch(h, 4 - i) == (digest + BigEndian.Encode(h, 8)) + Stretch(Mix(h), 4 - i - 1);
      digest := digest +
                [ToByte(h / 0x100_0000_0000_0000), ToByte(h / 0x1_0000_0000_0000),
                 ToByte(h / 0x100_0000_0000), ToByte(h / 0x1_0000_0000),
                 ToByte(h / 0x100_0000), ToByte(h / 0x1_0000), ToByte(h / 0x100), ToByte(h)];
      h := (h * 6364136223846793005 + 1442695040888963407) % M;
    }
    assert digest + [] == digest;
  }

  // -------------------------------------------------------------- properties

  /** The first eight bytes give the accumulator back, so digests coincide exactly when accumulators do. */
  lemma DigestsEqualIff(a: seq<byte>, b: seq<byte>)
    ensures Digest(a) == Digest(b) <==> Accumulate(SEED, a) == Accumulate(SEED, b)
  {
    hide Accumulate, BigEndian.Encode, BigEndian.Decode, Mix;
    var h, k := Accumulate(SEED, a), Accumulate(SEED, b);
    if Digest(a) == Digest(b) {
      assert Digest(a)[..8] == BigEndian.Encode(h, 8) && Digest(b)[..8] == BigEndian.Encode(k, 8);
      BigEndian.Widths();
      BigEndian.DecodeEncode(h, 8);
      BigEndian.DecodeEncode(k, 8);
    }
  }

  /** The i-th block of eight bytes of a digest as a number. */
  function Block(data: seq<byte>, i: nat): nat
    requires i < 4
  {
    StretchAt(Accumulate(SEED, data), 4, i);
    BigEndian.Decode(Digest(data)[8 * i..8 * i + 8])
  }

  function MixTimes(h: u64, i: nat): u64
    decreases i
  {
    if i == 0 then h else MixTimes(Mix(h), i - 1)
  }

  lemma {:induction false} MixOnceMore(h: u64, i: nat)
    ensures MixTimes(h, i + 1) == Mix(MixTimes(h, i))
    decreases i
  {
    hide Mix;
    if i > 0 {
      MixOnceMore(Mix(h), i - 1);
    }
  }

  lemma {:induction false} StretchAt(h: u64, n: nat, i: nat)
    requires i < n
    ensures |Stretch(h, n)| == 8 * n && Stretch(h, n)[8 * i..8 * i + 8] == BigEndian.Encode(MixTimes(h, i), 8)
    decreases n
  {
    hide Mix, BigEndian.Encode;
    if n > 1 {
      StretchAt(Mix(h), n - 1, if i > 0 then i - 1 else 0);
      if i > 0 {
        var s := Stretch(Mix(h), n - 1);
        assert Stretch(h, n)[8 * i..8 * i + 8] == s[8 * (i - 1)..8 * (i - 1) + 8];
      }
    } else {
      assert Stretch(Mix(h), 0) == [];
    }
  }

  lemma BlockIs(data: seq<byte>, i: nat)
    requires i < 4
    ensures |Digest(data)| == 32 && Block(data, i) == MixTimes(Accumulate(SEED, data), i)
  {
    hide Accumulate, BigEndian.Encode, BigEndian.Decode, MixTimes;
    var h := Accumulate(SEED, data);
    StretchAt(h, 4, i);
    BigEndian.Widths();
    BigEndian.DecodeEncode(MixTimes(h, i), 8);
  }

  /** The first block of the empty message, and what one more byte does to it. */
  lemma FirstBlock(data: seq<byte>, b: byte)
    ensures Block([], 0) == 0xDEAD_BEEF
    ensures Block(data + [b], 0) == (31 * Block(data, 0) + FromByte(b)) % 0x1_0000_0000_0000_0000
  {
    hide FromByte, Block, Accumulate;
    FirstBlockIs([]);
    FirstBlockIs(data);
    FirstBlockIs(data + [b]);
    AccumulateConcat(SEED, data, [b]);
    OneStep(Accumulate(SEED, data), b);
    EmptyAccumulates();
  }

  lemma EmptyAccumulates()
    ensures Accumulate(SEED, []) == SEED
  {
  }

  lemma FirstBlockIs(data: seq<byte>)
    ensures Block(data, 0) == Accumulate(SEED, data)
  {
    hide Block, Accumulate;
    BlockIs(data, 0);
  }

  /** Each block gives the next, by one step of the generator. */
  lemma NextBlock(data: seq<byte>, i: nat)
    requires i < 3
    ensures Block(data, i + 1) ==
            (Block(data, i) * 6364136223846793005 + 1442695040888963407) % 0x1_0000_0000_0000_0000
  {
    hide Block, Accumulate, MixTimes;
    BlockIs(data, i);
    BlockIs(data, i + 1);
    MixOnceMore(Accumulate(SEED, data), i);
  }

  lemma {:induction false} AccumulateConcat(h: u64, a: seq<byte>, b: seq<byte>)
    ensures Accumulate(h, a + b) == Accumulate(Accumulate(h, a), b)
    decreases |a|
  {
    hide FromByte;
    if a == [] {
      assert a + b == b;
    } else {
      assert (a + b)[1..] == a[1..] + b;
      AccumulateConcat((h * 31 + FromByte(a[0])) % M, a[1..], b);
    }
  }

  /** 31 is invertible modulo 2^64: a difference that 31 takes to a multiple of 2^64 is one already. */
  lemma ThirtyOneInvertible(d: int, t: int)
    requires 31 * d == t * M
    ensures d % M == 0
  {
    // 31 * 17256631552825064415 == 29 * 2^64 + 1
    var inverse := 17256631552825064415;
    assert 31 * inverse == 29 * M + 1;
    assert inverse * (31 * d) == d + 29 * d * M;
    assert d == M * (inverse * t - 29 * d);
  }

  lemma StepInjective(h: u64, k: u64, x: nat)
    requires (h * 31 + x) % M == (k * 31 + x) % M
    ensures h == k
  {
    var a, b: int := h, k;
    var t := (a * 31 + x) / M - (b * 31 + x) / M;
    assert 31 * (a - b) == t * M;
    ThirtyOneInvertible(a - b, t);
    assert -M < a - b < M;
  }

  lemma {:induction false} AccumulateInjective(h: u64, k: u64, data: seq<byte>)
    requires Accumulate(h, data) == Accumulate(k, data)
    ensures h == k
    decreases |data|
  {
    hide FromByte;
    if data != [] {
      var x := FromByte(data[0]);
      AccumulateInjective((h * 31 + x) % M, (k * 31 + x) % M, data[1..]);
      StepInjective(h, k, x);
    }
  }

  lemma TwoSteps(h: u64, p: byte, q: byte)
    ensures Accumulate(h, [p, q]) == (961 * h + 31 * FromByte(p) + FromByte(q)) % M
  {
    hide FromByte;
    var g := (h * 31 + FromByte(p)) % M;
    assert [p, q][1..] == [q];
    OneStep(g, q);
    assert Accumulate(h, [p, q]) == Accumulate(g, [q]);
    var n, m: int := (h * 31 + FromByte(p)) / M, h;
    assert g == m * 31 + FromByte(p) - n * M;
    assert g * 31 + FromByte(q) == 961 * m + 31 * FromByte(p) + FromByte(q) - 31 * n * M;
    ModShift(961 * m + 31 * FromByte(p) + FromByte(q), -31 * n);
  }

  lemma ModShift(x: int, n: int)
    ensures (x + n * M) % M == x % M
  {
  }

  lemma SumsBelow(c: nat, x: nat, y: nat)
    requires x < 0x2000 && y < 0x2000
    ensures (c + x) % M == (c + y) % M <==> x == y
  {
  }

  lemma OneStep(h: u64, p: byte)
    ensures Accumulate(h, [p]) == (31 * h + FromByte(p)) % M
  {
    assert [p][1..] == [];
  }

  lemma AccumulateAround(u: seq<byte>, m: seq<byte>, v: seq<byte>)
    ensures Accumulate(SEED, u + m + v) == Accumulate(Accumulate(Accumulate(SEED, u), m), v)
  {
    AccumulateConcat(SEED, u + m, v);
    AccumulateConcat(SEED, u, m);
  }

  /** What precedes and follows a difference neither hides nor makes a collision. */
  lemma CollideIffInside(u: seq<byte>, m: seq<byte>, m': seq<byte>, v: seq<byte>)
    ensures Digest(u + m + v) == Digest(u + m' + v) <==>
            Accumulate(Accumulate(SEED, u), m) == Accumulate(Accumulate(SEED, u), m')
  {
    hide Accumulate, Digest;
    var h := Accumulate(SEED, u);
    DigestsEqualIff(u + m + v, u + m' + v);
    AccumulateAround(u, m, v);
    AccumulateAround(u, m', v);
    if Accumulate(Accumulate(h, m), v) == Accumulate(Accumulate(h, m'), v) {
      AccumulateInjective(Accumulate(h, m), Accumulate(h, m'), v);
    }
  }

  /**
   Messages that differ only in two neighbouring bytes collide exactly when 31
   times the first plus the second agree.
   */
  lemma NeighbouringBytesCollideIff(u: seq<byte>, p: byte, q: byte, p': byte, q': byte, v: seq<byte>)
    ensures Digest(u + [p, q] + v) == Digest(u + [p', q'] + v) <==>
            31 * FromByte(p) + FromByte(q) == 31 * FromByte(p') + FromByte(q')
  {
    hide FromByte, Accumulate, Digest;
    var h: nat := Accumulate(SEED, u);
    CollideIffInside(u, [p, q], [p', q'], v);
    TwoSteps(h, p, q);
    TwoSteps(h, p', q');
    SumsBelow(961 * h, 31 * FromByte(p) + FromByte(q), 31 * FromByte(p') + FromByte(q'));
  }

  /** Messages that differ in exactly one byte have different digests. */
  lemma OneByteSeparates(u: seq<byte>, p: byte, p': byte, v: seq<byte>)
    requires p != p'
    ensures Digest(u + [p] + v) != Digest(u + [p'] + v)
  {
    hide FromByte, Accumulate, Digest;
    var h: nat := Accumulate(SEED, u);
    CollideIffInside(u, [p], [p'], v);
    OneStep(h, p);
    OneStep(h, p');
    SumsBelow(31 * h, FromByte(p), FromByte(p'));
    ValueOfByte(p);
    ValueOfByte(p');
  }

  /** The hash is no SHA-256: two distinct two-byte messages with one digest. */
  lemma ACollision()
    ensures [0 as byte, 31] != [1, 0] && Digest([0, 31]) == Digest([1, 0])
  {
    hide Digest;
    NeighbouringBytesCollideIff([], 0, 31, 1, 0, []);
    assert [] + [0 as byte, 31] + [] == [0, 31] && [] + [1 as byte, 0] + [] == [1, 0];
  }
}
