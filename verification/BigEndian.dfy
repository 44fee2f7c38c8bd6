/** Unsigned integers as byte strings, most significant byte first. */
module BigEndian {
  import opened Bytes

  function Pow256(n: nat): (p: nat)
    ensures p > 0
  {
    if n == 0 then 1 else 256 * Pow256(n - 1)
  }

  /** The n low bytes of v. */
  function Encode(v: nat, n: nat): (s: seq<byte>)
    ensures |s| == n
    decreases n
  {
    if n == 0 then [] else Encode(v / 256, n - 1) + [ToByte(v)]
  }

  function Decode(s: seq<byte>): (v: nat)
    ensures v < Pow256(|s|)
  {
    if s == [] then 0 else 256 * Decode(s[..|s| - 1]) + FromByte(s[|s| - 1])
  }

  lemma {:induction false} DecodeEncode(v: nat, n: nat)
    requires v < Pow256(n)
    ensures Decode(Encode(v, n)) == v
    decreases n
  {
    hide FromByte, ToByte;
    if n > 0 {
      DecodeEncode(v / 256, n - 1);
      ByteOfValue(v);
      assert Encode(v, n)[..n - 1] == Encode(v / 256, n - 1);
    }
  }

  lemma LowByte(v: nat)
    ensures ToByte(v) == ToByte(v % 256)
  {
  }

  lemma {:induction false} EncodeDecode(s: seq<byte>)
    ensures Encode(Decode(s), |s|) == s
    decreases |s|
  {
    hide FromByte, ToByte;
    if s != [] {
      var n := |s| - 1;
      EncodeDecode(s[..n]);
      ValueOfByte(s[n]);
      assert Decode(s) / 256 == Decode(s[..n]) && Decode(s) % 256 == FromByte(s[n]);
      LowByte(Decode(s));
      assert s == s[..n] + [s[n]];
    }
  }

  lemma FourBytes(v: nat, n: nat)
    ensures Encode(v, n + 4) ==
            Encode(v / 0x1_0000_0000, n) +
            [ToByte(v / 0x100_0000), ToByte(v / 0x1_0000), ToByte(v / 0x100), ToByte(v)]
  {
    hide ToByte;
    TwoBytes(v, n + 2);
    TwoBytes(v / 0x1_0000, n);
    assert v / 0x1_0000 / 0x1_0000 == v / 0x1_0000_0000 && v / 0x1_0000 / 0x100 == v / 0x100_0000;
  }

  lemma TwoBytes(v: nat, n: nat)
    ensures Encode(v, n + 2) == Encode(v / 0x1_0000, n) + [ToByte(v / 0x100), ToByte(v)]
  {
    hide ToByte;
    assert v / 0x100 / 0x100 == v / 0x1_0000;
    assert Encode(v, n + 2) == Encode(v / 0x100, n + 1) + [ToByte(v)];
  }

  lemma Widths()
    ensures Pow256(1) == 0x100 && Pow256(2) == 0x1_0000 && Pow256(4) == 0x1_0000_0000
    ensures Pow256(8) == 0x1_0000_0000_0000_0000
  {
  }
}
