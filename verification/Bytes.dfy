/** Bytes and their values. */
module Bytes {
  type byte = bv8

  function FromByte(b: byte): (v: nat)
    ensures v < 256
  {
    b as int
  }

  function ToByte(v: nat): byte {
    (v % 256) as bv8
  }

  lemma SmallToByte(n: int)
    requires 0 <= n < 256
    ensures (n as bv8) as int == n
  {
    // eight ranges, so that the solver fixes the leading bits of n first
    if
    case n < 32 => {}
    case 32 <= n < 64 => {}
    case 64 <= n < 96 => {}
    case 96 <= n < 128 => {}
    case 128 <= n < 160 => {}
    case 160 <= n < 192 => {}
    case 192 <= n < 224 => {}
    case 224 <= n => {}
  }

  lemma ByteOfValue(v: nat)
    ensures FromByte(ToByte(v)) == v % 256
  {
    SmallToByte(v % 256);
  }

  lemma ByteToSmall(b: byte)
    ensures (b as int) as bv8 == b
  {
  }

  lemma Small(n: nat)
    requires n < 256
    ensures ToByte(n) == n as bv8
  {
    assert n % 256 == n;
  }

  lemma ValueOfByte(b: byte)
    ensures ToByte(FromByte(b)) == b
  {
    ByteToSmall(b);
    Small(FromByte(b));
  }
}
