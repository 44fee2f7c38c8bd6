/** SOME/IP messages: the printer and the parser of the binding layer. */
module SomeIp {
  import opened Bytes
  import opened Common
  import BigEndian

  datatype Header = Header(
    serviceId: u16, methodId: u16, length: u32, clientId: u16, sessionId: u16,
    protoVersion: byte, ifaceVersion: byte, msgType: byte, returnCode: byte)

  // ----------------------------------------------------------- specification

  /** The length word a message is sent with, in the 32-bit arithmetic of the sender. */
  function LengthWord(payload: seq<byte>): u32 {
    (8 + |payload|) % 0x1_0000_0000
  }

  function HeaderBytes(h: Header, length: u32): (s: seq<byte>)
    ensures |s| == 16
  {
    BigEndian.Encode(h.serviceId, 2) + BigEndian.Encode(h.methodId, 2) + BigEndian.Encode(length, 4) +
    BigEndian.Encode(h.clientId, 2) + BigEndian.Encode(h.sessionId, 2) +
    [h.protoVersion, h.ifaceVersion, h.msgType, h.returnCode]
  }

  function Wire(h: Header, payload: seq<byte>): seq<byte> {
    HeaderBytes(h, LengthWord(payload)) + payload
  }

  function Read16(d: seq<byte>, off: nat): u16
    requires off + 2 <= |d|
  {
    BigEndian.Widths();
    BigEndian.Decode(d[off..off + 2])
  }

  function Read32(d: seq<byte>, off: nat): u32
    requires off + 4 <= |d|
  {
    BigEndian.Widths();
    BigEndian.Decode(d[off..off + 4])
  }

  function PayloadLen(length: u32): u32 {
    if length >= 8 then length - 8 else 0
  }

  /** The frame size the parsers ask for; the sum is 32 bits wide and wraps. */
  function RequiredSize(length: u32): u32 {
    (16 + PayloadLen(length)) % 0x1_0000_0000
  }

  /** The header fields of a frame; the length member of the message is left as it was. */
  function HeaderOf(d: seq<byte>, oldLength: u32): Header
    requires |d| >= 16
  {
    Header(Read16(d, 0), Read16(d, 2), oldLength, Read16(d, 8), Read16(d, 10), d[12], d[13], d[14], d[15])
  }

  predicate Accepts(d: seq<byte>) {
    |d| >= 16 && |d| >= RequiredSize(Read32(d, 4))
  }

  /** What an accepted frame makes the parser copy lies inside the frame. */
  predicate CopyInBounds(d: seq<byte>) {
    Accepts(d) ==> |d| >= 16 + PayloadLen(Read32(d, 4))
  }

  function PayloadOf(d: seq<byte>): seq<byte>
    requires Accepts(d) && CopyInBounds(d)
  {
    d[16..16 + PayloadLen(Read32(d, 4))]
  }

  // ---------------------------------------------------------- implementation

  class SomeIpMessage {
    var header: Header
    var payload: seq<byte>

    constructor (h: Header, p: seq<byte>)
      ensures header == h && payload == p
    {
      header, payload := h, p;
    }

    static method Push2(buf: seq<byte>, v: u16) returns (r: seq<byte>)
      ensures r == buf + BigEndian.Encode(v, 2)
    {
      hide ToByte, BigEndian.Encode;
      r := buf + [ToByte(v / 0x100)];
      r := r + [ToByte(v)];
      BigEndian.TwoBytes(v, 0);
    }

    static method Push4(buf: seq<byte>, v: u32) returns (r: seq<byte>)
      ensures r == buf + BigEndian.Encode(v, 4)
    {
      hide ToByte, BigEndian.Encode;
      r := buf + [ToByte(v / 0x100_0000)];
      r := r + [ToByte(v / 0x1_0000)];
      r := r + [ToByte(v / 0x100)];
      r := r + [ToByte(v)];
      BigEndian.FourBytes(v, 0);
    }

    method Serialize() returns (buf: seq<byte>)
      ensures buf == Wire(header, payload)
    {
      hide ToByte, BigEndian.Encode;
      buf := [];
      buf := Push2(buf, header.serviceId);
      buf := Push2(buf, header.methodId);
      buf := Push4(buf, (8 + |payload|) % 0x1_0000_0000);
      buf := Push2(buf, header.clientId);
      buf := Push2(buf, header.sessionId);
      buf := buf + [header.protoVersion];
      buf := buf + [header.ifaceVersion];
      buf := buf + [header.msgType];
      buf := buf + [header.returnCode];
      assert buf == HeaderBytes(header, LengthWord(payload));
      buf := buf + payload;
    }

    /** The message is filled step by step: a frame that fails the size test has already replaced the header. */
    static method Deserialize(data: seq<byte>, msg: SomeIpMessage) returns (ok: bool)
      requires CopyInBounds(data)
      modifies msg
      ensures ok <==> Accepts(data)
      ensures msg.header == if |data| < 16 then old(msg.header) else HeaderOf(data, old(msg.header.length))
      ensures msg.payload == if ok then PayloadOf(data) else old(msg.payload)
    {
      if |data| < 16 {
        return false;
      }
      msg.header := msg.header.(serviceId := Read16(data, 0));
      msg.header := msg.header.(methodId := Read16(data, 2));
      var length := Read32(data, 4);
      msg.header := msg.header.(clientId := Read16(data, 8));
      msg.header := msg.header.(sessionId := Read16(data, 10));
      msg.header := msg.header.(protoVersion := data[12]);
      msg.header := msg.header.(ifaceVersion := data[13]);
      msg.header := msg.header.(msgType := data[14]);
      msg.header := msg.header.(returnCode := data[15]);
      var payloadLen: u32 := if length >= 8 then length - 8 else 0;
      if |data| < (16 + payloadLen) % 0x1_0000_0000 {
        return false;
      }
      msg.payload := data[16..16 + payloadLen];
      ok := true;
    }
  }

  // -------------------------------------------------------------- properties

  /** The size test protects the copy unless the 32-bit sum wraps, which takes a length word of 0xFFFFFFF8 or more. */
  lemma CopyInBoundsIff(d: seq<byte>)
    requires |d| >= 16
    ensures CopyInBounds(d) <==> Read32(d, 4) <= 0xFFFF_FFF7 || |d| >= 8 + Read32(d, 4)
  {
    var length: int := Read32(d, 4);
    if length > 0xFFFF_FFF7 {
      assert RequiredSize(length) < 16;
    }
  }

  /** A header alone, with a length word that wraps the sum, passes the test and is copied past its end. */
  lemma CopyCanLeaveTheData(h: Header)
    ensures var d := HeaderBytes(h, 0xFFFF_FFFF); Accepts(d) && !CopyInBounds(d)
  {
    hide HeaderBytes, Read32;
    var d := HeaderBytes(h, 0xFFFF_FFFF);
    HeaderRoundTrip(h, 0xFFFF_FFFF, []);
    assert d + [] == d;
  }

  lemma HeaderSlices(h: Header, length: u32, rest: seq<byte>)
    ensures var d := HeaderBytes(h, length) + rest;
            d[0..2] == BigEndian.Encode(h.serviceId, 2) && d[2..4] == BigEndian.Encode(h.methodId, 2) &&
            d[4..8] == BigEndian.Encode(length, 4) && d[8..10] == BigEndian.Encode(h.clientId, 2) &&
            d[10..12] == BigEndian.Encode(h.sessionId, 2) &&
            d[12..16] == [h.protoVersion, h.ifaceVersion, h.msgType, h.returnCode] && d[16..] == rest
  {
    hide BigEndian.Encode;
  }

  lemma EightJoined(a: byte, b: byte, c: byte, d: byte, e: byte, f: byte, g: byte, h: byte)
    ensures [a, b] + [c, d] + [e, f, g, h] == [a, b, c, d, e, f, g, h]
  {
  }

  /** The printed message byte by byte: every number high byte first, and the payload last. */
  lemma WireByBytes(h: Header, payload: seq<byte>)
    ensures var n: int := (8 + |payload|) % 0x1_0000_0000;
            Wire(h, payload) ==
            [ToByte(h.serviceId / 0x100), ToByte(h.serviceId), ToByte(h.methodId / 0x100), ToByte(h.methodId),
             ToByte(n / 0x100_0000), ToByte(n / 0x1_0000), ToByte(n / 0x100), ToByte(n)] +
            [ToByte(h.clientId / 0x100), ToByte(h.clientId), ToByte(h.sessionId / 0x100), ToByte(h.sessionId),
             h.protoVersion, h.ifaceVersion, h.msgType, h.returnCode] + payload
  {
    hide ToByte, BigEndian.Encode;
    var n := LengthWord(payload);
    TwoAlone(h.serviceId);
    TwoAlone(h.methodId);
    FourAlone(n);
    TwoAlone(h.clientId);
    TwoAlone(h.sessionId);
    var first := BigEndian.Encode(h.serviceId, 2) + BigEndian.Encode(h.methodId, 2) + BigEndian.Encode(n, 4);
    var second := BigEndian.Encode(h.clientId, 2) + BigEndian.Encode(h.sessionId, 2) +
                  [h.protoVersion, h.ifaceVersion, h.msgType, h.returnCode];
    assert HeaderBytes(h, n) == first + second;
    hide HeaderBytes;
    EightJoined(
      ToByte(h.serviceId / 0x100), ToByte(h.serviceId), ToByte(h.methodId / 0x100), ToByte(h.methodId),
      ToByte(n / 0x100_0000), ToByte(n / 0x1_0000), ToByte(n / 0x100), ToByte(n));
    EightJoined(
      ToByte(h.clientId / 0x100), ToByte(h.clientId), ToByte(h.sessionId / 0x100), ToByte(h.sessionId),
      h.protoVersion, h.ifaceVersion, h.msgType, h.returnCode);
  }

  lemma FourAlone(v: u32)
    ensures BigEndian.Encode(v, 4) == [ToByte(v / 0x100_0000), ToByte(v / 0x1_0000), ToByte(v / 0x100), ToByte(v)]
  {
    hide ToByte, BigEndian.Encode;
    BigEndian.FourBytes(v, 0);
    NoDigits(v / 0x1_0000_0000);
  }

  lemma NoDigits(v: nat)
    ensures BigEndian.Encode(v, 0) == []
  {
  }

  lemma TwoAlone(v: u16)
    ensures BigEndian.Encode(v, 2) == [ToByte(v / 0x100), ToByte(v)]
  {
    hide ToByte, BigEndian.Encode;
    BigEndian.TwoBytes(v, 0);
    NoDigits(v / 0x1_0000);
  }

  /** Every header field survives, and the parser sees the length word. */
  lemma HeaderRoundTrip(h: Header, length: u32, rest: seq<byte>)
    ensures HeaderOf(HeaderBytes(h, length) + rest, h.length) == h
    ensures Read32(HeaderBytes(h, length) + rest, 4) == length
  {
    hide HeaderBytes, BigEndian.Encode, BigEndian.Decode;
    HeaderSlices(h, length, rest);
    BigEndian.Widths();
    BigEndian.DecodeEncode(h.serviceId, 2);
    BigEndian.DecodeEncode(h.methodId, 2);
    BigEndian.DecodeEncode(length, 4);
    BigEndian.DecodeEncode(h.clientId, 2);
    BigEndian.DecodeEncode(h.sessionId, 2);
    var d := HeaderBytes(h, length) + rest;
    assert d[12] == d[12..16][0] && d[13] == d[12..16][1] && d[14] == d[12..16][2] && d[15] == d[12..16][3];
  }

  /**
   Parsing a printed message, whatever follows it, gives the message back
   exactly when its length fits the 32-bit length word.
   */
  lemma RoundTrip(h: Header, payload: seq<byte>, rest: seq<byte>)
    ensures var d := Wire(h, payload) + rest;
            Accepts(d) && CopyInBounds(d) && HeaderOf(d, h.length) == h &&
            (PayloadOf(d) == payload <==> 8 + |payload| < 0x1_0000_0000)
  {
    hide HeaderBytes, BigEndian.Decode, HeaderOf;
    var d, length := Wire(h, payload) + rest, LengthWord(payload);
    assert d == HeaderBytes(h, length) + (payload + rest);
    HeaderRoundTrip(h, length, payload + rest);
    assert Read32(d, 4) == length;
    assert RequiredSize(length) <= |d|;
    assert d[16..] == payload + rest;
    assert PayloadOf(d) == (payload + rest)[..PayloadLen(length)];
    if 8 + |payload| < 0x1_0000_0000 {
      assert (payload + rest)[..|payload|] == payload;
    } else {
      assert |PayloadOf(d)| < |payload|;
    }
  }

  lemma HeaderPrinted(d: seq<byte>, oldLength: u32)
    requires |d| >= 16
    ensures HeaderBytes(HeaderOf(d, oldLength), Read32(d, 4)) == d[..16]
  {
    hide BigEndian.Encode, BigEndian.Decode;
    BigEndian.EncodeDecode(d[0..2]);
    BigEndian.EncodeDecode(d[2..4]);
    BigEndian.EncodeDecode(d[4..8]);
    BigEndian.EncodeDecode(d[8..10]);
    BigEndian.EncodeDecode(d[10..12]);
    assert d[..16] == d[0..2] + d[2..4] + d[4..8] + d[8..10] + d[10..12] + [d[12], d[13], d[14], d[15]];
  }

  /**
   Printing what was parsed gives back the frame up to its declared end,
   exactly when the length word is at least 8: shorter ones are accepted too
   but come back as 8.
   */
  lemma ReprintsPrefix(d: seq<byte>, oldLength: u32)
    requires Accepts(d) && CopyInBounds(d)
    ensures Wire(HeaderOf(d, oldLength), PayloadOf(d)) == d[..16 + PayloadLen(Read32(d, 4))] <==> Read32(d, 4) >= 8
  {
    hide HeaderBytes, HeaderOf, BigEndian.Decode;
    var h, p, length := HeaderOf(d, oldLength), PayloadOf(d), Read32(d, 4);
    HeaderPrinted(d, oldLength);
    if length >= 8 {
      assert LengthWord(p) == length;
      assert d[..16 + PayloadLen(length)] == d[..16] + p;
    } else {
      assert LengthWord(p) == 8 && p == [];
      HeaderRoundTrip(h, length, []);
      HeaderRoundTrip(h, 8, []);
      assert HeaderBytes(h, 8) + [] == Wire(h, p);
      assert HeaderBytes(h, length) + [] == d[..16];
    }
  }

  /** Two messages that both fit have the same bytes only when they are the same message. */
  lemma WireInjective(h: Header, p: seq<byte>, h': Header, p': seq<byte>)
    requires 8 + |p| < 0x1_0000_0000 && 8 + |p'| < 0x1_0000_0000
    requires Wire(h, p) == Wire(h', p')
    ensures h.(length := 0) == h'.(length := 0) && p == p'
  {
    RoundTrip(h, p, []);
    RoundTrip(h', p', []);
    assert Wire(h, p) + [] == Wire(h', p') + [];
  }
}
