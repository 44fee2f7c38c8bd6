/** The receive path: frame classification with the E2E check, dispatch, and the receive statistics. */
module VehicleSignalProxy {
  import opened Bytes
  import opened Common
  import opened Gf2
  import opened Crc
  import opened SomeIp
  import opened SampleQueue
  import BigEndian

  const SVC_ID_VEHICLE_SIGNAL: u16 := 0x1001
  const VEHICLE_SIGNAL_EVT_ID: u16 := 0x8001
  const SOMEIP_MSG_NOTIFICATION: byte := 0x02

  datatype Verdict = Ignored | Malformed | CrcMismatch | Delivered(sample: Sample)

  /** The packed 20-byte payload: three floats and two bytes of signals, a float, the CRC and the counter. */
  function SampleOf(raw: seq<byte>, sessionId: u16): Sample
    requires |raw| == 20
  {
    Sample(raw[0..4], raw[4..8], raw[8] != 0, raw[9..13], raw[13], raw[14..18], raw[18], raw[19], sessionId)
  }

  function Classify(d: seq<byte>): Verdict {
    if |d| < 36 then Malformed
    else if Read16(d, 0) != SVC_ID_VEHICLE_SIGNAL then Ignored
    else if Read16(d, 2) != VEHICLE_SIGNAL_EVT_ID then Ignored
    else if d[14] != SOMEIP_MSG_NOTIFICATION then Malformed
    else if PayloadLen(Read32(d, 4)) < 20 then Malformed
    else if |d| < RequiredSize(Read32(d, 4)) then Malformed
    else if d[34] != Crc8(d[16..34]) then CrcMismatch
    else Delivered(SampleOf(d[16..36], Read16(d, 10)))
  }

  /** The four 64-bit counters. */
  datatype Stats = Stats(rxPackets: u64, rxBytes: u64, e2eErrors: u64, parseErrors: u64)

  /** What the counters count, without a bound. */
  datatype Counts = Counts(rxPackets: nat, rxBytes: nat, e2eErrors: nat, parseErrors: nat)

  const ZERO := Stats(0, 0, 0, 0)

  function Bump(n: u64, k: nat): u64 {
    (n + k) % 0x1_0000_0000_0000_0000
  }

  function Plus(s: Stats, c: Counts): Stats {
    Stats(Bump(s.rxPackets, c.rxPackets), Bump(s.rxBytes, c.rxBytes),
          Bump(s.e2eErrors, c.e2eErrors), Bump(s.parseErrors, c.parseErrors))
  }

  function Total(a: Counts, b: Counts): Counts {
    Counts(a.rxPackets + b.rxPackets, a.rxBytes + b.rxBytes, a.e2eErrors + b.e2eErrors, a.parseErrors + b.parseErrors)
  }

  function CountOf(d: seq<byte>): Counts {
    Counts(1, |d|, if Classify(d).CrcMismatch? then 1 else 0,
           if Classify(d).CrcMismatch? || Classify(d).Malformed? then 1 else 0)
  }

  /** The counts of completely handled frames. */
  function Tally(frames: seq<seq<byte>>): Counts {
    if frames == [] then Counts(0, 0, 0, 0) else Total(Tally(frames[..|frames| - 1]), CountOf(frames[|frames| - 1]))
  }

  /** The receive thread may enqueue: no call is owed, and a full queue has a sample to give up. */
  predicate CanReceive(s: State) {
    s.owed.None? && Poppable(s)
  }

  function Push(s: State, d: seq<byte>): State {
    if Classify(d).Delivered? then Apply(Apply(s, Enqueue(Classify(d).sample)), CallHandler) else s
  }

  function PushAll(s: State, frames: seq<seq<byte>>): State {
    if frames == [] then s else Push(PushAll(s, frames[..|frames| - 1]), frames[|frames| - 1])
  }

  /** Reads that returned data; the others are skipped by the loop. */
  function NonEmpty(frames: seq<seq<byte>>): seq<seq<byte>> {
    if frames == [] then []
    else NonEmpty(frames[..|frames| - 1]) + if frames[|frames| - 1] == [] then [] else [frames[|frames| - 1]]
  }

  // ---------------------------------------------------------- implementation

  class Proxy {
    const event: VehicleSignalEvent
    var stats: Stats

    constructor ()
      ensures stats == ZERO && event.Abstract() == INITIAL && fresh(event)
    {
      event := new VehicleSignalEvent();
      stats := ZERO;
    }

    method ParseAndDispatch(buf: seq<byte>) returns (ok: bool)
      requires CanReceive(event.Abstract())
      modifies this, event
      ensures ok <==> Classify(buf).Ignored? || Classify(buf).Delivered?
      ensures stats == Plus(old(stats), Counts(0, 0, if Classify(buf).CrcMismatch? then 1 else 0, 0))
      ensures event.Abstract() == Push(old(event.Abstract()), buf)
    {
      hide Crc8, Read16, Read32, Apply, SampleOf;
      if |buf| < 36 {
        return false;
      }
      var serviceId, methodId := Read16(buf, 0), Read16(buf, 2);
      var length, sessionId, msgType := Read32(buf, 4), Read16(buf, 10), buf[14];
      if serviceId != SVC_ID_VEHICLE_SIGNAL {
        return true;
      }
      if methodId != VEHICLE_SIGNAL_EVT_ID {
        return true;
      }
      if msgType != SOMEIP_MSG_NOTIFICATION {
        return false;
      }
      var payloadLen: u32 := if length >= 8 then length - 8 else 0;
      if payloadLen < 20 {
        return false;
      }
      if |buf| < (16 + payloadLen) % 0x1_0000_0000 {
        return false;
      }
      var raw := buf[16..36];
      var expectedCrc := E2eCrc8(raw, 18);
      assert raw[..18] == buf[16..34] && raw[18] == buf[34];
      if raw[18] != expectedCrc {
        stats := stats.(e2eErrors := Bump(stats.e2eErrors, 1));
        return false;
      }
      event.PushSample(SampleOf(raw, sessionId));
      ok := true;
    }

    /** One turn of the receive loop with a frame in the buffer. */
    method HandleFrame(buf: seq<byte>)
      requires CanReceive(event.Abstract())
      modifies this, event
      ensures stats == Plus(old(stats), CountOf(buf))
      ensures event.Abstract() == Push(old(event.Abstract()), buf)
      ensures CanReceive(event.Abstract())
    {
      hide Classify, Apply, Plus, Bump;
      PushSettles(event.Abstract(), buf);
      FrameCounts(stats, buf);
      stats := stats.(rxPackets := Bump(stats.rxPackets, 1), rxBytes := Bump(stats.rxBytes, |buf|));
      var ok := ParseAndDispatch(buf);
      if !ok {
        stats := stats.(parseErrors := Bump(stats.parseErrors, 1));
      }
    }

    /** The receive loop over what the socket returned, one read after the other; empty reads are skipped. */
    method RxThreadFunc(received: seq<seq<byte>>)
      requires CanReceive(event.Abstract())
      modifies this, event
      ensures stats == Plus(old(stats), Tally(NonEmpty(received)))
      ensures event.Abstract() == PushAll(old(event.Abstract()), NonEmpty(received))
    {
      hide CountOf, Push, NonEmpty, Tally, PushAll, Plus;
      NothingReceived(stats, event.Abstract());
      for n := 0 to |received|
        invariant stats == Plus(old(stats), Tally(NonEmpty(received[..n])))
        invariant event.Abstract() == PushAll(old(event.Abstract()), NonEmpty(received[..n]))
        invariant CanReceive(event.Abstract())
      {
        OneMoreRead(received, n, old(event.Abstract()));
        if received[n] != [] {
          PlusTotal(old(stats), Tally(NonEmpty(received[..n])), CountOf(received[n]));
          HandleFrame(received[n]);
        }
      }
      assert received[..|received|] == received;
    }
  }

  lemma NothingReceived(stats: Stats, s: State)
    ensures Plus(stats, Tally(NonEmpty([]))) == stats && PushAll(s, NonEmpty([])) == s
  {
  }

  lemma PlusTotal(s: Stats, a: Counts, b: Counts)
    ensures Plus(Plus(s, a), b) == Plus(s, Total(a, b))
  {
    hide Bump;
    BumpTwice(s.rxPackets, a.rxPackets, b.rxPackets);
    BumpTwice(s.rxBytes, a.rxBytes, b.rxBytes);
    BumpTwice(s.e2eErrors, a.e2eErrors, b.e2eErrors);
    BumpTwice(s.parseErrors, a.parseErrors, b.parseErrors);
  }

  /** The counter updates of one frame, one after the other. */
  lemma FrameCounts(s: Stats, buf: seq<byte>)
    ensures var received := s.(rxPackets := Bump(s.rxPackets, 1), rxBytes := Bump(s.rxBytes, |buf|));
            var parsed := Plus(received, Counts(0, 0, if Classify(buf).CrcMismatch? then 1 else 0, 0));
            Plus(s, CountOf(buf)) ==
            if Classify(buf).CrcMismatch? || Classify(buf).Malformed?
            then parsed.(parseErrors := Bump(parsed.parseErrors, 1)) else parsed
  {
    hide Classify, Bump;
    BumpNone(s.e2eErrors);
    BumpNone(s.parseErrors);
    BumpNone(Bump(s.rxPackets, 1));
    BumpNone(Bump(s.rxBytes, |buf|));
  }

  lemma BumpNone(n: u64)
    ensures Bump(n, 0) == n
  {
  }

  lemma BumpTwice(n: u64, a: nat, b: nat)
    ensures Bump(Bump(n, a), b) == Bump(n, a + b)
  {
  }

  lemma OneMoreRead(received: seq<seq<byte>>, n: nat, s: State)
    requires n < |received|
    ensures var done, next := NonEmpty(received[..n]), NonEmpty(received[..n + 1]);
            if received[n] == [] then next == done
            else Tally(next) == Total(Tally(done), CountOf(received[n])) &&
                 PushAll(s, next) == Push(PushAll(s, done), received[n])
  {
    hide CountOf, Push;
    var done, next := NonEmpty(received[..n]), NonEmpty(received[..n + 1]);
    assert received[..n + 1][..n] == received[..n];
    if received[n] == [] {
      assert next == done + [];
    } else {
      assert next == done + [received[n]];
      assert next[..|done|] == done;
    }
  }

  lemma PushSettles(s: State, d: seq<byte>)
    requires CanReceive(s)
    ensures CanReceive(Push(s, d))
  {
  }

  // --------------------------------------------------- what the E2E check buys

  /** The frame reaches the E2E check. */
  predicate IsEventFrame(d: seq<byte>) {
    |d| >= 36 && Read16(d, 0) == SVC_ID_VEHICLE_SIGNAL && Read16(d, 2) == VEHICLE_SIGNAL_EVT_ID &&
    d[14] == SOMEIP_MSG_NOTIFICATION && PayloadLen(Read32(d, 4)) >= 20 && |d| >= RequiredSize(Read32(d, 4))
  }

  /** A frame is delivered iff it is an event frame whose first 19 payload bytes have residue 0x3B. */
  lemma DeliveredIffResidue(d: seq<byte>)
    ensures Classify(d).Delivered? <==> IsEventFrame(d) && Crc8(d[16..35]) == 0x3B
    ensures Classify(d).CrcMismatch? <==> IsEventFrame(d) && Crc8(d[16..35]) != 0x3B
  {
    hide Crc8, Read16, Read32, RequiredSize, PayloadLen;
    if IsEventFrame(d) {
      assert d[16..35] == d[16..34] + [d[34]];
      Crc8Residue(d[16..34], d[34]);
    }
  }

  /**
   Flipping bits of a delivered frame inside a window of at most 8 consecutive
   bits of the first 19 payload bytes is always caught, and counted as an E2E
   error.
   */
  lemma BurstNeverDelivered(d: seq<byte>, e: seq<byte>, j: nat, k: nat)
    requires Classify(d).Delivered? && e != d && k <= 8
    requires |e| == |d| && d[0..16] == e[0..16] && d[35..] == e[35..]
    requires DifferOnlyIn(BlockBits(d[16..35]), BlockBits(e[16..35]), j, k)
    ensures Classify(e).CrcMismatch?
  {
    hide BlockBits, Crc8, Classify;
    DeliveredIffResidue(d);
    DeliveredIffResidue(e);
    if d[16..35] == e[16..35] {
      SameParts(d, e);
    }
    Crc8DetectsBursts(d[16..35], e[16..35], j, k);
    SameHeader(d, e);
  }

  lemma SameParts(d: seq<byte>, e: seq<byte>)
    requires |d| == |e| >= 36
    requires d[0..16] == e[0..16] && d[16..35] == e[16..35] && d[35..] == e[35..]
    ensures d == e
  {
    assert d == d[0..16] + d[16..35] + d[35..] && e == e[0..16] + e[16..35] + e[35..];
  }

  lemma SameHeader(d: seq<byte>, e: seq<byte>)
    requires |d| == |e| >= 36 && d[0..16] == e[0..16]
    ensures IsEventFrame(d) <==> IsEventFrame(e)
    ensures Read16(d, 10) == Read16(e, 10)
  {
    hide RequiredSize, PayloadLen;
    hide Read16, Read32;
    SamePrefixReads(d, e);
    assert d[14] == d[0..16][14] && e[14] == e[0..16][14];
  }

  lemma SamePrefixReads(d: seq<byte>, e: seq<byte>)
    requires |d| == |e| >= 36 && d[0..16] == e[0..16]
    ensures Read16(d, 0) == Read16(e, 0) && Read16(d, 2) == Read16(e, 2)
    ensures Read32(d, 4) == Read32(e, 4) && Read16(d, 10) == Read16(e, 10)
  {
    var p, q := d[0..16], e[0..16];
    assert d[0..2] == p[0..2] && e[0..2] == q[0..2];
    assert d[2..4] == p[2..4] && e[2..4] == q[2..4];
    assert d[4..8] == p[4..8] && e[4..8] == q[4..8];
    assert d[10..12] == p[10..12] && e[10..12] == q[10..12];
  }

  lemma WordIs(d: seq<byte>, off: nat, hi: byte, lo: byte)
    requires off + 2 <= |d|
    ensures Read16(d, off) == 256 * FromByte(hi) + FromByte(lo) <==> d[off..off + 2] == [hi, lo]
  {
    hide FromByte, ToByte;
    var w := d[off..off + 2];
    TwoDigits(w[0], w[1]);
    assert w == [w[0], w[1]];
    ByteRange(hi);
    ByteRange(lo);
    ByteRange(w[0]);
    ByteRange(w[1]);
    ValueOfByte(hi);
    ValueOfByte(lo);
    ValueOfByte(w[0]);
    ValueOfByte(w[1]);
  }

  lemma ByteRange(b: byte)
    ensures 0 <= FromByte(b) < 256
  {
  }

  lemma TwoDigits(hi: byte, lo: byte)
    ensures BigEndian.Decode([hi, lo]) == 256 * FromByte(hi) + FromByte(lo)
  {
    hide FromByte;
    assert [hi, lo][..1] == [hi] && [hi][..0] == [];
    assert BigEndian.Decode([hi]) == FromByte(hi);
  }

  lemma IdBytes()
    ensures 256 * FromByte(0x10) + FromByte(0x01) == 0x1001 && 256 * FromByte(0x80) + FromByte(0x01) == 0x8001
  {
  }

  /**
   The verdict by the bytes of the frame: fewer than 36 are malformed; then any
   but 10 01 80 01 at the start are ignored; then a type other than 2, a length
   word below 28, and one that asks for more than there is, in 32-bit arithmetic,
   are malformed; and the CRC byte decides on the rest.
   */
  lemma VerdictByBytes(d: seq<byte>)
    ensures |d| < 36 ==> Classify(d).Malformed?
    ensures |d| >= 36 ==>
              var length: int := BigEndian.Decode(d[4..8]);
              if d[0..4] != [0x10, 0x01, 0x80, 0x01] then Classify(d).Ignored?
              else if d[14] != 2 || length < 28 || |d| < (8 + length) % 0x1_0000_0000 then Classify(d).Malformed?
              else if d[34] != Crc8(d[16..34]) then Classify(d).CrcMismatch?
              else Classify(d).Delivered?
  {
    hide Crc8, FromByte, BigEndian.Decode, Read16, SampleOf;
    if |d| >= 36 {
      IdBytes();
      WordIs(d, 0, 0x10, 0x01);
      WordIs(d, 2, 0x80, 0x01);
      FourIds(d);
      BigEndian.Widths();
    }
  }

  lemma FourIds(d: seq<byte>)
    requires |d| >= 36
    ensures d[0..4] == [0x10, 0x01, 0x80, 0x01] <==> d[0..2] == [0x10, 0x01] && d[2..4] == [0x80, 0x01]
  {
    assert d[0..4] == d[0..2] + d[2..4];
    assert [0x10 as byte, 0x01, 0x80, 0x01] == [0x10, 0x01] + [0x80, 0x01];
    if d[0..4] == [0x10, 0x01, 0x80, 0x01] {
      assert d[0..2] == d[0..4][0..2] && d[2..4] == d[0..4][2..4];
    }
  }

  /** Each member of a delivered sample by its bytes; the brake byte is only kept as zero or not. */
  lemma DeliveredCarriesPayload(d: seq<byte>)
    requires Classify(d).Delivered?
    ensures var s := Classify(d).sample;
            && s.speed == d[16..20] && s.rpm == d[20..24] && (s.brake <==> d[24] != 0)
            && s.steering == d[25..29] && s.door == d[29] && s.fuel == d[30..34]
            && s.e2eCrc == d[34] == Crc8(d[16..34]) && s.e2eCounter == d[35]
            && BigEndian.Encode(s.sessionId, 2) == d[10..12]
  {
    hide Crc8, RequiredSize, PayloadLen, BigEndian.Encode, BigEndian.Decode;
    PayloadSlice(d, 0, 4);
    PayloadSlice(d, 4, 8);
    PayloadSlice(d, 9, 13);
    PayloadSlice(d, 14, 18);
    BigEndian.EncodeDecode(d[10..12]);
  }

  lemma PayloadSlice(d: seq<byte>, a: nat, b: nat)
    requires a <= b <= 20 && |d| >= 36
    ensures d[16..36][a..b] == d[16 + a..16 + b]
  {
    var r := d[16..36];
    forall i | 0 <= i < b - a
      ensures r[a..b][i] == d[16 + a..16 + b][i]
    {
      assert r[a + i] == d[16 + (a + i)];
    }
  }

  /** The counter byte lies outside the cover: whatever it is changed to, the frame is delivered with that counter. */
  lemma CounterNotCovered(d: seq<byte>, c: byte)
    requires Classify(d).Delivered?
    ensures Classify(d[35 := c]) == Delivered(Classify(d).sample.(e2eCounter := c))
  {
    hide Crc8, Read16, Read32, RequiredSize, PayloadLen;
    var e := d[35 := c];
    assert e[0..16] == d[0..16] && e[16..34] == d[16..34];
    SameHeader(d, e);
    var r, s := d[16..36], e[16..36];
    assert s == r[19 := c];
    assert s[0..4] == r[0..4] && s[4..8] == r[4..8] && s[9..13] == r[9..13] && s[14..18] == r[14..18];
  }

  /**
   Every delivered frame passes the general parser's size test too. Below the
   wrap, that parser reads the same ids and session, and its payload starts
   with the 20 bytes the sample was made of.
   */
  lemma DeliveredIsDeserializable(d: seq<byte>, oldLength: u32)
    requires Classify(d).Delivered?
    ensures Accepts(d)
    ensures Read32(d, 4) <= 0xFFFF_FFF7 ==>
              CopyInBounds(d) && |PayloadOf(d)| >= 20 &&
              var h := HeaderOf(d, oldLength);
              h.serviceId == SVC_ID_VEHICLE_SIGNAL && h.methodId == VEHICLE_SIGNAL_EVT_ID &&
              h.msgType == SOMEIP_MSG_NOTIFICATION &&
              Classify(d).sample == SampleOf(PayloadOf(d)[..20], h.sessionId)
  {
    hide Crc8, Read16, Read32;
    CopyInBoundsIff(d);
    if Read32(d, 4) <= 0xFFFF_FFF7 {
      assert d[16..36] == PayloadOf(d)[..20];
    }
  }

  /**
   A printed event message, whatever follows it, is delivered with the header's
   session and the payload's first 20 bytes iff its CRC byte is right, and is a
   CRC mismatch otherwise.
   */
  lemma PrintedEventIsClassified(h: Header, p: seq<byte>, rest: seq<byte>)
    requires h.serviceId == SVC_ID_VEHICLE_SIGNAL && h.methodId == VEHICLE_SIGNAL_EVT_ID
    requires h.msgType == SOMEIP_MSG_NOTIFICATION && 20 <= |p| && 8 + |p| < 0x1_0000_0000
    ensures Classify(Wire(h, p) + rest) ==
            if p[18] == Crc8(p[..18]) then Delivered(SampleOf(p[..20], h.sessionId)) else CrcMismatch
    ensures var v := Classify(Wire(h, p) + rest);
            v.Delivered? ==>
              && v.sample.sessionId == h.sessionId && v.sample.speed == p[0..4] && v.sample.rpm == p[4..8]
              && (v.sample.brake <==> p[8] != 0) && v.sample.steering == p[9..13] && v.sample.door == p[13]
              && v.sample.fuel == p[14..18] && v.sample.e2eCrc == p[18] && v.sample.e2eCounter == p[19]
  {
    hide *;
    PrintedEventVerdict(h, p, rest);
    SampleMembers(p, h.sessionId);
  }

  lemma PrintedEventVerdict(h: Header, p: seq<byte>, rest: seq<byte>)
    requires h.serviceId == SVC_ID_VEHICLE_SIGNAL && h.methodId == VEHICLE_SIGNAL_EVT_ID
    requires h.msgType == SOMEIP_MSG_NOTIFICATION && 20 <= |p| && 8 + |p| < 0x1_0000_0000
    ensures Classify(Wire(h, p) + rest) ==
            if p[18] == Crc8(p[..18]) then Delivered(SampleOf(p[..20], h.sessionId)) else CrcMismatch
  {
    hide Crc8, Read16, Read32, HeaderBytes, SampleOf;
    var d, length := Wire(h, p) + rest, LengthWord(p);
    assert d == HeaderBytes(h, length) + (p + rest);
    HeaderRoundTrip(h, length, p + rest);
    assert d[14] == HeaderOf(d, h.length).msgType;
    assert d[16..36] == p[..20] && d[16..34] == p[..18] && d[34] == p[18];
  }

  lemma SampleMembers(p: seq<byte>, session: u16)
    requires |p| >= 20
    ensures var s := SampleOf(p[..20], session);
            && s.sessionId == session && s.speed == p[0..4] && s.rpm == p[4..8] && (s.brake <==> p[8] != 0)
            && s.steering == p[9..13] && s.door == p[13] && s.fuel == p[14..18]
            && s.e2eCrc == p[18] && s.e2eCounter == p[19]
  {
    assert p[..20][0..4] == p[0..4] && p[..20][4..8] == p[4..8];
    assert p[..20][9..13] == p[9..13] && p[..20][14..18] == p[14..18];
  }

  // -------------------------------------------------------- from frames to samples

  /** The reads with data: the others vanish, and the order stays. */
  lemma {:induction false} NonEmptyConcat(a: seq<seq<byte>>, b: seq<seq<byte>>)
    ensures NonEmpty(a + b) == NonEmpty(a) + NonEmpty(b)
    decreases |b|
  {
    if b == [] {
      assert a + b == a && NonEmpty(a) + [] == NonEmpty(a);
    } else {
      var n := |b| - 1;
      NonEmptyConcat(a, b[..n]);
      assert (a + b)[..|a + b| - 1] == a + b[..n];
      assert (a + b)[|a + b| - 1] == b[n];
    }
  }

  lemma NonEmptyOne(frame: seq<byte>)
    ensures NonEmpty([frame]) == if frame == [] then [] else [frame]
  {
    assert [frame][..0] == [];
  }

  /** The samples of the frames that are delivered, in order. */
  ghost function DeliveredSamples(frames: seq<seq<byte>>): seq<Sample> {
    if frames == [] then []
    else
      var v := Classify(frames[|frames| - 1]);
      DeliveredSamples(frames[..|frames| - 1]) + if v.Delivered? then [v.sample] else []
  }

  ghost function CallsFor(h: Option<Handler>, xs: seq<Sample>): seq<Call> {
    if h.None? then [] else seq(|xs|, i requires 0 <= i < |xs| => Call(h.value, xs[i]))
  }

  lemma CallsForSnoc(h: Option<Handler>, xs: seq<Sample>, x: Sample)
    ensures CallsFor(h, xs + [x]) == CallsFor(h, xs) + if h.Some? then [Call(h.value, x)] else []
  {
  }

  lemma PushKeepsNewest(s: State, before: seq<Sample>, d: seq<byte>)
    requires CanReceive(s) && s.subscribed && s.queue == Newest(before, s.maxSamples)
    ensures var t, v := Push(s, d), Classify(d);
            && t.subscribed && t.maxSamples == s.maxSamples && t.handler == s.handler && CanReceive(t)
            && t.queue == Newest(before + (if v.Delivered? then [v.sample] else []), s.maxSamples)
            && t.calls == s.calls + CallsFor(s.handler, if v.Delivered? then [v.sample] else [])
  {
    hide Classify, Newest, Leave;
    PushSettles(s, d);
    if Classify(d).Delivered? {
      var x := Classify(d).sample;
      QueueKeepsNewest(s, before, Enqueue(x));
      CallsForSnoc(s.handler, [], x);
      assert [] + [x] == [x];
      assert s.calls + [] == s.calls;
    } else {
      assert before + [] == before && s.calls + [] == s.calls;
    }
  }

  /**
   From the frames to the application: into a subscribed event with an empty
   queue, the receive loop passes every delivered sample to the handler, in
   order, and leaves the newest of them in the queue, as many as its capacity.
   */
  lemma {:induction false} DeliveredSamplesArrive(s: State, frames: seq<seq<byte>>)
    requires CanReceive(s) && s.subscribed && s.queue == []
    ensures var t := PushAll(s, frames);
            && t.subscribed && t.maxSamples == s.maxSamples && t.handler == s.handler && CanReceive(t)
            && t.queue == Newest(DeliveredSamples(frames), s.maxSamples)
            && t.calls == s.calls + CallsFor(s.handler, DeliveredSamples(frames))
    decreases |frames|
  {
    hide Classify, CanReceive, Push;
    if frames == [] {
      assert s.calls + [] == s.calls;
    } else {
      var n := |frames| - 1;
      var done, v := DeliveredSamples(frames[..n]), Classify(frames[n]);
      DeliveredSamplesArrive(s, frames[..n]);
      hide Newest, CallsFor;
      PushKeepsNewest(PushAll(s, frames[..n]), done, frames[n]);
      if v.Delivered? {
        CallsForSnoc(s.handler, done, v.sample);
        CallsForSnoc(s.handler, [], v.sample);
        NoCalls(s.handler);
        assert [] + [v.sample] == [v.sample];
      } else {
        assert done + [] == done;
        NoCalls(s.handler);
      }
    }
  }

  lemma NoCalls(h: Option<Handler>)
    ensures CallsFor(h, []) == []
  {
  }

  // -------------------------------------------------------- receive statistics

  /** Where the receive thread is between its locked updates. */
  datatype RxPoint = AtHead | Counted | Failed

  datatype RxState = RxState(point: RxPoint, stats: Stats, frames: seq<seq<byte>>)

  datatype RxStep = Receive(frame: seq<byte>) | Parse | CountError

  const RX_INITIAL := RxState(AtHead, ZERO, [])

  predicate RxEnabled(s: RxState, step: RxStep) {
    match step
    case Receive(d) => s.point.AtHead? && 1 <= |d| <= 1024
    case Parse => s.point.Counted? && s.frames != []
    case CountError => s.point.Failed?
  }

  /** One locked update of the statistics per step; parsing takes the lock only on a CRC mismatch. */
  function RxApply(s: RxState, step: RxStep): RxState
    requires RxEnabled(s, step)
  {
    match step
    case Receive(d) =>
      RxState(Counted, Plus(s.stats, Counts(1, |d|, 0, 0)), s.frames + [d])
    case Parse => (
      match Classify(s.frames[|s.frames| - 1])
      case CrcMismatch => s.(point := Failed, stats := Plus(s.stats, Counts(0, 0, 1, 0)))
      case Malformed => s.(point := Failed)
      case _ => s.(point := AtHead))
    case CountError => s.(point := AtHead, stats := Plus(s.stats, Counts(0, 0, 0, 1)))
  }

  ghost predicate RxReaches(s: RxState, steps: seq<RxStep>, t: RxState)
    decreases |steps|
  {
    if steps == [] then s == t
    else RxEnabled(s, steps[0]) && RxReaches(RxApply(s, steps[0]), steps[1..], t)
  }

  ghost function Ignorable(frames: seq<seq<byte>>): nat {
    if frames == [] then 0
    else Ignorable(frames[..|frames| - 1]) + if Classify(frames[|frames| - 1]).Ignored? then 1 else 0
  }

  ghost function Deliverable(frames: seq<seq<byte>>): nat {
    if frames == [] then 0
    else Deliverable(frames[..|frames| - 1]) + if Classify(frames[|frames| - 1]).Delivered? then 1 else 0
  }

  ghost function Mismatching(frames: seq<seq<byte>>): nat {
    if frames == [] then 0
    else Mismatching(frames[..|frames| - 1]) + if Classify(frames[|frames| - 1]).CrcMismatch? then 1 else 0
  }

  ghost function ByteCount(frames: seq<seq<byte>>): nat {
    if frames == [] then 0 else ByteCount(frames[..|frames| - 1]) + |frames[|frames| - 1]|
  }

  /** The exact counts at a moment: the frame in flight is received, and not yet in the parse errors. */
  ghost function Exact(s: RxState): Counts {
    if s.point.AtHead? || s.frames == [] then Tally(s.frames)
    else
      var before, d := Tally(s.frames[..|s.frames| - 1]), s.frames[|s.frames| - 1];
      if s.point.Counted? then Total(before, Counts(1, |d|, 0, 0))
      else Total(before, CountOf(d)).(parseErrors := before.parseErrors)
  }

  ghost predicate RxInvariant(s: RxState) {
    && (forall i :: 0 <= i < |s.frames| ==> 1 <= |s.frames[i]| <= 1024)
    && (!s.point.AtHead? ==> s.frames != [])
    && (s.point.Failed? ==>
          var d := s.frames[|s.frames| - 1]; Classify(d).CrcMismatch? || Classify(d).Malformed?)
    && s.stats == Plus(ZERO, Exact(s))
  }

  lemma RxStepKeepsInvariant(s: RxState, step: RxStep)
    requires RxInvariant(s) && RxEnabled(s, step)
    ensures RxInvariant(RxApply(s, step))
  {
    hide Classify, Plus;
    var e := Exact(s);
    match step
    case Receive(d) =>
      assert (s.frames + [d])[..|s.frames|] == s.frames;
      PlusTotal(ZERO, e, Counts(1, |d|, 0, 0));
    case Parse => PlusTotal(ZERO, e, Counts(0, 0, 1, 0));
    case CountError => PlusTotal(ZERO, e, Counts(0, 0, 0, 1));
  }

  /** The steps of one frame in a row do what the contract of HandleFrame says. */
  lemma UninterruptedFrame(s: RxState, d: seq<byte>) returns (steps: seq<RxStep>, t: RxState)
    requires s.point.AtHead? && 1 <= |d| <= 1024
    ensures RxReaches(s, steps, t) && t == RxState(AtHead, Plus(s.stats, CountOf(d)), s.frames + [d])
  {
    hide Classify, Plus;
    var a := RxApply(s, Receive(d));
    var b := RxApply(a, Parse);
    PlusTotal(s.stats, Counts(1, |d|, 0, 0), Counts(0, 0, 1, 0));
    PlusTotal(s.stats, Counts(1, |d|, 0, 0), Counts(0, 0, 0, 1));
    PlusTotal(s.stats, Counts(1, |d|, 1, 0), Counts(0, 0, 0, 1));
    t := if b.point.Failed? then RxApply(b, CountError) else b;
    var last := if b.point.Failed? then [CountError] else [];
    assert RxReaches(t, [], t);
    assert b.point.Failed? ==> last[1..] == [];
    assert RxReaches(b, last, t);
    RxCons(a, Parse, last, t);
    RxCons(s, Receive(d), [Parse] + last, t);
    steps := [Receive(d)] + ([Parse] + last);
  }

  lemma RxCons(s: RxState, step: RxStep, steps: seq<RxStep>, t: RxState)
    requires RxEnabled(s, step) && RxReaches(RxApply(s, step), steps, t)
    ensures RxReaches(s, [step] + steps, t)
  {
    hide RxApply;
    assert ([step] + steps)[1..] == steps;
  }

  lemma {:induction false} RxRunKeepsInvariant(s: RxState, steps: seq<RxStep>, t: RxState)
    requires RxInvariant(s) && RxReaches(s, steps, t)
    ensures RxInvariant(t)
    decreases |steps|
  {
    hide Classify, RxApply, RxInvariant;
    if steps != [] {
      RxStepKeepsInvariant(s, steps[0]);
      RxRunKeepsInvariant(RxApply(s, steps[0]), steps[1..], t);
    }
  }

  lemma {:induction false} TallyBounds(frames: seq<seq<byte>>)
    requires forall i :: 0 <= i < |frames| ==> 1 <= |frames[i]| <= 1024
    ensures var t := Tally(frames);
            t.rxPackets == |frames| == t.parseErrors + Ignorable(frames) + Deliverable(frames) &&
            t.e2eErrors == Mismatching(frames) && t.rxBytes == ByteCount(frames) &&
            t.e2eErrors <= t.parseErrors && t.rxPackets <= t.rxBytes <= 1024 * t.rxPackets
    decreases |frames|
  {
    hide Classify;
    if frames != [] {
      TallyBounds(frames[..|frames| - 1]);
    }
  }

  /**
   At every loop head the counters account for each frame received; and a
   snapshot taken at any other moment is off by at most the frame in flight.
   The counters are the exact counts modulo 2^64, so they are exact for the
   first 2^64 - 1 bytes.
   */
  lemma StatisticsAccount(steps: seq<RxStep>, s: RxState)
    requires RxReaches(RX_INITIAL, steps, s)
    ensures s.stats == Plus(ZERO, Exact(s))
    ensures var e := Exact(s);
            && e.rxPackets == |s.frames| && e.rxPackets <= e.rxBytes == ByteCount(s.frames) <= 1024 * e.rxPackets
            && e.parseErrors <= e.rxPackets && e.e2eErrors <= e.rxPackets && e.e2eErrors <= e.parseErrors + 1
            && (e.e2eErrors > e.parseErrors ==> s.point.Failed?)
    ensures s.point.AtHead? ==>
              var e := Exact(s);
              e == Tally(s.frames) && e.rxPackets == e.parseErrors + Ignorable(s.frames) + Deliverable(s.frames) &&
              e.e2eErrors == Mismatching(s.frames)
    ensures var e := Exact(s);
            e.rxBytes < 0x1_0000_0000_0000_0000 ==>
              s.stats.rxPackets == e.rxPackets && s.stats.rxBytes == e.rxBytes &&
              s.stats.e2eErrors == e.e2eErrors && s.stats.parseErrors == e.parseErrors
    ensures s.point.AtHead? ==>
              s.stats.rxPackets == Bump(s.stats.parseErrors, Ignorable(s.frames) + Deliverable(s.frames))
  {
    hide *;
    RxStarts();
    RxRunKeepsInvariant(RX_INITIAL, steps, s);
    StatsOfInvariant(s);
    ExactBounds(s);
    var e := Exact(s);
    FromZero(e);
    if s.point.AtHead? {
      BumpTwice(0, e.parseErrors, Ignorable(s.frames) + Deliverable(s.frames));
    }
  }

  lemma RxStarts()
    ensures RxInvariant(RX_INITIAL)
  {
  }

  lemma StatsOfInvariant(s: RxState)
    requires RxInvariant(s)
    ensures s.stats == Plus(ZERO, Exact(s))
  {
    hide Plus, Exact;
  }

  lemma FromZero(c: Counts)
    ensures var s := Plus(ZERO, c);
            s.rxPackets == Bump(0, c.rxPackets) && s.parseErrors == Bump(0, c.parseErrors) &&
            (c.rxBytes < 0x1_0000_0000_0000_0000 && c.rxPackets <= c.rxBytes && c.e2eErrors <= c.rxBytes &&
             c.parseErrors <= c.rxBytes ==>
               s.rxPackets == c.rxPackets && s.rxBytes == c.rxBytes &&
               s.e2eErrors == c.e2eErrors && s.parseErrors == c.parseErrors)
  {
  }

  lemma ExactBounds(s: RxState)
    requires RxInvariant(s)
    ensures var e := Exact(s);
            && e.rxPackets == |s.frames| && e.rxPackets <= e.rxBytes == ByteCount(s.frames) <= 1024 * e.rxPackets
            && e.parseErrors <= e.rxPackets && e.e2eErrors <= e.rxPackets && e.e2eErrors <= e.parseErrors + 1
            && (e.e2eErrors > e.parseErrors ==> s.point.Failed?)
    ensures s.point.AtHead? ==>
              var e := Exact(s);
              e == Tally(s.frames) && e.rxPackets == e.parseErrors + Ignorable(s.frames) + Deliverable(s.frames) &&
              e.e2eErrors == Mismatching(s.frames)
  {
    hide Classify, Plus;
    if s.point.AtHead? {
      TallyBounds(s.frames);
    } else {
      TallyBounds(s.frames[..|s.frames| - 1]);
    }
  }
}
