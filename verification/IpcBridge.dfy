/**
 The IPC bridge: a timed connection protocol over a monotone nanosecond clock,
 coupled to the service registry and to the network it holds.
 */
module IpcBridge {
  import opened Bytes
  import opened Common
  import opened Crc
  import BigEndian
  import SD = ServiceDiscovery
  import NM = NetworkManagement
  import PHM = HealthManagement

  datatype Connection = Offline | Handshake | Normal | Error | Reset

  const SOC_RESET_N := 0
  const SOC_PWR_EN := 1
  const SOC_READY := 2

  const HANDSHAKE_TIMEOUT_MS := 2000
  const HEARTBEAT_INTERVAL_MS := 100
  const HEARTBEAT_TIMEOUT_MS := 500

  const MS := 1_000_000  // nanoseconds

  const ENTITY := "IPCBridgeService"

  /** Conversion of a duration to whole milliseconds, towards zero. */
  function Milliseconds(ns: int): int {
    if ns >= 0 then ns / MS else -((-ns) / MS)
  }

  datatype SpiFrame = SpiFrame(sof: byte, frameCtrl: byte, length: u16, payload: seq<byte>, crc16: bv16)

  function Covered(f: SpiFrame): seq<byte> {
    [f.sof, f.frameCtrl] + BigEndian.Encode(f.length, 2) + f.payload
  }

  datatype Edge = Edge(from: Connection, to: Connection)

  datatype GpioChange = GpioChange(signal: nat, level: bool)

  /** The connection, with the state callbacks and the GPIO callbacks made. */
  datatype Bridge = Bridge(
    state: Connection, gpio: seq<bool>, handshakeStart: int, lastHeartbeat: int,
    spiTx: seq<SpiFrame>, log: seq<Edge>, gpioLog: seq<GpioChange>)

  /** The clock readings of one turn of the loop: the first, and the second if the turn takes one. */
  datatype Tick = Tick(now: int, later: int)

  function Transitioned(b: Bridge, to: Connection): Bridge {
    if b.state == to then b else b.(state := to, log := b.log + [Edge(b.state, to)])
  }

  /** A signal number out of range changes nothing and makes no callback. */
  function AfterGpio(b: Bridge, signal: nat, level: bool): Bridge
    requires |b.gpio| == 8
  {
    if signal >= 8 then b
    else b.(gpio := b.gpio[signal := level], gpioLog := b.gpioLog + [GpioChange(signal, level)])
  }

  predicate HandshakeSucceeds(b: Bridge, now: int)
    requires |b.gpio| == 8
  {
    100 < Milliseconds(now - b.handshakeStart) <= HANDSHAKE_TIMEOUT_MS && b.gpio[SOC_READY]
  }

  function AfterTick(b: Bridge, t: Tick): Bridge
    requires |b.gpio| == 8
  {
    match b.state
    case Handshake =>
      if Milliseconds(t.now - b.handshakeStart) > HANDSHAKE_TIMEOUT_MS then Transitioned(b, Error)
      else if HandshakeSucceeds(b, t.now) then Transitioned(b, Normal).(lastHeartbeat := t.later)
      else b
    case Normal =>
      var elapsed := Milliseconds(t.now - b.lastHeartbeat);
      if elapsed > HEARTBEAT_TIMEOUT_MS then Transitioned(b, Error)
      else b.(lastHeartbeat := if elapsed > HEARTBEAT_INTERVAL_MS then t.later else b.lastHeartbeat, spiTx := [])
    case Error =>
      var low := AfterGpio(Transitioned(b, Reset), SOC_RESET_N, false);
      Transitioned(AfterGpio(low, SOC_RESET_N, true), Handshake).(handshakeStart := t.now)
    case _ => b
  }

  function AfterTicks(b: Bridge, ticks: seq<Tick>): (r: Bridge)
    requires |b.gpio| == 8
    ensures |r.gpio| == 8
    decreases |ticks|
  {
    if ticks == [] then b else AfterTicks(AfterTick(b, ticks[0]), ticks[1..])
  }

  function OfferEach(sd: SD.State, services: seq<SD.Descriptor>): SD.State {
    if services == [] then sd
    else SD.Apply(OfferEach(sd, services[..|services| - 1]), SD.Offer(services[|services| - 1]))
  }

  function StopEach(sd: SD.State, services: seq<SD.Descriptor>): SD.State {
    if services == [] then sd
    else SD.Apply(StopEach(sd, services[..|services| - 1]), SD.StopOffer(services[|services| - 1].serviceId))
  }

  /** The registry after a tick: entering Normal offers the catalog, and nothing else touches it. */
  function RegistryAfterTick(b: Bridge, sd: SD.State, t: Tick): SD.State
    requires |b.gpio| == 8
  {
    if b.state == Handshake && HandshakeSucceeds(b, t.now) then OfferEach(sd, SD.CATALOG) else sd
  }

  function RegistryAfterTicks(b: Bridge, sd: SD.State, ticks: seq<Tick>): SD.State
    requires |b.gpio| == 8
    decreases |ticks|
  {
    if ticks == [] then sd
    else RegistryAfterTicks(AfterTick(b, ticks[0]), RegistryAfterTick(b, sd, ticks[0]), ticks[1..])
  }

  function AfterInit(b: Bridge, now: int): Bridge
    requires |b.gpio| == 8
  {
    Transitioned(b.(gpio := b.gpio[SOC_READY := true][SOC_PWR_EN := true]), Handshake).(handshakeStart := now)
  }

  /** The new handle is made before the old one, if any, goes. */
  function NetworkAfterInit(nm: NM.Nm, held: bool): NM.Nm {
    var requested := NM.Requested(NM.Initialized(nm), NM.ETH_IPC).0;
    if held then NM.Released(requested, NM.ETH_IPC).0 else requested
  }

  function AfterSend(b: Bridge, f: SpiFrame): Bridge {
    b.(spiTx := b.spiTx + [f.(crc16 := Crc16(Covered(f)))])
  }

  // ---------------------------------------------------------- implementation

  class IPCBridgeServiceSWC {
    const sd: SD.SomeIpServiceDiscovery
    const nm: NM.Manager
    const phm: PHM.PlatformHealthManagement
    const gpioState: array<bool>
    var connectionState: Connection
    var handshakeStartTime: int
    var lastHeartbeatTime: int
    var spiTxQueue: seq<SpiFrame>
    var networkHandle: NM.NetworkHandle?
    var running: bool
    var log: seq<Edge>  // the state callbacks made
    var gpioLog: seq<GpioChange>  // the GPIO callbacks made

    ghost predicate Valid()
      reads this, networkHandle
    {
      gpioState.Length == 8 &&
      (networkHandle != null ==> networkHandle.networkId == NM.ETH_IPC && networkHandle.valid)
    }

    ghost function Abstract(): Bridge
      reads this, gpioState
    {
      Bridge(connectionState, gpioState[..], handshakeStartTime, lastHeartbeatTime, spiTxQueue, log, gpioLog)
    }

    constructor (
      sd: SD.SomeIpServiceDiscovery, nm: NM.Manager, phm: PHM.PlatformHealthManagement, now: int)
      ensures Valid() && fresh(gpioState) && this.sd == sd && this.nm == nm && this.phm == phm
      ensures networkHandle == null && !running
      ensures Abstract() == Bridge(Offline, seq(8, i => false), now, now, [], [], [])
    {
      this.sd, this.nm, this.phm := sd, nm, phm;
      gpioState := new bool[8](i => false);
      connectionState, handshakeStartTime, lastHeartbeatTime := Offline, now, now;
      spiTxQueue, networkHandle, running, log, gpioLog := [], null, false, [], [];
    }

    method TransitionState(newState: Connection)
      modifies this`connectionState, this`log
      ensures Abstract() == Transitioned(old(Abstract()), newState)
    {
      var previous := connectionState;
      connectionState := newState;
      if previous != newState {
        log := log + [Edge(previous, newState)];
      }
    }

    method Init(now: int) returns (ok: bool)
      requires Valid()
      modifies this, gpioState, nm, networkHandle, phm
      ensures ok && running == old(running) && Valid() && networkHandle != null && fresh(networkHandle)
      ensures Abstract() == AfterInit(old(Abstract()), now)
      ensures nm.Abstract() == NetworkAfterInit(old(nm.Abstract()), old(networkHandle) != null)
      ensures phm.entities ==
              if ENTITY in old(phm.entities) then old(phm.entities) else old(phm.entities)[ENTITY := PHM.Ok]
    {
      nm.Initialize();
      var handle := new NM.NetworkHandle(nm, NM.ETH_IPC);
      if networkHandle != null {
        networkHandle.Destroy(nm);
      }
      networkHandle := handle;
      if !networkHandle.valid {
        return false;
      }
      var added := phm.RegisterEntity(ENTITY);
      gpioState[SOC_READY] := true;
      gpioState[SOC_PWR_EN] := true;
      TransitionState(Handshake);
      handshakeStartTime := now;
      ok := true;
    }

    method OfferIpcServices()
      modifies sd
      ensures sd.Abstract() == OfferEach(old(sd.Abstract()), SD.CATALOG)
    {
      for n := 0 to |SD.CATALOG|
        invariant sd.Abstract() == OfferEach(old(sd.Abstract()), SD.CATALOG[..n])
      {
        assert SD.CATALOG[..n + 1][..n] == SD.CATALOG[..n];
        sd.OfferService(SD.CATALOG[n]);
      }
      assert SD.CATALOG[..|SD.CATALOG|] == SD.CATALOG;
    }

    method StopIpcServices()
      modifies sd
      ensures sd.Abstract() == StopEach(old(sd.Abstract()), SD.CATALOG)
    {
      for n := 0 to |SD.CATALOG|
        invariant sd.Abstract() == StopEach(old(sd.Abstract()), SD.CATALOG[..n])
      {
        assert SD.CATALOG[..n + 1][..n] == SD.CATALOG[..n];
        sd.StopOfferService(SD.CATALOG[n].serviceId);
      }
      assert SD.CATALOG[..|SD.CATALOG|] == SD.CATALOG;
    }

    method SetGpioSignal(signal: nat, level: bool)
      requires gpioState.Length == 8
      modifies gpioState, this`gpioLog
      ensures Abstract() == AfterGpio(old(Abstract()), signal, level)
    {
      if signal >= 8 {
        return;
      }
      gpioState[signal] := level;
      gpioLog := gpioLog + [GpioChange(signal, level)];
    }

    method HandleHandshake(t: Tick)
      requires Valid() && connectionState == Handshake
      modifies this`connectionState, this`log, this`lastHeartbeatTime, sd
      ensures Abstract() == AfterTick(old(Abstract()), t)
      ensures sd.Abstract() == RegistryAfterTick(old(Abstract()), old(sd.Abstract()), t)
    {
      var elapsed := Milliseconds(t.now - handshakeStartTime);
      if elapsed > HANDSHAKE_TIMEOUT_MS {
        TransitionState(Error);
        return;
      }
      if elapsed > 100 && gpioState[SOC_READY] {
        TransitionState(Normal);
        OfferIpcServices();
        lastHeartbeatTime := t.later;
      }
    }

    method HandleNormalOperation(t: Tick)
      requires Valid() && connectionState == Normal
      modifies this`connectionState, this`log, this`lastHeartbeatTime, this`spiTxQueue
      ensures Abstract() == AfterTick(old(Abstract()), t)
    {
      var elapsed := Milliseconds(t.now - lastHeartbeatTime);
      if elapsed > HEARTBEAT_TIMEOUT_MS {
        TransitionState(Error);
        return;
      }
      if elapsed > HEARTBEAT_INTERVAL_MS {
        lastHeartbeatTime := t.later;
      }
      ghost var drained := Abstract().(spiTx := []);
      while spiTxQueue != []
        invariant Abstract().(spiTx := []) == drained
        decreases |spiTxQueue|
      {
        spiTxQueue := spiTxQueue[1..];
      }
    }

    /** The one reading of this turn is taken after the reset pulse. */
    method HandleError(t: Tick)
      requires Valid() && connectionState == Error
      modifies this`connectionState, this`log, this`gpioLog, this`handshakeStartTime, gpioState
      ensures Abstract() == AfterTick(old(Abstract()), t)
    {
      TransitionState(Reset);
      SetGpioSignal(SOC_RESET_N, false);
      SetGpioSignal(SOC_RESET_N, true);
      TransitionState(Handshake);
      handshakeStartTime := t.now;
    }

    /** One turn of the loop of Run. */
    method Turn(t: Tick)
      requires Valid()
      modifies this, gpioState, sd, phm
      ensures Valid() && networkHandle == old(networkHandle) && running == old(running)
      ensures Abstract() == AfterTick(old(Abstract()), t)
      ensures sd.Abstract() == RegistryAfterTick(old(Abstract()), old(sd.Abstract()), t)
      ensures phm.entities == PHM.Reported(old(phm.entities), ENTITY)
    {
      phm.ReportCheckpoint(ENTITY, 0x01);
      match connectionState
      case Handshake => HandleHandshake(t);
      case Normal => HandleNormalOperation(t);
      case Error => HandleError(t);
      case _ =>
    }

    /** Run up to the check of the flag that follows the given turns; only another thread's Shutdown clears the flag. */
    method Run(ticks: seq<Tick>)
      requires Valid()
      modifies this, gpioState, sd, phm
      ensures Valid() && networkHandle == old(networkHandle) && running
      ensures Abstract() == AfterTicks(old(Abstract()), ticks)
      ensures sd.Abstract() == RegistryAfterTicks(old(Abstract()), old(sd.Abstract()), ticks)
      ensures phm.entities == if ticks == [] then old(phm.entities) else PHM.Reported(old(phm.entities), ENTITY)
    {
      hide AfterTick, RegistryAfterTick;
      running := true;
      assert ticks[0..] == ticks;
      for n := 0 to |ticks|
        invariant Valid() && networkHandle == old(networkHandle) && running
        invariant AfterTicks(Abstract(), ticks[n..]) == AfterTicks(old(Abstract()), ticks)
        invariant RegistryAfterTicks(Abstract(), sd.Abstract(), ticks[n..]) ==
                  RegistryAfterTicks(old(Abstract()), old(sd.Abstract()), ticks)
        invariant phm.entities == if n == 0 then old(phm.entities) else PHM.Reported(old(phm.entities), ENTITY)
      {
        assert ticks[n..][1..] == ticks[n + 1..];
        Turn(ticks[n]);
      }
    }

    method Shutdown()
      requires Valid()
      modifies this`running, this`networkHandle, networkHandle, sd, nm
      ensures !running && networkHandle == null && Abstract() == old(Abstract())
      ensures sd.Abstract() == StopEach(old(sd.Abstract()), SD.CATALOG)
      ensures nm.Abstract() ==
              if old(networkHandle) == null then old(nm.Abstract())
              else NM.Released(old(nm.Abstract()), NM.ETH_IPC).0
    {
      running := false;
      StopIpcServices();
      if networkHandle != null {
        networkHandle.Destroy(nm);
      }
      networkHandle := null;
    }

    method SendSpiFrame(frame: SpiFrame) returns (sent: SpiFrame)
      modifies this`spiTxQueue
      ensures Abstract() == AfterSend(old(Abstract()), frame)
      ensures sent == frame.(crc16 := Crc16(Covered(frame)))
    {
      hide ToByte, BigEndian.Encode;
      var dataForCrc := [frame.sof];
      dataForCrc := dataForCrc + [frame.frameCtrl];
      dataForCrc := dataForCrc + [ToByte(frame.length / 0x100)];
      dataForCrc := dataForCrc + [ToByte(frame.length)];
      dataForCrc := dataForCrc + frame.payload;
      BigEndian.TwoBytes(frame.length, 0);
      assert dataForCrc == Covered(frame);
      var crc := ComputeCRC16(dataForCrc);
      sent := frame.(crc16 := crc);
      spiTxQueue := spiTxQueue + [sent];
    }
  }

  // ---------------------------------------------------------------- heartbeat

  /** The turn refreshes the heartbeat and so reads the clock a second time. */
  predicate ReadsAgain(b: Bridge, t: Tick) {
    HEARTBEAT_INTERVAL_MS < Milliseconds(t.now - b.lastHeartbeat) <= HEARTBEAT_TIMEOUT_MS
  }

  /**
   Consecutive clock readings of turns in Normal never go back and are at most
   gap apart; last is the reading before.
   */
  predicate SpacedInNormal(b: Bridge, last: int, ticks: seq<Tick>, gap: nat)
    requires |b.gpio| == 8
    decreases |ticks|
  {
    ticks == [] ||
    (var t := ticks[0];
     last <= t.now <= last + gap && (ReadsAgain(b, t) ==> t.now <= t.later <= t.now + gap) &&
     SpacedInNormal(AfterTick(b, t), if ReadsAgain(b, t) then t.later else t.now, ticks[1..], gap))
  }

  /** A bridge in Normal; at the entry its heartbeat is the last clock reading. */
  predicate IsNormal(b: Bridge) {
    |b.gpio| == 8 && b.state == Normal
  }

  lemma {:induction false} StaysNormal(b: Bridge, last: int, ticks: seq<Tick>, gap: nat)
    requires IsNormal(b) && gap <= 400 * MS && SpacedInNormal(b, last, ticks, gap)
    requires 0 <= last - b.lastHeartbeat < 101 * MS
    ensures AfterTicks(b, ticks).state == Normal
    decreases |ticks|
  {
    if ticks != [] {
      var t := ticks[0];
      StaysNormal(AfterTick(b, t), if ReadsAgain(b, t) then t.later else t.now, ticks[1..], gap);
    }
  }

  ghost predicate NeverLosesHeartbeat(gap: nat) {
    forall b, ticks :: IsNormal(b) && SpacedInNormal(b, b.lastHeartbeat, ticks, gap) ==>
      AfterTicks(b, ticks).state == Normal
  }

  /** A connection with nothing in it but its state and times. */
  function Plain(state: Connection, start: int, heartbeat: int): Bridge {
    Bridge(state, seq(8, i => true), start, heartbeat, [], [], [])
  }

  lemma LateByOne(gap: nat)
    requires gap > 400 * MS
    ensures !NeverLosesHeartbeat(gap)
  {
    var b := Plain(Normal, 0, 0);
    var t0, t1 := Tick(101 * MS - 1, 0), Tick(501 * MS, 0);
    assert AfterTick(b, t0) == b;
    assert AfterTick(b, t1).state == Error;
    assert [t0, t1][1..] == [t1] && [t1][1..] == [];
    assert SpacedInNormal(b, 101 * MS - 1, [t1], gap);
    assert SpacedInNormal(b, 0, [t0, t1], gap);
    assert AfterTicks(b, [t0, t1]) == AfterTicks(b, [t1]) == AfterTick(b, t1);
  }

  /**
   No false heartbeat error, over every run in Normal, exactly when readings
   are at most 400 ms apart, to the nanosecond.
   */
  lemma HeartbeatBoundIsExact(gap: nat)
    ensures NeverLosesHeartbeat(gap) <==> gap <= 400 * MS
  {
    if gap <= 400 * MS {
      forall b, ticks | IsNormal(b) && SpacedInNormal(b, b.lastHeartbeat, ticks, gap)
        ensures AfterTicks(b, ticks).state == Normal
      {
        StaysNormal(b, b.lastHeartbeat, ticks, gap);
      }
    } else {
      LateByOne(gap);
    }
  }

  /** The same from the turn that enters Normal, by the readings of the clock alone. */
  ghost predicate NeverLosesHeartbeatFromEntry(gap: nat) {
    forall b: Bridge, t: Tick, ticks: seq<Tick> ::
      |b.gpio| == 8 && b.state == Handshake && AfterTick(b, t).state == Normal &&
      SpacedInNormal(AfterTick(b, t), t.later, ticks, gap) ==>
        AfterTicks(AfterTick(b, t), ticks).state == Normal
  }

  lemma EntryBoundIsExact(gap: nat)
    ensures NeverLosesHeartbeatFromEntry(gap) <==> gap <= 400 * MS
  {
    if gap <= 400 * MS {
      forall b: Bridge, t: Tick, ticks: seq<Tick> |
        |b.gpio| == 8 && b.state == Handshake && AfterTick(b, t).state == Normal &&
        SpacedInNormal(AfterTick(b, t), t.later, ticks, gap)
        ensures AfterTicks(AfterTick(b, t), ticks).state == Normal
      {
        StaysNormal(AfterTick(b, t), t.later, ticks, gap);
      }
    } else {
      var b, t := Plain(Handshake, 0, 0), Tick(101 * MS, 101 * MS);
      var c := AfterTick(b, t);
      var t0, t1 := Tick(202 * MS - 1, 0), Tick(602 * MS, 0);
      assert c.state == Normal && c.lastHeartbeat == 101 * MS;
      assert AfterTick(c, t0) == c && AfterTick(c, t1).state == Error;
      assert [t0, t1][1..] == [t1] && [t1][1..] == [];
      assert SpacedInNormal(c, 202 * MS - 1, [t1], gap);
      assert SpacedInNormal(c, 101 * MS, [t0, t1], gap);
      assert AfterTicks(c, [t0, t1]) == AfterTicks(c, [t1]) == AfterTick(c, t1);
    }
  }

  // ----------------------------------------------------------------- recovery

  /** What a turn does by the nanoseconds passed: 101, 501 and 2001 ms are where it changes. */
  lemma TurnsByNanoseconds(b: Bridge, t: Tick)
    requires |b.gpio| == 8 && t.now >= b.handshakeStart && t.now >= b.lastHeartbeat
    ensures var c := AfterTick(b, t);
            var waited, silent := t.now - b.handshakeStart, t.now - b.lastHeartbeat;
            && (b.state == Handshake ==>
                 c.state == if waited >= 2_001_000_000 then Error
                            else if waited >= 101_000_000 && b.gpio[2] then Normal else Handshake)
            && (b.state == Normal ==>
                 && c.state == (if silent >= 501_000_000 then Error else Normal)
                 && c.lastHeartbeat == if 101_000_000 <= silent < 501_000_000 then t.later else b.lastHeartbeat)
            && (b.state == Error ==> c.state == Handshake && c.handshakeStart == t.now)
            && (b.state == Offline || b.state == Reset ==> c == b)
  {
  }

  /** While SOC_READY is low, no turn reaches Normal. */
  lemma {:induction false} NotReadyNeverNormal(b: Bridge, ticks: seq<Tick>)
    requires |b.gpio| == 8 && !b.gpio[2] && b.state != Normal
    ensures AfterTicks(b, ticks).state != Normal
    decreases |ticks|
  {
    if ticks != [] {
      NotReadyNeverNormal(AfterTick(b, ticks[0]), ticks[1..]);
    }
  }

  /** A turn in Normal without a time-out leaves nothing in the SPI queue; every other turn leaves the queue alone. */
  lemma OnlyNormalTurnsDrain(b: Bridge, t: Tick)
    requires |b.gpio| == 8
    ensures var c := AfterTick(b, t);
            if b.state == Normal && c.state == Normal then c.spiTx == [] else c.spiTx == b.spiTx
  {
  }

  /** First readings of consecutive turns are at least 1 ms and at most gap apart; last is the reading before. */
  predicate Spaced(last: int, ticks: seq<Tick>, gap: nat)
    decreases |ticks|
  {
    ticks == [] || (last + MS <= ticks[0].now <= last + gap && Spaced(ticks[0].now, ticks[1..], gap))
  }

  /** A bridge in Handshake with SOC_READY high; at the entry its start time is the last clock reading. */
  predicate IsHandshake(b: Bridge) {
    |b.gpio| == 8 && b.state == Handshake && b.gpio[SOC_READY]
  }

  /** The k-th turn reaches Normal, and every earlier one leaves the bridge in Handshake. */
  predicate ReachesNormalAt(b: Bridge, ticks: seq<Tick>, k: nat)
    requires |b.gpio| == 8
    decreases k
  {
    if k == 0 then b.state == Normal
    else b.state == Handshake && ticks != [] && ReachesNormalAt(AfterTick(b, ticks[0]), ticks[1..], k - 1)
  }

  lemma {:induction false} HandshakeCompletes(b: Bridge, last: int, ticks: seq<Tick>, gap: nat, waited: nat)
    returns (k: nat)
    requires IsHandshake(b) && gap <= 1900 * MS && Spaced(last, ticks, gap)
    requires waited * MS <= last - b.handshakeStart < 101 * MS && waited + |ticks| >= 101
    ensures ReachesNormalAt(b, ticks, k) && 1 <= k <= 101 - waited
    decreases |ticks|
  {
    var t := ticks[0];
    var elapsed := t.now - b.handshakeStart;
    assert elapsed >= (waited + 1) * MS;
    if elapsed >= 101 * MS {
      k := 1;
      assert ReachesNormalAt(AfterTick(b, t), ticks[1..], 0);
    } else {
      assert AfterTick(b, t) == b;
      k := HandshakeCompletes(b, t.now, ticks[1..], gap, waited + 1);
      k := k + 1;
    }
  }

  ghost predicate HandshakeAlwaysCompletes(gap: nat) {
    forall b, ticks :: IsHandshake(b) && Spaced(b.handshakeStart, ticks, gap) && |ticks| >= 101 ==>
      exists k :: 1 <= k <= 101 && ReachesNormalAt(b, ticks, k)
  }

  lemma {:induction false} SpacedByMs(last: int, n: nat, gap: nat) returns (ticks: seq<Tick>)
    requires gap >= MS
    ensures |ticks| == n && Spaced(last, ticks, gap)
    ensures forall i | 0 <= i < n :: ticks[i].now == last + (i + 1) * MS
    decreases n
  {
    if n == 0 {
      ticks := [];
    } else {
      var rest := SpacedByMs(last + MS, n - 1, gap);
      ticks := [Tick(last + MS, 0)] + rest;
      assert ticks[1..] == rest;
    }
  }

  /** One turn just too early, the next a nanosecond too late. */
  lemma HandshakeTimesOut(gap: nat)
    requires gap > 1900 * MS
    ensures !HandshakeAlwaysCompletes(gap)
  {
    var b := Plain(Handshake, 0, 0);
    var t0, t1 := Tick(101 * MS - 1, 0), Tick(2001 * MS, 0);
    var rest := SpacedByMs(t1.now, 99, gap);
    var ticks := [t0, t1] + rest;
    assert ticks[1..] == [t1] + rest && ([t1] + rest)[1..] == rest;
    assert Spaced(t0.now, [t1] + rest, gap);
    assert Spaced(0, ticks, gap);
    assert AfterTick(b, t0) == b && AfterTick(b, t1).state == Error;
    forall k | 1 <= k <= 101
      ensures !ReachesNormalAt(b, ticks, k)
    {
      if k >= 2 {
        assert !ReachesNormalAt(AfterTick(b, t1), rest, k - 2);
        assert !ReachesNormalAt(b, [t1] + rest, k - 1);
      } else {
        assert !ReachesNormalAt(b, ticks[1..], 0);
      }
    }
  }

  /**
   With turns at least 1 ms apart, a handshake completes within 101 turns and
   without an error exactly when they are at most 1900 ms apart.
   */
  lemma HandshakeBoundIsExact(gap: nat)
    requires gap >= MS
    ensures HandshakeAlwaysCompletes(gap) <==> gap <= 1900 * MS
  {
    if gap <= 1900 * MS {
      forall b, ticks | IsHandshake(b) && Spaced(b.handshakeStart, ticks, gap) && |ticks| >= 101
        ensures exists k :: 1 <= k <= 101 && ReachesNormalAt(b, ticks, k)
      {
        var k := HandshakeCompletes(b, b.handshakeStart, ticks, gap, 0);
      }
    } else {
      HandshakeTimesOut(gap);
    }
  }

  /** 101 turns are needed: at 1 ms apart, the first 100 leave the bridge in Handshake. */
  lemma HundredTurnsMayNotDo(b: Bridge) returns (ticks: seq<Tick>)
    requires IsHandshake(b)
    ensures |ticks| == 100 && Spaced(b.handshakeStart, ticks, MS) && AfterTicks(b, ticks) == b
  {
    ticks := SpacedByMs(b.handshakeStart, 100, MS);
    WaitsBelowThreshold(b, ticks);
  }

  /** Init enters a handshake that the next 101 turns complete, counted from the reading Init takes. */
  lemma InitReachesNormal(b: Bridge, now: int, ticks: seq<Tick>, gap: nat) returns (k: nat)
    requires |b.gpio| == 8 && gap <= 1900 * MS && Spaced(now, ticks, gap) && |ticks| >= 101
    ensures IsHandshake(AfterInit(b, now)) && ReachesNormalAt(AfterInit(b, now), ticks, k) && 1 <= k <= 101
  {
    k := HandshakeCompletes(AfterInit(b, now), now, ticks, gap, 0);
  }

  lemma {:induction false} WaitsBelowThreshold(b: Bridge, ticks: seq<Tick>)
    requires IsHandshake(b)
    requires forall i | 0 <= i < |ticks| :: 0 <= ticks[i].now - b.handshakeStart < 101 * MS
    ensures AfterTicks(b, ticks) == b
    decreases |ticks|
  {
    if ticks != [] {
      assert AfterTick(b, ticks[0]) == b;
      WaitsBelowThreshold(b, ticks[1..]);
    }
  }

  /** From Error, the first turn resets into Handshake and at most 101 more reach Normal. */
  lemma ErrorRecovers(b: Bridge, t: Tick, ticks: seq<Tick>, gap: nat) returns (k: nat)
    requires |b.gpio| == 8 && b.state == Error && b.gpio[SOC_READY]
    requires gap <= 1900 * MS && Spaced(t.now, ticks, gap) && |ticks| >= 101
    ensures IsHandshake(AfterTick(b, t)) && ReachesNormalAt(AfterTick(b, t), ticks, k) && 1 + k <= 102
  {
    var c := AfterTick(b, t);
    k := HandshakeCompletes(c, c.handshakeStart, ticks, gap, 0);
  }

}
