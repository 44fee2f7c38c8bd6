/**
 The threads around the IPC bridge: the loop of Run, the owner's Init and
 Shutdown, senders, GPIO writers, and the other users of the registry and of
 the networks. A step has at most one access to what another thread changes: one
 call of the registry, of the network manager or of the SPI queue under its
 lock, one store of a flag or of GPIO lines.
 */
module BridgeThreads {
  import opened Bytes
  import opened Common
  import opened Crc
  import BigEndian
  import opened IpcBridge
  import SD = ServiceDiscovery
  import NM = NetworkManagement

  const SERVICES: nat := |SD.CATALOG|

  /** Where the loop is: in a turn, its reset pulse or its offers, or between two turns; n offers are made. */
  datatype Loop = Idle | AtHead | InTurn | Resetting | Offering(n: nat, later: int)

  /**
   The owner's side: closed, open, in Init with the networks initialised, with
   the new handle beside the old one or with the old one gone, or in Shutdown
   with n services stopped.
   */
  datatype Owner = Closed | Open | Starting | Replacing(earlier: Option<nat>) | Ready | Stopping(n: nat)

  predicate InInit(owner: Owner) {
    owner.Starting? || owner.Replacing? || owner.Ready?
  }

  /** One catalog service was offered, or its withdrawal was asked for. */
  datatype Event = Event(service: nat, offer: bool)

  /**
   Besides the bridge, the registry and the networks: how often it was
   initialised, whether the loop finished its offers since it was last opened,
   what was done about the catalog, and which handle is its own.
   */
  datatype World = World(
    inits: nat, owner: Owner, loop: Loop, running: bool, served: bool, bridge: Bridge,
    sd: SD.State, events: seq<Event>, net: NM.World, own: Option<nat>)

  datatype Step =
    | BeginInit
    | TakeHandle
    | DropOld
    | EndInit(now: int)
    | StartRun
    | CheckRunning
    | Act(tick: Tick)
    | EndPulse(now: int)
    | OfferNext
    | FinishOffer
    | BeginShutdown
    | StopNext
    | Release
    | SendSpi(frame: SpiFrame)
    | SetGpio(signal: nat, level: bool)
    | RegistryUse(registryOp: SD.Operation)
    | NetworkUse(networkOp: NM.Operation)

  predicate InCatalog(id: u16) {
    exists i :: 0 <= i < SERVICES && SD.CATALOG[i].serviceId == id
  }

  /**
   One thread runs the loop; one owner initialises, which would race with the
   loop for the start time, and shuts down, which may fall anywhere into it.
   Others leave the catalog and the bridge's handles alone.
   */
  predicate Enabled(w: World, step: Step) {
    match step
    case BeginInit => w.loop.Idle? && (w.owner.Closed? || w.owner.Open?)
    case TakeHandle => w.owner.Starting?
    case DropOld => w.owner.Replacing?
    case EndInit(_) => w.owner.Ready?
    case StartRun => w.loop.Idle? && !InInit(w.owner)
    case CheckRunning => w.loop.AtHead?
    case Act(_) => w.loop.InTurn?
    case EndPulse(_) => w.loop.Resetting?
    case OfferNext => w.loop.Offering? && w.loop.n < SERVICES
    case FinishOffer => w.loop.Offering? && w.loop.n == SERVICES
    case BeginShutdown => w.owner.Closed? || w.owner.Open?
    case StopNext => w.owner.Stopping? && w.owner.n < SERVICES
    case Release => w.owner == Stopping(SERVICES)
    case RegistryUse(Offer(svc)) => !InCatalog(svc.serviceId)
    case RegistryUse(StopOffer(id)) => !InCatalog(id)
    case NetworkUse(MoveFrom(i)) => w.own != Some(i) && w.owner != Replacing(Some(i))
    case NetworkUse(Destroy(i)) => w.own != Some(i) && w.owner != Replacing(Some(i))
    case _ => true
  }

  /**
   The first part of a turn: all of it, except what follows the low edge of a
   reset pulse or the entry into Normal.
   */
  function Acted(b: Bridge, t: Tick): (r: Bridge)
    requires |b.gpio| == 8
    ensures |r.gpio| == 8
  {
    if b.state == Error then AfterGpio(Transitioned(b, Reset), SOC_RESET_N, false)
    else if b.state == Handshake && HandshakeSucceeds(b, t.now) then Transitioned(b, Normal)
    else AfterTick(b, t)
  }

  function LoopAfterAct(b: Bridge, t: Tick): Loop
    requires |b.gpio| == 8
  {
    if b.state == Error then Resetting
    else if b.state == Handshake && HandshakeSucceeds(b, t.now) then Offering(0, t.later)
    else AtHead
  }

  function Pulsed(b: Bridge, now: int): (r: Bridge)
    requires |b.gpio| == 8
    ensures |r.gpio| == 8
  {
    Transitioned(AfterGpio(b, SOC_RESET_N, true), Handshake).(handshakeStart := now)
  }

  function NetworkSteps(w: World, step: Step): seq<NM.Operation> {
    match step
    case BeginInit => [NM.Initialize]
    case TakeHandle => [NM.Create(NM.ETH_IPC)]
    case DropOld => if w.owner.Replacing? && w.owner.earlier.Some? then [NM.Destroy(w.owner.earlier.value)] else []
    case Release => if w.own.Some? then [NM.Destroy(w.own.value)] else []
    case NetworkUse(op) => [op]
    case _ => []
  }

  function OwnAfter(w: World, step: Step): Option<nat> {
    if step.TakeHandle? then Some(|w.net.handles|) else if step.Release? then None else w.own
  }

  function BridgeAfter(b: Bridge, loop: Loop, step: Step): (r: Bridge)
    requires |b.gpio| == 8
    ensures |r.gpio| == 8
  {
    match step
    case EndInit(now) => AfterInit(b, now)
    case Act(t) => Acted(b, t)
    case EndPulse(now) => Pulsed(b, now)
    case FinishOffer => if loop.Offering? then b.(lastHeartbeat := loop.later) else b
    case SendSpi(f) => AfterSend(b, f)
    case SetGpio(i, level) => AfterGpio(b, i, level)
    case _ => b
  }

  function LoopAfter(w: World, step: Step): Loop
    requires |w.bridge.gpio| == 8
  {
    match step
    case StartRun => AtHead
    case CheckRunning => if w.running then InTurn else Idle
    case Act(t) => LoopAfterAct(w.bridge, t)
    case EndPulse(_) => AtHead
    case OfferNext => if w.loop.Offering? then w.loop.(n := w.loop.n + 1) else w.loop
    case FinishOffer => AtHead
    case _ => w.loop
  }

  function OwnerAfter(w: World, step: Step): Owner {
    match step
    case BeginInit => Starting
    case TakeHandle => Replacing(w.own)
    case DropOld => Ready
    case EndInit(_) => Open
    case BeginShutdown => Stopping(0)
    case StopNext => if w.owner.Stopping? then Stopping(w.owner.n + 1) else w.owner
    case Release => Closed
    case _ => w.owner
  }

  /** What a step does to the registry. */
  function RegistrySteps(w: World, step: Step): seq<SD.Operation> {
    match step
    case OfferNext => if w.loop.Offering? && w.loop.n < SERVICES then [SD.Offer(SD.CATALOG[w.loop.n])] else []
    case StopNext =>
      if w.owner.Stopping? && w.owner.n < SERVICES then [SD.StopOffer(SD.CATALOG[w.owner.n].serviceId)] else []
    case RegistryUse(op) => [op]
    case _ => []
  }

  function EventsAfter(w: World, step: Step): seq<Event> {
    match step
    case OfferNext => if w.loop.Offering? then w.events + [Event(w.loop.n, true)] else w.events
    case StopNext => if w.owner.Stopping? then w.events + [Event(w.owner.n, false)] else w.events
    case _ => w.events
  }

  function Apply(w: World, step: Step): (r: World)
    requires |w.bridge.gpio| == 8
    ensures |r.bridge.gpio| == 8
  {
    World(
      if step.EndInit? then w.inits + 1 else w.inits,
      OwnerAfter(w, step),
      LoopAfter(w, step),
      if step.StartRun? then true else if step.BeginShutdown? then false else w.running,
      if step.FinishOffer? then true else if step.BeginInit? && w.owner.Closed? then false else w.served,
      BridgeAfter(w.bridge, w.loop, step),
      SD.Run(w.sd, RegistrySteps(w, step)),
      EventsAfter(w, step),
      NM.Run(w.net, NetworkSteps(w, step)),
      OwnAfter(w, step))
  }

  ghost predicate IsRun(w: World, steps: seq<Step>)
    requires |w.bridge.gpio| == 8
    decreases |steps|
  {
    steps == [] || (Enabled(w, steps[0]) && IsRun(Apply(w, steps[0]), steps[1..]))
  }

  ghost function Run(w: World, steps: seq<Step>): (r: World)
    requires |w.bridge.gpio| == 8
    ensures |r.bridge.gpio| == 8
    decreases |steps|
  {
    if steps == [] then w else Run(Apply(w, steps[0]), steps[1..])
  }

  /** A bridge just made, whatever is registered and held already. */
  ghost predicate Created(w: World) {
    && w.inits == 0 && w.owner == Closed && w.loop == Idle && !w.running && !w.served && w.events == [] && w.own == None
    && w.bridge.state == Offline && |w.bridge.gpio| == 8 && w.bridge.spiTx == [] && w.bridge.log == []
  }

  // --------------------------------------------------------- connection path

  predicate AllowedEdge(e: Edge) {
    e == Edge(Offline, Handshake) || e == Edge(Handshake, Normal) || e == Edge(Handshake, Error) ||
    e == Edge(Normal, Error) || e == Edge(Error, Reset) || e == Edge(Reset, Handshake)
  }

  /** The edges that are none of the six. */
  ghost function Irregular(log: seq<Edge>): nat {
    if log == [] then 0
    else Irregular(log[..|log| - 1]) + if AllowedEdge(log[|log| - 1]) then 0 else 1
  }

  /** The callbacks form one path from Offline to the current state, each telling of a change. */
  ghost predicate IsPath(log: seq<Edge>, state: Connection) {
    && (forall i | 0 <= i < |log| :: log[i].from != log[i].to)
    && (forall i | 0 < i < |log| :: log[i].from == log[i - 1].to)
    && (if log == [] then state == Offline else log[0].from == Offline && log[|log| - 1].to == state)
  }

  /**
   Only a repeated Init takes an edge outside the six. Reset is seen exactly
   during the reset pulse. Normal, between two turns of an open bridge, means
   that its offers are done.
   */
  ghost predicate OnPath(w: World) {
    && |w.bridge.gpio| == 8
    && IsPath(w.bridge.log, w.bridge.state)
    && Irregular(w.bridge.log) <= (if w.inits == 0 then 0 else w.inits - 1)
    && (w.bridge.state == Offline <==> w.inits == 0)
    && (w.bridge.state == Reset <==> w.loop == Resetting)
    && (w.loop.Offering? ==> w.bridge.state == Normal)
    && (w.owner == Open && w.bridge.state == Normal && !w.loop.Offering? ==> w.served)
    && (InInit(w.owner) ==> w.loop == Idle)
    && (w.owner == Open || w.owner.Replacing? || w.owner.Ready? ==> w.own.Some?)
    && (w.owner == Open ==> w.inits > 0)
  }

  lemma TransitionedPath(b: Bridge, to: Connection)
    requires IsPath(b.log, b.state)
    ensures IsPath(Transitioned(b, to).log, to)
    ensures Irregular(Transitioned(b, to).log) ==
            Irregular(b.log) + if b.state == to || AllowedEdge(Edge(b.state, to)) then 0 else 1
  {
    hide IsPath, Irregular, AllowedEdge;
    if b.state != to {
      PathSnoc(b.log, Edge(b.state, to));
    }
  }

  lemma PathSnoc(log: seq<Edge>, e: Edge)
    requires IsPath(log, e.from) && e.from != e.to
    ensures IsPath(log + [e], e.to)
    ensures Irregular(log + [e]) == Irregular(log) + if AllowedEdge(e) then 0 else 1
  {
    hide AllowedEdge;
    var longer := log + [e];
    assert longer[..|log|] == log && longer[|log|] == e;
    assert forall i | 0 <= i < |log| :: longer[i] == log[i];
  }

  lemma TurnStepKeepsPath(w: World, step: Step)
    requires OnPath(w) && Enabled(w, step) && (step.Act? || step.EndPulse?)
    ensures OnPath(Apply(w, step))
  {
    hide IsPath, Irregular, NM.Run, SD.Run;
    TransitionedPath(w.bridge, Reset);
    TransitionedPath(w.bridge, Normal);
    TransitionedPath(w.bridge, Error);
    TransitionedPath(AfterGpio(w.bridge, SOC_RESET_N, true), Handshake);
  }

  lemma StepKeepsPath(w: World, step: Step)
    requires OnPath(w) && Enabled(w, step)
    ensures OnPath(Apply(w, step))
  {
    hide IsPath, Irregular, NM.Run, SD.Run, Crc16;
    if step.Act? || step.EndPulse? {
      TurnStepKeepsPath(w, step);
    } else if step.EndInit? {
      TransitionedPath(w.bridge.(gpio := w.bridge.gpio[SOC_READY := true][SOC_PWR_EN := true]), Handshake);
    }
  }

  lemma {:induction false} EveryRunStaysOnPath(w: World, steps: seq<Step>)
    requires OnPath(w) && IsRun(w, steps)
    ensures OnPath(Run(w, steps))
    decreases |steps|
  {
    hide IsPath, Irregular, Apply, Enabled;
    if steps != [] {
      StepKeepsPath(w, steps[0]);
      EveryRunStaysOnPath(Apply(w, steps[0]), steps[1..]);
    }
  }

  lemma {:induction false} NoneIrregular(log: seq<Edge>, i: nat)
    requires Irregular(log) == 0 && i < |log|
    ensures AllowedEdge(log[i])
    decreases |log|
  {
    if i < |log| - 1 {
      NoneIrregular(log[..|log| - 1], i);
    }
  }

  // ------------------------------------------------- the catalog in the registry

  /** The last thing done about a catalog service: an offer, a withdrawal, or nothing yet. */
  ghost function Last(events: seq<Event>, i: nat): Option<bool> {
    if events == [] then None
    else
      var e := events[|events| - 1];
      if e.service == i then Some(e.offer) else Last(events[..|events| - 1], i)
  }

  ghost predicate Offered(sd: SD.State, i: nat)
    requires i < SERVICES
  {
    SD.CATALOG[i].serviceId in sd.offered && sd.offered[SD.CATALOG[i].serviceId] == SD.CATALOG[i]
  }

  ghost predicate Withdrawn(sd: SD.State, i: nat)
    requires i < SERVICES
  {
    SD.CATALOG[i].serviceId !in sd.offered
  }

  /** The registry holds a catalog service, with its own descriptor, iff the last thing done about it was an offer. */
  ghost predicate Follows(sd: SD.State, events: seq<Event>) {
    forall i | 0 <= i < SERVICES ::
      (Last(events, i) == Some(true) ==> Offered(sd, i)) && (Last(events, i) == Some(false) ==> Withdrawn(sd, i))
  }

  ghost predicate AllLast(events: seq<Event>, n: nat, offer: bool) {
    forall i | 0 <= i < n :: Last(events, i) == Some(offer)
  }

  ghost predicate AllTouched(events: seq<Event>, n: nat) {
    forall i | 0 <= i < n :: Last(events, i).Some?
  }

  /**
   While the bridge is open nothing is withdrawn; once it is closed again
   everything was, though perhaps too early.
   */
  ghost predicate CatalogKept(w: World) {
    && Follows(w.sd, w.events)
    && (w.loop.Offering? ==>
          w.loop.n <= SERVICES && (w.owner == Open || InInit(w.owner) ==> AllLast(w.events, w.loop.n, true)))
    && (w.owner.Stopping? ==> w.owner.n <= SERVICES && AllTouched(w.events, w.owner.n))
    && (w.owner == Closed && w.inits > 0 ==> AllTouched(w.events, SERVICES))
    && ((w.owner == Open || InInit(w.owner)) && w.served ==> AllLast(w.events, SERVICES, true))
  }

  lemma LastSnoc(events: seq<Event>, e: Event, i: nat)
    ensures Last(events + [e], i) == if e.service == i then Some(e.offer) else Last(events, i)
  {
    assert (events + [e])[..|events|] == events;
  }

  lemma CatalogIds(i: nat)
    requires i < SERVICES
    ensures SD.CATALOG[i].serviceId == 0x1001 + i
  {
  }

  lemma OneOperation(sd: SD.State, op: SD.Operation)
    ensures SD.Run(sd, [op]) == SD.Apply(sd, op)
  {
    assert [op][..0] == [];
  }

  lemma OfferFollows(sd: SD.State, events: seq<Event>, n: nat)
    requires n < SERVICES && Follows(sd, events)
    ensures Follows(SD.Apply(sd, SD.Offer(SD.CATALOG[n])), events + [Event(n, true)])
  {
    hide SD.Notes, SD.CATALOG, Last;
    forall i | 0 <= i < SERVICES
      ensures Last(events + [Event(n, true)], i) == if i == n then Some(true) else Last(events, i)
      ensures SD.CATALOG[i].serviceId == 0x1001 + i
    {
      LastSnoc(events, Event(n, true), i);
      CatalogIds(i);
    }
  }

  lemma StopFollows(sd: SD.State, events: seq<Event>, n: nat)
    requires n < SERVICES && Follows(sd, events)
    ensures Follows(SD.Apply(sd, SD.StopOffer(SD.CATALOG[n].serviceId)), events + [Event(n, false)])
  {
    hide SD.Notes, SD.CATALOG, Last;
    forall i | 0 <= i < SERVICES
      ensures Last(events + [Event(n, false)], i) == if i == n then Some(false) else Last(events, i)
      ensures SD.CATALOG[i].serviceId == 0x1001 + i
    {
      LastSnoc(events, Event(n, false), i);
      CatalogIds(i);
    }
  }

  lemma OtherUseFollows(sd: SD.State, events: seq<Event>, op: SD.Operation)
    requires Follows(sd, events)
    requires op.Offer? ==> !InCatalog(op.svc.serviceId)
    requires op.StopOffer? ==> !InCatalog(op.serviceId)
    ensures Follows(SD.Apply(sd, op), events)
  {
    hide SD.Notes, SD.CATALOG, Last;
    assert forall i | 0 <= i < SERVICES :: InCatalog(SD.CATALOG[i].serviceId);
  }

  lemma OfferKeepsCatalog(w: World)
    requires CatalogKept(w) && Enabled(w, OfferNext) && |w.bridge.gpio| == 8
    ensures CatalogKept(Apply(w, OfferNext))
  {
    hide NM.Run, SD.Run, SD.Apply, SD.CATALOG, Follows, Last;
    var n := w.loop.n;
    OneOperation(w.sd, SD.Offer(SD.CATALOG[n]));
    OfferFollows(w.sd, w.events, n);
    forall i: nat
      ensures Last(w.events + [Event(n, true)], i) == if i == n then Some(true) else Last(w.events, i)
    {
      LastSnoc(w.events, Event(n, true), i);
    }
  }

  lemma StopKeepsCatalog(w: World)
    requires CatalogKept(w) && Enabled(w, StopNext) && |w.bridge.gpio| == 8
    ensures CatalogKept(Apply(w, StopNext))
  {
    hide NM.Run, SD.Run, SD.Apply, SD.CATALOG, Follows, Last;
    var n := w.owner.n;
    OneOperation(w.sd, SD.StopOffer(SD.CATALOG[n].serviceId));
    StopFollows(w.sd, w.events, n);
    forall i: nat
      ensures Last(w.events + [Event(n, false)], i) == if i == n then Some(false) else Last(w.events, i)
    {
      LastSnoc(w.events, Event(n, false), i);
    }
  }

  lemma StepKeepsCatalog(w: World, step: Step)
    requires CatalogKept(w) && Enabled(w, step) && |w.bridge.gpio| == 8
    ensures CatalogKept(Apply(w, step))
  {
    assert AllLast(w.events, 0, true) && AllTouched(w.events, 0);
    hide NM.Run, BridgeAfter, SD.CATALOG, SD.Apply, Follows, AllLast, AllTouched;
    match step
    case OfferNext => OfferKeepsCatalog(w);
    case StopNext => StopKeepsCatalog(w);
    case RegistryUse(op) =>
      OneOperation(w.sd, op);
      OtherUseFollows(w.sd, w.events, op);
    case _ =>
  }

  lemma {:induction false} EveryRunKeepsCatalog(w: World, steps: seq<Step>)
    requires CatalogKept(w) && |w.bridge.gpio| == 8 && IsRun(w, steps)
    ensures CatalogKept(Run(w, steps))
    decreases |steps|
  {
    hide CatalogKept, Apply, Enabled;
    if steps != [] {
      StepKeepsCatalog(w, steps[0]);
      EveryRunKeepsCatalog(Apply(w, steps[0]), steps[1..]);
    }
  }

  /**
   Over every run of the threads: a bridge initialised once takes only the six
   edges; while it is open, all seven services are offered whenever it is Normal
   between two turns, and from its first such time on, through later errors too;
   and when it is closed again, each of the seven is offered iff an offer of it
   came after the last attempt to withdraw it, and is gone otherwise.
   */
  lemma EveryRunFromCreated(w: World, steps: seq<Step>)
    requires Created(w) && IsRun(w, steps)
    ensures var t := Run(w, steps);
            && IsPath(t.bridge.log, t.bridge.state)
            && (t.inits <= 1 ==> forall i | 0 <= i < |t.bridge.log| :: AllowedEdge(t.bridge.log[i]))
            && (t.bridge.state == Reset <==> t.loop == Resetting)
    ensures var t := Run(w, steps);
            t.owner == Open && (t.served || (t.bridge.state == Normal && !t.loop.Offering?)) ==>
              forall i | 0 <= i < SERVICES :: Offered(t.sd, i)
    ensures var t := Run(w, steps);
            t.owner == Closed && t.inits > 0 ==> forall i | 0 <= i < SERVICES ::
                (Offered(t.sd, i) <==> Last(t.events, i) == Some(true)) &&
                (Withdrawn(t.sd, i) <==> Last(t.events, i) == Some(false))
  {
    CreatedIsKept(w);
    EveryRunStaysOnPath(w, steps);
    EveryRunKeepsCatalog(w, steps);
    hide *;
    WhatKeptMeans(Run(w, steps));
  }

  lemma CreatedIsKept(w: World)
    requires Created(w)
    ensures OnPath(w) && CatalogKept(w)
  {
  }

  lemma WhatKeptMeans(t: World)
    requires OnPath(t) && CatalogKept(t)
    ensures IsPath(t.bridge.log, t.bridge.state) && (t.bridge.state == Reset <==> t.loop == Resetting)
    ensures t.inits <= 1 ==> forall i | 0 <= i < |t.bridge.log| :: AllowedEdge(t.bridge.log[i])
    ensures t.owner == Open && (t.served || (t.bridge.state == Normal && !t.loop.Offering?)) ==>
              forall i | 0 <= i < SERVICES :: Offered(t.sd, i)
    ensures t.owner == Closed && t.inits > 0 ==> forall i | 0 <= i < SERVICES ::
                (Offered(t.sd, i) <==> Last(t.events, i) == Some(true)) &&
                (Withdrawn(t.sd, i) <==> Last(t.events, i) == Some(false))
  {
    hide IsPath, Irregular, Last, AllowedEdge, SD.CATALOG;
    if t.inits <= 1 {
      forall i | 0 <= i < |t.bridge.log|
        ensures AllowedEdge(t.bridge.log[i])
      {
        NoneIrregular(t.bridge.log, i);
      }
    }
    if t.owner == Closed && t.inits > 0 {
      forall i | 0 <= i < SERVICES
        ensures Last(t.events, i) == Some(true) || Last(t.events, i) == Some(false)
      {
        assert Last(t.events, i).Some?;
        var last := Last(t.events, i).value;
        assert last == true || last == false;
      }
    }
  }

  // ------------------------------------------------- Shutdown and a turn overlap

  /** All seven are withdrawn, or those are that the Shutdown in progress has come to. */
  ghost predicate Quiet(w: World) {
    AllLast(w.events, SERVICES, false) ||
    (w.owner.Stopping? && w.owner.n <= SERVICES && AllLast(w.events, w.owner.n, false))
  }

  lemma QuietStep(w: World, step: Step)
    requires Quiet(w) && Enabled(w, step) && |w.bridge.gpio| == 8 && !step.OfferNext?
    ensures Quiet(Apply(w, step))
  {
    hide NM.Run, SD.Run, BridgeAfter, SD.CATALOG, Last;
    if step.StopNext? {
      forall i: nat
        ensures Last(w.events + [Event(w.owner.n, false)], i) ==
                if i == w.owner.n then Some(false) else Last(w.events, i)
      {
        LastSnoc(w.events, Event(w.owner.n, false), i);
      }
    }
  }

  lemma {:induction false} QuietRun(w: World, steps: seq<Step>)
    requires Quiet(w) && |w.bridge.gpio| == 8 && IsRun(w, steps) && OfferNext !in steps
    ensures Quiet(Run(w, steps))
    decreases |steps|
  {
    hide Quiet, Apply, Enabled;
    if steps != [] {
      QuietStep(w, steps[0]);
      QuietRun(Apply(w, steps[0]), steps[1..]);
    }
  }

  /** Until an offer is made after Shutdown begins, all seven services are gone from its end on. */
  lemma QuietShutdownWithdraws(w: World, steps: seq<Step>)
    requires CatalogKept(w) && |w.bridge.gpio| == 8 && Enabled(w, BeginShutdown)
    requires IsRun(w, [BeginShutdown] + steps) && OfferNext !in steps
    ensures var t := Run(w, [BeginShutdown] + steps);
            !t.owner.Stopping? ==> forall i | 0 <= i < SERVICES :: Withdrawn(t.sd, i)
  {
    var c := Apply(w, BeginShutdown);
    EveryRunKeepsCatalog(w, [BeginShutdown] + steps);
    RunCons(w, BeginShutdown, steps);
    BeginIsQuiet(w);
    QuietRun(c, steps);
    hide *;
    QuietMeansWithdrawn(Run(c, steps));
  }

  lemma RunCons(w: World, step: Step, steps: seq<Step>)
    requires |w.bridge.gpio| == 8
    ensures Run(w, [step] + steps) == Run(Apply(w, step), steps)
    ensures IsRun(w, [step] + steps) <==> Enabled(w, step) && IsRun(Apply(w, step), steps)
  {
    hide Apply, Enabled;
    assert ([step] + steps)[1..] == steps;
  }

  lemma BeginIsQuiet(w: World)
    requires |w.bridge.gpio| == 8
    ensures Quiet(Apply(w, BeginShutdown))
  {
    hide SD.Run, NM.Run, SD.CATALOG;
    assert AllLast(w.events, 0, false);
  }

  lemma QuietMeansWithdrawn(t: World)
    requires CatalogKept(t) && Quiet(t)
    ensures !t.owner.Stopping? ==> forall i | 0 <= i < SERVICES :: Withdrawn(t.sd, i)
  {
    hide SD.CATALOG, Last;
  }

  // ------------------------------------------------------- uninterrupted runs

  function Repeat(step: Step, k: nat): seq<Step> {
    if k == 0 then [] else [step] + Repeat(step, k - 1)
  }

  lemma {:induction false} RunConcat(w: World, a: seq<Step>, b: seq<Step>)
    requires |w.bridge.gpio| == 8
    ensures Run(w, a + b) == Run(Run(w, a), b)
    ensures IsRun(w, a + b) <==> IsRun(w, a) && IsRun(Run(w, a), b)
    decreases |a|
  {
    hide Apply, Enabled;
    if a == [] {
      assert a + b == b;
    } else {
      RunConcat(Apply(w, a[0]), a[1..], b);
      assert (a + b)[1..] == a[1..] + b;
    }
  }

  lemma OneStep(w: World, step: Step)
    requires |w.bridge.gpio| == 8
    ensures Run(w, [step]) == Apply(w, step) && (IsRun(w, [step]) <==> Enabled(w, step))
  {
    RunCons(w, step, []);
    assert [step] + [] == [step];
  }

  lemma OfferNextDoes(w: World)
    requires |w.bridge.gpio| == 8 && w.loop.Offering? && w.loop.n < SERVICES
    ensures Apply(w, OfferNext) ==
            w.(loop := Offering(w.loop.n + 1, w.loop.later),
               sd := SD.Apply(w.sd, SD.Offer(SD.CATALOG[w.loop.n])), events := w.events + [Event(w.loop.n, true)])
  {
    hide SD.Apply, SD.Run, SD.CATALOG;
    OneOperation(w.sd, SD.Offer(SD.CATALOG[w.loop.n]));
  }

  lemma StopNextDoes(w: World)
    requires |w.bridge.gpio| == 8 && w.owner.Stopping? && w.owner.n < SERVICES
    ensures Apply(w, StopNext) ==
            w.(owner := Stopping(w.owner.n + 1), sd := SD.Apply(w.sd, SD.StopOffer(SD.CATALOG[w.owner.n].serviceId)),
               events := w.events + [Event(w.owner.n, false)])
  {
    hide SD.Apply, SD.Run, SD.CATALOG;
    OneOperation(w.sd, SD.StopOffer(SD.CATALOG[w.owner.n].serviceId));
  }

  lemma OfferEachSnoc(sd: SD.State, n: nat)
    requires n < SERVICES
    ensures OfferEach(sd, SD.CATALOG[..n + 1]) == SD.Apply(OfferEach(sd, SD.CATALOG[..n]), SD.Offer(SD.CATALOG[n]))
    ensures StopEach(sd, SD.CATALOG[..n + 1]) ==
            SD.Apply(StopEach(sd, SD.CATALOG[..n]), SD.StopOffer(SD.CATALOG[n].serviceId))
  {
    hide SD.Apply;
    assert SD.CATALOG[..n + 1][..n] == SD.CATALOG[..n];
  }

  lemma {:induction false} OffersInARow(w: World, sd: SD.State, k: nat)
    requires |w.bridge.gpio| == 8 && w.loop.Offering? && w.loop.n + k <= SERVICES
    requires w.sd == OfferEach(sd, SD.CATALOG[..w.loop.n])
    ensures IsRun(w, Repeat(OfferNext, k))
    ensures var t := Run(w, Repeat(OfferNext, k));
            t == w.(loop := Offering(w.loop.n + k, w.loop.later),
                    sd := OfferEach(sd, SD.CATALOG[..w.loop.n + k]), events := t.events)
    decreases k
  {
    hide Apply, SD.Apply, SD.CATALOG, OfferEach;
    if k > 0 {
      OfferNextDoes(w);
      OfferEachSnoc(sd, w.loop.n);
      OffersInARow(Apply(w, OfferNext), sd, k - 1);
      RunCons(w, OfferNext, Repeat(OfferNext, k - 1));
    }
  }

  lemma {:induction false} StopsInARow(w: World, sd: SD.State, k: nat)
    requires |w.bridge.gpio| == 8 && w.owner.Stopping? && w.owner.n + k <= SERVICES
    requires w.sd == StopEach(sd, SD.CATALOG[..w.owner.n])
    ensures IsRun(w, Repeat(StopNext, k))
    ensures var t := Run(w, Repeat(StopNext, k));
            t == w.(owner := Stopping(w.owner.n + k),
                    sd := StopEach(sd, SD.CATALOG[..w.owner.n + k]), events := t.events)
    decreases k
  {
    hide Apply, SD.Apply, SD.CATALOG, StopEach;
    if k > 0 {
      StopNextDoes(w);
      OfferEachSnoc(sd, w.owner.n);
      StopsInARow(Apply(w, StopNext), sd, k - 1);
      RunCons(w, StopNext, Repeat(StopNext, k - 1));
    }
  }

  lemma FinishOfferDoes(w: World)
    requires |w.bridge.gpio| == 8 && w.loop.Offering?
    ensures Apply(w, FinishOffer) ==
            w.(loop := AtHead, served := true, bridge := w.bridge.(lastHeartbeat := w.loop.later))
  {
  }

  lemma ActDoes(w: World, t: Tick)
    requires |w.bridge.gpio| == 8
    ensures Apply(w, Act(t)) == w.(loop := LoopAfterAct(w.bridge, t), bridge := Acted(w.bridge, t))
  {
  }

  lemma EndPulseDoes(w: World, now: int)
    requires |w.bridge.gpio| == 8
    ensures Apply(w, EndPulse(now)) == w.(loop := AtHead, bridge := Pulsed(w.bridge, now))
  {
  }

  /** A turn nobody interrupts does what the methods of the bridge promise of a turn. */
  lemma UninterruptedTurn(w: World, t: Tick) returns (steps: seq<Step>)
    requires |w.bridge.gpio| == 8 && w.loop == InTurn
    ensures IsRun(w, steps)
    ensures var r := Run(w, steps);
            r == w.(loop := AtHead, bridge := AfterTick(w.bridge, t), sd := RegistryAfterTick(w.bridge, w.sd, t),
                    served := r.served, events := r.events)
  {
    hide Apply, SD.CATALOG, OfferEach, Repeat;
    var a := Apply(w, Act(t));
    OneStep(w, Act(t));
    ActDoes(w, t);
    if w.bridge.state == Error {
      OneStep(a, EndPulse(t.now));
      EndPulseDoes(a, t.now);
      RunConcat(w, [Act(t)], [EndPulse(t.now)]);
      steps := [Act(t)] + [EndPulse(t.now)];
    } else if a.loop.Offering? {
      OffersEnd(w.sd);
      var offers := Repeat(OfferNext, SERVICES);
      OffersInARow(a, w.sd, SERVICES);
      var b := Run(a, offers);
      OneStep(b, FinishOffer);
      FinishOfferDoes(b);
      RunConcat(a, offers, [FinishOffer]);
      RunConcat(w, [Act(t)], offers + [FinishOffer]);
      steps := [Act(t)] + (offers + [FinishOffer]);
    } else {
      steps := [Act(t)];
    }
  }

  lemma OffersEnd(sd: SD.State)
    ensures OfferEach(sd, SD.CATALOG[..0]) == sd && StopEach(sd, SD.CATALOG[..0]) == sd
    ensures SD.CATALOG[..SERVICES] == SD.CATALOG
  {
  }

  ghost predicate Holds(net: NM.World, handle: Option<nat>) {
    handle.Some? ==> handle.value < |net.handles| && net.handles[handle.value] == NM.Handle(NM.ETH_IPC, true)
  }

  /** The handle of the bridge, if there is one, is valid and holds EthIPC; so does the other one that Init replaces. */
  ghost predicate OwnsHandle(w: World) {
    && Holds(w.net, w.own)
    && (w.owner.Replacing? ==> Holds(w.net, w.owner.earlier) && (w.own.Some? ==> w.own != w.owner.earlier))
    && (w.owner.Starting? ==> NM.ETH_IPC in w.net.nm.networks)
  }

  lemma BeginShutdownDoes(w: World)
    requires |w.bridge.gpio| == 8
    ensures Apply(w, BeginShutdown) == w.(owner := Stopping(0), running := false)
  {
  }

  lemma ReleaseDoes(w: World)
    requires |w.bridge.gpio| == 8 && OwnsHandle(w)
    ensures var t := Apply(w, Release);
            t == w.(owner := Closed, own := None, net := t.net) &&
            t.net.nm == if w.own == None then w.net.nm else NM.Released(w.net.nm, NM.ETH_IPC).0
  {
    hide NM.Released;
    if w.own.Some? {
      OneNetworkStep(w.net, NM.Destroy(w.own.value));
    }
  }

  lemma OneNetworkStep(net: NM.World, op: NM.Operation)
    ensures NM.Run(net, [op]) == NM.Apply(net, op)
    ensures NM.NeverBreaks(net, [op]) <==> !NM.Breaks(net, op)
  {
    hide NM.Apply, NM.Breaks;
    assert [op][..0] == [];
  }

  /** Nor is a Shutdown nobody interrupts anything but what the method promises. */
  lemma UninterruptedShutdown(w: World) returns (steps: seq<Step>)
    requires |w.bridge.gpio| == 8 && (w.owner.Closed? || w.owner.Open?) && OwnsHandle(w)
    ensures IsRun(w, steps)
    ensures var r := Run(w, steps);
            r == w.(owner := Closed, running := false, own := None, sd := StopEach(w.sd, SD.CATALOG),
                    events := r.events, net := r.net) &&
            r.net.nm == if w.own == None then w.net.nm else NM.Released(w.net.nm, NM.ETH_IPC).0
  {
    hide Apply, SD.CATALOG, StopEach, Repeat, NM.Released;
    var a := Apply(w, BeginShutdown);
    OneStep(w, BeginShutdown);
    BeginShutdownDoes(w);
    OffersEnd(w.sd);
    var stops := Repeat(StopNext, SERVICES);
    StopsInARow(a, w.sd, SERVICES);
    var b := Run(a, stops);
    OneStep(b, Release);
    ReleaseDoes(b);
    RunConcat(a, stops, [Release]);
    RunConcat(w, [BeginShutdown], stops + [Release]);
    steps := [BeginShutdown] + (stops + [Release]);
  }

  lemma InitStepsDo(w: World, now: int)
    requires |w.bridge.gpio| == 8
    ensures Apply(w, BeginInit) ==
            w.(owner := Starting, served := w.served && !w.owner.Closed?, net := NM.Apply(w.net, NM.Initialize))
    ensures Apply(w, TakeHandle) ==
            w.(owner := Replacing(w.own), own := Some(|w.net.handles|), net := NM.Apply(w.net, NM.Create(NM.ETH_IPC)))
    ensures w.owner.Replacing? ==>
              Apply(w, DropOld) ==
              w.(owner := Ready,
                 net := if w.owner.earlier.Some? then NM.Apply(w.net, NM.Destroy(w.owner.earlier.value)) else w.net)
    ensures Apply(w, EndInit(now)) == w.(inits := w.inits + 1, owner := Open, bridge := AfterInit(w.bridge, now))
  {
    hide NM.Apply, AfterInit;
    OneNetworkStep(w.net, NM.Initialize);
    OneNetworkStep(w.net, NM.Create(NM.ETH_IPC));
    if w.owner.Replacing? && w.owner.earlier.Some? {
      OneNetworkStep(w.net, NM.Destroy(w.owner.earlier.value));
    }
  }

  /** The network part of Init, over the bridge's handle if it has one. */
  function InitNetworks(net: NM.World, own: Option<nat>): NM.World {
    var made := NM.Apply(NM.Apply(net, NM.Initialize), NM.Create(NM.ETH_IPC));
    if own.Some? then NM.Apply(made, NM.Destroy(own.value)) else made
  }

  lemma InitNetworksHolds(net: NM.World, own: Option<nat>)
    requires Holds(net, own)
    ensures InitNetworks(net, own).nm == NetworkAfterInit(net.nm, own.Some?)
    ensures Holds(InitNetworks(net, own), Some(|net.handles|))
  {
    hide NM.Released, NM.Requested;
  }

  lemma InitStepsRun(w: World, now: int)
    requires |w.bridge.gpio| == 8 && w.loop == Idle && (w.owner.Closed? || w.owner.Open?)
    ensures IsRun(w, [BeginInit, TakeHandle, DropOld, EndInit(now)])
    ensures Run(w, [BeginInit, TakeHandle, DropOld, EndInit(now)]) ==
            w.(inits := w.inits + 1, owner := Open, served := w.served && !w.owner.Closed?,
               bridge := AfterInit(w.bridge, now), net := InitNetworks(w.net, w.own),
               own := Some(|NM.Apply(w.net, NM.Initialize).handles|))
  {
    hide Apply, Run, IsRun, AfterInit, NM.Apply;
    InitStepsDo(w, now);
    var a := Apply(w, BeginInit);
    InitStepsDo(a, now);
    var b := Apply(a, TakeHandle);
    InitStepsDo(b, now);
    var c := Apply(b, DropOld);
    InitStepsDo(c, now);
    OneStep(c, EndInit(now));
    RunCons(b, DropOld, [EndInit(now)]);
    RunCons(a, TakeHandle, [DropOld] + [EndInit(now)]);
    RunCons(w, BeginInit, [TakeHandle] + ([DropOld] + [EndInit(now)]));
    assert [BeginInit] + ([TakeHandle] + ([DropOld] + [EndInit(now)])) ==
           [BeginInit, TakeHandle, DropOld, EndInit(now)];
  }

  /** The same of Init. */
  lemma UninterruptedInit(w: World, now: int)
    requires |w.bridge.gpio| == 8 && w.loop == Idle && (w.owner.Closed? || w.owner.Open?) && OwnsHandle(w)
    ensures IsRun(w, [BeginInit, TakeHandle, DropOld, EndInit(now)])
    ensures var r := Run(w, [BeginInit, TakeHandle, DropOld, EndInit(now)]);
            r == w.(inits := w.inits + 1, owner := Open, served := w.served && !w.owner.Closed?,
                    bridge := AfterInit(w.bridge, now), net := r.net, own := r.own) &&
            r.own.Some? && Holds(r.net, r.own) && r.net.nm == NetworkAfterInit(w.net.nm, w.own.Some?)
  {
    hide Apply, Run, IsRun, AfterInit, NetworkAfterInit;
    InitStepsRun(w, now);
    hide InitNetworks;
    InitNetworksHolds(w.net, w.own);
  }

  // ------------------------------------------ a Shutdown that falls into a turn

  /** Init, then the first turn of Run as far as the entry into Normal. */
  lemma EntersNormal(w: World) returns (steps: seq<Step>)
    requires Created(w)
    ensures IsRun(w, steps)
    ensures var t := Run(w, steps);
            t.bridge.state == Normal && t.owner == Open && t.loop.Offering? && t.loop.n == 0 && OwnsHandle(t)
  {
    hide SD.CATALOG, NetworkAfterInit, Run, IsRun;
    var t := Tick(101 * MS, 101 * MS);
    var start := [BeginInit, TakeHandle, DropOld, EndInit(0)];
    UninterruptedInit(w, 0);
    var a := Run(w, start);
    var b := Apply(a, StartRun);
    var c := Apply(b, CheckRunning);
    OneStep(c, Act(t));
    RunCons(b, CheckRunning, [Act(t)]);
    RunCons(a, StartRun, [CheckRunning] + [Act(t)]);
    var turn := [StartRun] + ([CheckRunning] + [Act(t)]);
    RunConcat(w, start, turn);
    ActDoes(c, t);
    assert c.bridge == AfterInit(w.bridge, 0) && c.net == a.net;
    assert HandshakeSucceeds(c.bridge, t.now);
    steps := start + turn;
    assert Run(w, steps) == Apply(c, Act(t));
    assert IsRun(w, steps);
  }

  lemma FinishesAndEnds(w: World)
    requires |w.bridge.gpio| == 8 && w.loop.Offering? && w.loop.n == SERVICES && !w.running
    ensures IsRun(w, [FinishOffer, CheckRunning])
    ensures var t := Run(w, [FinishOffer, CheckRunning]);
            t.loop == Idle && t.sd == w.sd && t.owner == w.owner && t.own == w.own
  {
    FinishOfferDoes(w);
    var a := Apply(w, FinishOffer);
    OneStep(a, CheckRunning);
    RunCons(w, FinishOffer, [CheckRunning]);
    assert [FinishOffer] + [CheckRunning] == [FinishOffer, CheckRunning];
  }

  /**
   Without that condition the promise fails: from every new bridge there is a
   run whose Shutdown falls between the entry into Normal and the offers. The
   loop ends, the network is let go, and all seven services stay offered.
   */
  lemma ShutdownInsideATurnLeavesTheCatalog(w: World) returns (steps: seq<Step>)
    requires Created(w)
    ensures IsRun(w, steps)
    ensures var t := Run(w, steps);
            t.owner == Closed && t.loop == Idle && !t.own.Some? && forall i | 0 <= i < SERVICES :: Offered(t.sd, i)
  {
    hide Apply, Acted, SD.CATALOG, OfferEach, StopEach, Repeat, NM.Released, OwnsHandle, Offered, Follows;
    var entry := EntersNormal(w);
    var a := Run(w, entry);
    var shutdown := UninterruptedShutdown(a);
    var b := Run(a, shutdown);
    var offers := Repeat(OfferNext, SERVICES);
    OffersEnd(b.sd);
    OffersInARow(b, b.sd, SERVICES);
    var c := Run(b, offers);
    FinishesAndEnds(c);
    var last := [FinishOffer, CheckRunning];
    RunConcat(b, offers, last);
    RunConcat(a, shutdown, offers + last);
    steps := entry + (shutdown + (offers + last));
    RunConcat(w, entry, shutdown + (offers + last));
    OfferEachOffers(b.sd, SERVICES);
  }

  lemma {:induction false} OfferEachOffers(sd: SD.State, n: nat)
    requires n <= SERVICES
    ensures forall i | 0 <= i < n :: Offered(OfferEach(sd, SD.CATALOG[..n]), i)
    decreases n
  {
    hide SD.Notes, SD.CATALOG, OfferEach;
    if n > 0 {
      OfferEachOffers(sd, n - 1);
      OfferEachSnoc(sd, n - 1);
      forall i | 0 <= i < n
        ensures Offered(OfferEach(sd, SD.CATALOG[..n]), i)
      {
        CatalogIds(i);
        CatalogIds(n - 1);
        assert i < n - 1 ==> Offered(OfferEach(sd, SD.CATALOG[..n - 1]), i);
      }
    }
  }

  // -------------------------------------- when Shutdown withdraws the catalog

  /** The loop is among its offers, or in a turn that it began in Handshake. */
  predicate MayStillOffer(w: World) {
    (w.loop.Offering? && w.loop.n < SERVICES) || (w.loop.InTurn? && w.bridge.state == Handshake)
  }

  /**
   Whatever the threads do afterwards, short of running the loop anew, no
   service is offered once Shutdown is over.
   */
  ghost predicate WithdrawsForGood(w: World)
    requires |w.bridge.gpio| == 8
  {
    forall steps | IsRun(w, [BeginShutdown] + steps) && StartRun !in steps ::
      var t := Run(w, [BeginShutdown] + steps);
      !t.owner.Stopping? ==> forall i | 0 <= i < SERVICES :: Withdrawn(t.sd, i)
  }

  /** The loop will make no more offers. */
  ghost predicate Settled(w: World) {
    !w.running && !MayStillOffer(w) && (InInit(w.owner) ==> w.loop == Idle)
  }

  lemma SettledStep(w: World, step: Step)
    requires Settled(w) && Enabled(w, step) && |w.bridge.gpio| == 8 && step != StartRun
    ensures Settled(Apply(w, step)) && step != OfferNext
  {
    hide NM.Run, SD.Run, SD.CATALOG;
  }

  lemma {:induction false} SettledRun(w: World, steps: seq<Step>)
    requires Settled(w) && |w.bridge.gpio| == 8 && IsRun(w, steps) && StartRun !in steps
    ensures OfferNext !in steps
    decreases |steps|
  {
    hide Settled, Apply, Enabled;
    if steps != [] {
      SettledStep(w, steps[0]);
      SettledRun(Apply(w, steps[0]), steps[1..]);
      assert steps == [steps[0]] + steps[1..];
    }
  }

  lemma SettledWithdraws(w: World)
    requires CatalogKept(w) && |w.bridge.gpio| == 8 && Enabled(w, BeginShutdown) && !MayStillOffer(w)
    ensures WithdrawsForGood(w)
  {
    BeginShutdownDoes(w);
    var c := Apply(w, BeginShutdown);
    assert Settled(c);
    hide Apply, Settled, CatalogKept, Enabled;
    forall steps | IsRun(w, [BeginShutdown] + steps) && StartRun !in steps
      ensures var t := Run(w, [BeginShutdown] + steps);
              !t.owner.Stopping? ==> forall i | 0 <= i < SERVICES :: Withdrawn(t.sd, i)
    {
      RunCons(w, BeginShutdown, steps);
      SettledRun(c, steps);
      QuietShutdownWithdraws(w, steps);
    }
  }

  lemma RepeatIsOf(step: Step, k: nat)
    ensures forall s | s in Repeat(step, k) :: s == step
  {
  }

  /** Shutdown runs to its end inside the offers, and the next offer comes after it. */
  lemma LateOffer(a: World) returns (steps: seq<Step>)
    requires |a.bridge.gpio| == 8 && a.owner == Stopping(0) && a.loop.Offering? && a.loop.n < SERVICES
    ensures IsRun(a, steps) && StartRun !in steps
    ensures var t := Run(a, steps); t.owner == Closed && Last(t.events, a.loop.n) == Some(true)
  {
    hide Apply, SD.CATALOG, StopEach, Repeat, Last;
    OffersEnd(a.sd);
    var stops := Repeat(StopNext, SERVICES);
    RepeatIsOf(StopNext, SERVICES);
    StopsInARow(a, a.sd, SERVICES);
    var b := Run(a, stops);
    var c := Apply(b, Release);
    ReleaseCloses(b);
    OneStep(c, OfferNext);
    OfferNextDoes(c);
    LastSnoc(c.events, Event(a.loop.n, true), a.loop.n);
    RunCons(b, Release, [OfferNext]);
    RunConcat(a, stops, [Release] + [OfferNext]);
    steps := stops + ([Release] + [OfferNext]);
  }

  lemma ReleaseCloses(w: World)
    requires |w.bridge.gpio| == 8
    ensures var t := Apply(w, Release); t.owner == Closed && t.loop == w.loop && t.bridge == w.bridge
  {
  }

  /** A turn begun in Handshake gets to its offers if SOC_READY is up in time. */
  lemma ReachesOffers(c: World) returns (steps: seq<Step>)
    requires |c.bridge.gpio| == 8 && c.owner == Stopping(0) && MayStillOffer(c)
    ensures IsRun(c, steps) && StartRun !in steps
    ensures var a := Run(c, steps); a.owner == Stopping(0) && a.loop.Offering? && a.loop.n < SERVICES
  {
    if c.loop.Offering? {
      steps := [];
    } else {
      hide SD.CATALOG, NM.Run, SD.Run;
      var t := Tick(c.bridge.handshakeStart + 101 * MS, 0);
      var ready := Apply(c, SetGpio(SOC_READY, true));
      assert ready == c.(bridge := AfterGpio(c.bridge, SOC_READY, true), sd := ready.sd, net := ready.net);
      assert HandshakeSucceeds(ready.bridge, t.now);
      ActDoes(ready, t);
      OneStep(ready, Act(t));
      RunCons(c, SetGpio(SOC_READY, true), [Act(t)]);
      steps := [SetGpio(SOC_READY, true)] + [Act(t)];
    }
  }

  lemma UnsettledMayLeave(w: World)
    requires CatalogKept(w) && |w.bridge.gpio| == 8 && Enabled(w, BeginShutdown) && MayStillOffer(w)
    ensures !WithdrawsForGood(w)
  {
    hide Apply, SD.CATALOG, Follows, Last, BridgeAfter;
    BeginShutdownDoes(w);
    var c := Apply(w, BeginShutdown);
    var entry := ReachesOffers(c);
    var a := Run(c, entry);
    var late := LateOffer(a);
    RunConcat(c, entry, late);
    var steps := entry + late;
    RunCons(w, BeginShutdown, steps);
    EveryRunKeepsCatalog(w, [BeginShutdown] + steps);
    LastIsOffered(Run(w, [BeginShutdown] + steps), a.loop.n);
  }

  lemma LastIsOffered(t: World, i: nat)
    requires CatalogKept(t) && i < SERVICES && Last(t.events, i) == Some(true)
    ensures !Withdrawn(t.sd, i)
  {
    hide SD.CATALOG, Last;
  }

  /**
   In every reachable state, a Shutdown begun there withdraws the catalog for
   good exactly when the loop is neither among its offers nor in a turn that it
   began in Handshake.
   */
  lemma ShutdownWithdrawsIff(w: World, before: seq<Step>)
    requires Created(w) && IsRun(w, before) && Enabled(Run(w, before), BeginShutdown)
    ensures WithdrawsForGood(Run(w, before)) <==> !MayStillOffer(Run(w, before))
  {
    CreatedIsKept(w);
    EveryRunKeepsCatalog(w, before);
    var now := Run(w, before);
    if MayStillOffer(now) {
      UnsettledMayLeave(now);
    } else {
      SettledWithdraws(now);
    }
  }

  // ---------------------------------------------------------- the held network

  lemma NetworkStepKeepsHeld(net: NM.World, op: NM.Operation, handle: Option<nat>)
    requires Holds(net, handle)
    requires (op.MoveFrom? ==> handle != Some(op.source)) && (op.Destroy? ==> handle != Some(op.target))
    ensures Holds(NM.Apply(net, op), handle)
    ensures NM.ETH_IPC in net.nm.networks ==> NM.ETH_IPC in NM.Apply(net, op).nm.networks
  {
  }

  lemma StepKeepsOwn(w: World, step: Step)
    requires |w.bridge.gpio| == 8 && OwnsHandle(w) && Enabled(w, step)
    ensures OwnsHandle(Apply(w, step))
  {
    hide NM.Apply, BridgeAfter, SD.Run, SD.CATALOG;
    var ops := NetworkSteps(w, step);
    if ops != [] {
      assert ops == [ops[0]];
      OneNetworkStep(w.net, ops[0]);
    }
    match step
    case BeginInit =>
      NetworkStepKeepsHeld(w.net, NM.Initialize, w.own);
      Initialises(w.net);
    case TakeHandle =>
      NetworkStepKeepsHeld(w.net, NM.Create(NM.ETH_IPC), w.own);
      CreatesHeld(w.net);
    case DropOld =>
      if w.owner.earlier.Some? {
        NetworkStepKeepsHeld(w.net, NM.Destroy(w.owner.earlier.value), w.own);
      }
    case NetworkUse(op) =>
      NetworkStepKeepsHeld(w.net, op, w.own);
      if w.owner.Replacing? {
        NetworkStepKeepsHeld(w.net, op, w.owner.earlier);
      }
    case _ =>
  }

  lemma Initialises(net: NM.World)
    ensures NM.ETH_IPC in NM.Apply(net, NM.Initialize).nm.networks
  {
  }

  lemma CreatesHeld(net: NM.World)
    requires NM.ETH_IPC in net.nm.networks
    ensures Holds(NM.Apply(net, NM.Create(NM.ETH_IPC)), Some(|net.handles|))
  {
  }

  /** No step of the run gives a network 2^32 holders or shuts NM down over a valid handle. */
  ghost predicate NetworkUnbroken(w: World, steps: seq<Step>)
    requires |w.bridge.gpio| == 8
    decreases |steps|
  {
    steps == [] ||
    (NM.NeverBreaks(w.net, NetworkSteps(w, steps[0])) && NetworkUnbroken(Apply(w, steps[0]), steps[1..]))
  }

  ghost predicate NetworkInOrder(net: NM.World) {
    NM.Counted(net) && NM.AwakeIffHeld(net.nm) && NM.Logged(net.nm)
  }

  lemma {:induction false} NetworkStaysInOrder(w: World, steps: seq<Step>)
    requires |w.bridge.gpio| == 8 && OwnsHandle(w) && NetworkInOrder(w.net)
    requires IsRun(w, steps) && NetworkUnbroken(w, steps)
    ensures OwnsHandle(Run(w, steps)) && NetworkInOrder(Run(w, steps).net)
    decreases |steps|
  {
    if steps != [] {
      NM.EveryRunCounts(w.net, NetworkSteps(w, steps[0]));
      StepKeepsOwn(w, steps[0]);
      hide NM.Run, NM.NeverBreaks, NM.Counted, NM.AwakeIffHeld, NM.Logged, SD.Run;
      hide NetworkSteps, Enabled, BridgeAfter, OwnsHandle;
      NetworkStaysInOrder(Apply(w, steps[0]), steps[1..]);
    }
  }

  /**
   Whatever the other holders request, move and release in between: from the
   moment Init has its handle until Shutdown lets go of it, through a repeated
   Init too, EthIPC is Normal, and its count is the number of valid handles.
   */
  lemma OpenMeansAwake(w: World, steps: seq<Step>)
    requires Created(w) && NetworkInOrder(w.net) && IsRun(w, steps) && NetworkUnbroken(w, steps)
    ensures var t := Run(w, steps);
            && (t.owner == Open ==> t.own.Some?)
            && (t.own.Some? ==>
                 NM.ETH_IPC in t.net.nm.networks &&
                 var r := t.net.nm.networks[NM.ETH_IPC];
                 r.state == NM.Normal && r.refCount == NM.Holders(t.net.handles, NM.ETH_IPC) >= 1)
  {
    CreatedIsKept(w);
    EveryRunStaysOnPath(w, steps);
    NetworkStaysInOrder(w, steps);
    var t := Run(w, steps);
    if t.own.Some? {
      HeldMeansAwake(t);
    }
  }

  lemma HeldMeansAwake(t: World)
    requires OwnsHandle(t) && NetworkInOrder(t.net) && t.own.Some?
    ensures NM.ETH_IPC in t.net.nm.networks &&
            var r := t.net.nm.networks[NM.ETH_IPC];
            r.state == NM.Normal && r.refCount == NM.Holders(t.net.handles, NM.ETH_IPC) >= 1
  {
    hide NM.Holders, NM.Logged;
    NM.ValidIsHeld(t.net.handles, t.own.value);
  }

  // ------------------------------------------------------- what is left alone

  /** The same services outside the catalog, with the same descriptors. */
  ghost predicate SameOutside(a: SD.State, b: SD.State) {
    forall id | !InCatalog(id) ::
      (id in a.offered <==> id in b.offered) && (id in a.offered ==> a.offered[id] == b.offered[id])
  }

  /** The registry had only the others used it. */
  ghost function WithoutBridge(sd: SD.State, steps: seq<Step>): SD.State
    decreases |steps|
  {
    if steps == [] then sd
    else WithoutBridge(if steps[0].RegistryUse? then SD.Apply(sd, steps[0].registryOp) else sd, steps[1..])
  }

  lemma StepKeepsOutside(w: World, sd: SD.State, step: Step)
    requires |w.bridge.gpio| == 8 && SameOutside(w.sd, sd) && Enabled(w, step)
    ensures SameOutside(Apply(w, step).sd, if step.RegistryUse? then SD.Apply(sd, step.registryOp) else sd)
  {
    hide SD.CATALOG, SD.Notes, NM.Run, BridgeAfter;
    match step
    case OfferNext =>
      OfferNextDoes(w);
      assert InCatalog(SD.CATALOG[w.loop.n].serviceId);
    case StopNext =>
      StopNextDoes(w);
      assert InCatalog(SD.CATALOG[w.owner.n].serviceId);
    case RegistryUse(op) => OneOperation(w.sd, op);
    case _ =>
  }

  /** Outside the catalog the registry is, after every run, what the others alone would have made it. */
  lemma {:induction false} BridgeLeavesOthersAlone(w: World, sd: SD.State, steps: seq<Step>)
    requires |w.bridge.gpio| == 8 && SameOutside(w.sd, sd) && IsRun(w, steps)
    ensures SameOutside(Run(w, steps).sd, WithoutBridge(sd, steps))
    decreases |steps|
  {
    hide SameOutside, Apply, Enabled, SD.Apply;
    if steps != [] {
      StepKeepsOutside(w, sd, steps[0]);
      var rest := if steps[0].RegistryUse? then SD.Apply(sd, steps[0].registryOp) else sd;
      BridgeLeavesOthersAlone(Apply(w, steps[0]), rest, steps[1..]);
    }
  }

  // ---------------------------------------------------------------- SPI frames

  /** A turn in Normal without a time-out drains the queue. */
  ghost function SentAfter(w: World, sent: seq<SpiFrame>, step: Step): seq<SpiFrame> {
    if step.SendSpi? then sent + [step.frame]
    else if step.Act? && w.bridge.state == Normal && Milliseconds(step.tick.now - w.bridge.lastHeartbeat) <= 500 then []
    else sent
  }

  ghost function SentSinceDrain(w: World, sent: seq<SpiFrame>, steps: seq<Step>): seq<SpiFrame>
    requires |w.bridge.gpio| == 8
    decreases |steps|
  {
    if steps == [] then sent else SentSinceDrain(Apply(w, steps[0]), SentAfter(w, sent, steps[0]), steps[1..])
  }

  /** The frame as it was sent, with a CRC that leaves zero over its bytes followed by the CRC, high byte first. */
  ghost predicate ChecksOut(queued: SpiFrame, sent: SpiFrame) {
    && queued == sent.(crc16 := queued.crc16)
    && Crc16([sent.sof, sent.frameCtrl, ToByte(sent.length / 0x100), ToByte(sent.length)] + sent.payload +
             [(queued.crc16 >> 8) as byte, (queued.crc16 & 0xFF) as byte]) == 0
  }

  ghost predicate AllCheckOut(queue: seq<SpiFrame>, sent: seq<SpiFrame>) {
    |queue| == |sent| && forall i | 0 <= i < |queue| :: ChecksOut(queue[i], sent[i])
  }

  lemma StepKeepsFrames(w: World, sent: seq<SpiFrame>, step: Step)
    requires |w.bridge.gpio| == 8 && AllCheckOut(w.bridge.spiTx, sent)
    ensures AllCheckOut(Apply(w, step).bridge.spiTx, SentAfter(w, sent, step))
  {
    BridgeOf(w, step);
    hide Apply;
    hide ChecksOut, Crc16, Covered;
    if step.SendSpi? {
      SentFrameChecksOut(step.frame);
    }
  }

  /**
   In every interleaving the SPI queue holds exactly the frames sent since it was
   drained last, in order, each with the CRC of its bytes.
   */
  lemma {:induction false} QueuedFramesCheckOut(w: World, sent: seq<SpiFrame>, steps: seq<Step>)
    requires |w.bridge.gpio| == 8 && AllCheckOut(w.bridge.spiTx, sent)
    ensures AllCheckOut(Run(w, steps).bridge.spiTx, SentSinceDrain(w, sent, steps))
    decreases |steps|
  {
    if steps != [] {
      hide AllCheckOut, Apply, SentAfter;
      StepKeepsFrames(w, sent, steps[0]);
      QueuedFramesCheckOut(Apply(w, steps[0]), SentAfter(w, sent, steps[0]), steps[1..]);
    }
  }

  lemma BridgeOf(w: World, step: Step)
    requires |w.bridge.gpio| == 8
    ensures Apply(w, step).bridge == BridgeAfter(w.bridge, w.loop, step)
  {
  }

  lemma SentFrameChecksOut(f: SpiFrame)
    ensures ChecksOut(f.(crc16 := Crc16(Covered(f))), f)
  {
    hide Crc16, ToByte, Covered, Be16;
    var c := Crc16(Covered(f));
    Crc16Residue(Covered(f), c);
    CoveredBytes(f);
    TwoBytesOf(c);
  }

  lemma CoveredBytes(f: SpiFrame)
    ensures Covered(f) == [f.sof, f.frameCtrl, ToByte(f.length / 0x100), ToByte(f.length)] + f.payload
  {
    hide ToByte, BigEndian.Encode;
    BigEndian.TwoBytes(f.length, 0);
    assert BigEndian.Encode(f.length, 2) == [ToByte(f.length / 0x100), ToByte(f.length)] by {
      assert BigEndian.Encode(f.length / 0x1_0000, 0) == [];
    }
  }

  lemma TwoBytesOf(c: bv16)
    ensures Be16(c) == [(c >> 8) as byte, (c & 0xFF) as byte]
  {
  }

  // ------------------------------------------------------------------ GPIO lines

  /** A line other than the reset line: SetGpio sets it, and Init raises 1 and 2. */
  ghost function LevelAfter(level: bool, signal: nat, step: Step): bool {
    if step.SetGpio? && step.signal == signal then step.level
    else if step.EndInit? && (signal == 1 || signal == 2) then true
    else level
  }

  /** Read off the steps alone: the level of a line other than the reset line. */
  ghost function LastLevel(level: bool, signal: nat, steps: seq<Step>): bool
    decreases |steps|
  {
    if steps == [] then level else LastLevel(LevelAfter(level, signal, steps[0]), signal, steps[1..])
  }

  ghost function ChangeDue(signal: nat, step: Step): seq<GpioChange> {
    if step.SetGpio? && step.signal == signal < 8 then [GpioChange(signal, step.level)] else []
  }

  /** Read off the steps alone: the callbacks due on a line other than the reset line. */
  ghost function ChangesDue(signal: nat, steps: seq<Step>): seq<GpioChange>
    decreases |steps|
  {
    if steps == [] then [] else ChangeDue(signal, steps[0]) + ChangesDue(signal, steps[1..])
  }

  /** The callbacks made on one line. */
  ghost function ChangesOf(log: seq<GpioChange>, signal: nat): seq<GpioChange> {
    if log == [] then []
    else
      var last := log[|log| - 1];
      ChangesOf(log[..|log| - 1], signal) + if last.signal == signal then [last] else []
  }

  lemma ChangesSnoc(log: seq<GpioChange>, c: GpioChange, signal: nat)
    ensures ChangesOf(log + [c], signal) == ChangesOf(log, signal) + if c.signal == signal then [c] else []
  {
    assert (log + [c])[..|log|] == log;
  }

  lemma LineStep(b: Bridge, loop: Loop, step: Step, signal: nat)
    requires |b.gpio| == 8 && signal >= 1
    ensures var c := BridgeAfter(b, loop, step);
            && (signal < 8 ==> c.gpio[signal] == LevelAfter(b.gpio[signal], signal, step))
            && ChangesOf(c.gpioLog, signal) == ChangesOf(b.gpioLog, signal) + ChangeDue(signal, step)
  {
    hide ChangesOf, Crc16;
    ChangesSnoc(b.gpioLog, GpioChange(0, false), signal);
    ChangesSnoc(b.gpioLog, GpioChange(0, true), signal);
    ChangesSnoc(b.gpioLog + [GpioChange(0, false)], GpioChange(0, true), signal);
    if step.SetGpio? {
      ChangesSnoc(b.gpioLog, GpioChange(step.signal, step.level), signal);
    }
    var l := ChangesOf(b.gpioLog, signal);
    assert l + [] == l && (l + []) + [] == l;
  }

  lemma {:induction false} LevelsAreAsSet(w: World, steps: seq<Step>, signal: nat)
    requires |w.bridge.gpio| == 8 && 1 <= signal < 8
    ensures Run(w, steps).bridge.gpio[signal] == LastLevel(w.bridge.gpio[signal], signal, steps)
    decreases |steps|
  {
    hide Apply, LevelAfter, ChangesOf, ChangeDue;
    if steps != [] {
      LineOf(w, steps[0], signal);
      LevelsAreAsSet(Apply(w, steps[0]), steps[1..], signal);
    }
  }

  lemma {:induction false} ChangesAreAsSet(w: World, steps: seq<Step>, signal: nat)
    requires |w.bridge.gpio| == 8 && signal >= 1
    ensures ChangesOf(Run(w, steps).bridge.gpioLog, signal) ==
            ChangesOf(w.bridge.gpioLog, signal) + ChangesDue(signal, steps)
    decreases |steps|
  {
    hide Apply, LevelAfter, ChangesOf, ChangeDue;
    var before := ChangesOf(w.bridge.gpioLog, signal);
    if steps == [] {
      assert before + [] == before;
    } else {
      LineOf(w, steps[0], signal);
      ChangesAreAsSet(Apply(w, steps[0]), steps[1..], signal);
      var now, rest := ChangeDue(signal, steps[0]), ChangesDue(signal, steps[1..]);
      assert (before + now) + rest == before + (now + rest);
    }
  }

  lemma LineOf(w: World, step: Step, signal: nat)
    requires |w.bridge.gpio| == 8 && signal >= 1
    ensures var b := Apply(w, step).bridge;
            && (signal < 8 ==> b.gpio[signal] == LevelAfter(w.bridge.gpio[signal], signal, step))
            && ChangesOf(b.gpioLog, signal) == ChangesOf(w.bridge.gpioLog, signal) + ChangeDue(signal, step)
  {
    LineStep(w.bridge, w.loop, step, signal);
    BridgeOf(w, step);
    hide *;
  }

  /** In every interleaving a line other than the reset line has the level set last, with one callback per call. */
  lemma LinesAreAsSet(w: World, steps: seq<Step>, signal: nat)
    requires |w.bridge.gpio| == 8 && signal >= 1
    ensures var b := Run(w, steps).bridge;
            && (signal < 8 ==> b.gpio[signal] == LastLevel(w.bridge.gpio[signal], signal, steps))
            && ChangesOf(b.gpioLog, signal) == ChangesOf(w.bridge.gpioLog, signal) + ChangesDue(signal, steps)
  {
    hide *;
    ChangesAreAsSet(w, steps, signal);
    if signal < 8 {
      LevelsAreAsSet(w, steps, signal);
    }
  }

  /** How often the connection went from Error to Reset. */
  ghost function Resets(log: seq<Edge>): nat {
    if log == [] then 0
    else Resets(log[..|log| - 1]) + if log[|log| - 1] == Edge(Error, Reset) then 1 else 0
  }

  lemma ResetsSnoc(log: seq<Edge>, e: Edge)
    ensures Resets(log + [e]) == Resets(log) + if e == Edge(Error, Reset) then 1 else 0
  {
    assert (log + [e])[..|log|] == log;
  }

  /** The callbacks of k whole reset pulses: low, then high. */
  ghost function Pulses(k: nat): seq<GpioChange> {
    if k == 0 then [] else Pulses(k - 1) + [GpioChange(0, false), GpioChange(0, true)]
  }

  /** The reset line is low exactly inside a pulse, and it had one pulse per reset. */
  ghost predicate PulsesRight(b: Bridge, loop: Loop, level: bool)
    requires |b.gpio| == 8
  {
    var k := Resets(b.log);
    if loop == Resetting then
      k >= 1 && !b.gpio[0] && ChangesOf(b.gpioLog, 0) == Pulses(k - 1) + [GpioChange(0, false)]
    else
      b.gpio[0] == (if k == 0 then level else true) && ChangesOf(b.gpioLog, 0) == Pulses(k)
  }

  predicate LeavesResetLine(step: Step) {
    !(step.SetGpio? && step.signal == 0)
  }

  lemma PulseStep(w: World, step: Step, level: bool)
    requires |w.bridge.gpio| == 8 && PulsesRight(w.bridge, w.loop, level)
    requires Enabled(w, step) && LeavesResetLine(step)
    ensures var t := Apply(w, step); PulsesRight(t.bridge, t.loop, level)
  {
    hide ChangesOf, Resets, Pulses, NM.Run, SD.Run, Crc16, SD.CATALOG;
    var b := w.bridge;
    ChangesSnoc(b.gpioLog, GpioChange(0, false), 0);
    ChangesSnoc(b.gpioLog, GpioChange(0, true), 0);
    if step.SetGpio? {
      ChangesSnoc(b.gpioLog, GpioChange(step.signal, step.level), 0);
      assert ChangesOf(b.gpioLog, 0) + [] == ChangesOf(b.gpioLog, 0);
    }
    ResetsSnoc(b.log, Edge(b.state, Reset));
    ResetsSnoc(b.log, Edge(b.state, Normal));
    ResetsSnoc(b.log, Edge(b.state, Error));
    ResetsSnoc(b.log, Edge(b.state, Handshake));
    OnePulseMore(Resets(b.log));
  }

  lemma OnePulseMore(k: nat)
    ensures k >= 1 ==> Pulses(k) == (Pulses(k - 1) + [GpioChange(0, false)]) + [GpioChange(0, true)]
  {
  }

  lemma {:induction false} PulsesStayRight(w: World, steps: seq<Step>, level: bool)
    requires |w.bridge.gpio| == 8 && PulsesRight(w.bridge, w.loop, level) && IsRun(w, steps)
    requires forall i | 0 <= i < |steps| :: LeavesResetLine(steps[i])
    ensures var t := Run(w, steps); PulsesRight(t.bridge, t.loop, level)
    decreases |steps|
  {
    hide PulsesRight, Apply, Enabled;
    if steps != [] {
      assert LeavesResetLine(steps[0]);
      PulseStep(w, steps[0], level);
      assert forall i | 0 <= i < |steps[1..]| :: steps[1..][i] == steps[i + 1];
      PulsesStayRight(Apply(w, steps[0]), steps[1..], level);
    }
  }

  /**
   While nobody else drives the reset line: it is low during a reset pulse, and
   high from the first one on otherwise; its callbacks are one low and then one
   high for every step from Error to Reset, the last one's high still missing
   during its pulse.
   */
  lemma ResetLineIsPulsed(w: World, steps: seq<Step>)
    requires Created(w) && w.bridge.gpioLog == [] && IsRun(w, steps)
    requires forall i | 0 <= i < |steps| :: LeavesResetLine(steps[i])
    ensures var t := Run(w, steps);
            var k := Resets(t.bridge.log);
            if t.loop == Resetting then
              k >= 1 && !t.bridge.gpio[0] && ChangesOf(t.bridge.gpioLog, 0) == Pulses(k - 1) + [GpioChange(0, false)]
            else
              (k >= 1 ==> t.bridge.gpio[0]) && ChangesOf(t.bridge.gpioLog, 0) == Pulses(k)
  {
    PulsesStayRight(w, steps, w.bridge.gpio[0]);
  }

  /** Initialising again while the network is held leaves it awake throughout, and its count as it was. */
  lemma ReInitNeverSleeps(nm: NM.Nm)
    requires NM.ETH_IPC in nm.networks && NM.AwakeIffHeld(nm) && 0 < nm.networks[NM.ETH_IPC].refCount < 0xFFFF_FFFF
    ensures NM.Requested(NM.Initialized(nm), NM.ETH_IPC).0.networks[NM.ETH_IPC].state == NM.Normal
    ensures NetworkAfterInit(nm, true) == NM.Initialized(nm)
    ensures NetworkAfterInit(nm, true).log == nm.log
  {
    NM.ReplacingNeverSleeps(NM.Initialized(nm), NM.ETH_IPC);
  }
}
