/** The SOME/IP service registry and the view each subscriber has of it. */
module ServiceDiscovery {
  import opened Common

  datatype Descriptor = Descriptor(
    serviceId: u16, instanceId: u8, majorVersion: u8, minorVersion: u32,
    serviceName: string, eventgroupId: u16, tcpBinding: bool, port: u16)

  const CATALOG: seq<Descriptor> := [
    Descriptor(0x1001, 0x01, 1, 0, "VehicleSignalService", 0x01, false, 30501),
    Descriptor(0x1002, 0x01, 1, 0, "SafetyStatusService", 0x02, false, 30502),
    Descriptor(0x1003, 0x01, 1, 0, "PowerModeService", 0x03, true, 30601),
    Descriptor(0x1004, 0x01, 1, 0, "DiagnosticProxyService", 0x04, true, 30602),
    Descriptor(0x1005, 0x01, 1, 0, "OTATransferService", 0x05, true, 30701),
    Descriptor(0x1006, 0x01, 1, 0, "HMICommandService", 0x06, true, 30603),
    Descriptor(0x1007, 0x01, 1, 0, "NetworkStatusService", 0x07, false, 30503)]

  /** Callbacks are known by a number; the same one may be subscribed more than once. */
  type Callback = nat

  /** One call of a subscriber: the slot is its position in the list kept for the id. */
  datatype Note = Note(serviceId: u16, slot: nat, callback: Callback, svc: Descriptor, available: bool)

  datatype State = State(offered: map<u16, Descriptor>, subscribers: map<u16, seq<Callback>>, log: seq<Note>)

  datatype Operation = Offer(svc: Descriptor) | StopOffer(serviceId: u16) | Subscribe(serviceId: u16, cb: Callback)

  const INITIAL := State(map[], map[], [])

  function Listeners(subscribers: map<u16, seq<Callback>>, id: u16): seq<Callback> {
    if id in subscribers then subscribers[id] else []
  }

  function Notes(id: u16, cbs: seq<Callback>, svc: Descriptor, available: bool): (r: seq<Note>)
    ensures |r| == |cbs|
  {
    if cbs == [] then []
    else
      var n := |cbs| - 1;
      Notes(id, cbs[..n], svc, available) + [Note(id, n, cbs[n], svc, available)]
  }

  function Apply(s: State, op: Operation): State {
    match op
    case Offer(svc) =>
      s.(offered := s.offered[svc.serviceId := svc],
      log := s.log + Notes(svc.serviceId, Listeners(s.subscribers, svc.serviceId), svc, true))
    case StopOffer(id) =>
      if id !in s.offered then s
      else s.(offered := s.offered - {id},
              log := s.log + Notes(id, Listeners(s.subscribers, id), s.offered[id], false))
    case Subscribe(id, cb) =>
      var cbs := Listeners(s.subscribers, id);
      s.(subscribers := s.subscribers[id := cbs + [cb]],
      log := s.log + if id in s.offered then [Note(id, |cbs|, cb, s.offered[id], true)] else [])
  }

  function Run(s: State, ops: seq<Operation>): State {
    if ops == [] then s else Apply(Run(s, ops[..|ops| - 1]), ops[|ops| - 1])
  }

  // ---------------------------------------------------------- implementation

  class SomeIpServiceDiscovery {
    var offeredServices: map<u16, Descriptor>
    var subscribers: map<u16, seq<Callback>>
    var log: seq<Note>  // the callbacks made, in order

    function Abstract(): State
      reads this
    {
      State(offeredServices, subscribers, log)
    }

    constructor ()
      ensures Abstract() == INITIAL
    {
      offeredServices, subscribers, log := map[], map[], [];
    }

    method Notify(id: u16, svc: Descriptor, available: bool)
      modifies this`log
      ensures log == old(log) + Notes(id, Listeners(subscribers, id), svc, available)
    {
      if id in subscribers {
        var cbs := subscribers[id];
        for n := 0 to |cbs|
          invariant log == old(log) + Notes(id, cbs[..n], svc, available)
        {
          assert cbs[..n + 1][..n] == cbs[..n];
          log := log + [Note(id, n, cbs[n], svc, available)];
        }
        assert cbs[..|cbs|] == cbs;
      }
    }

    method OfferService(svc: Descriptor)
      modifies this
      ensures Abstract() == Apply(old(Abstract()), Offer(svc))
    {
      offeredServices := offeredServices[svc.serviceId := svc];
      Notify(svc.serviceId, svc, true);
    }

    method StopOfferService(serviceId: u16)
      modifies this
      ensures Abstract() == Apply(old(Abstract()), StopOffer(serviceId))
    {
      if serviceId !in offeredServices {
        return;
      }
      var svc := offeredServices[serviceId];
      offeredServices := offeredServices - {serviceId};
      Notify(serviceId, svc, false);
    }

    method SubscribeServiceAvailability(serviceId: u16, cb: Callback)
      modifies this
      ensures Abstract() == Apply(old(Abstract()), Subscribe(serviceId, cb))
    {
      if serviceId !in subscribers {
        subscribers := subscribers[serviceId := []];
      }
      subscribers := subscribers[serviceId := subscribers[serviceId] + [cb]];
      if serviceId in offeredServices {
        var last := |subscribers[serviceId]| - 1;
        log := log + [Note(serviceId, last, subscribers[serviceId][last], offeredServices[serviceId], true)];
      }
    }
  }

  // -------------------------------------------------------------- properties

  /** The last note a subscription received. */
  ghost function View(log: seq<Note>, id: u16, slot: nat): Option<Note> {
    if log == [] then None
    else
      var last := log[|log| - 1];
      if last.serviceId == id && last.slot == slot then Some(last) else View(log[..|log| - 1], id, slot)
  }

  ghost predicate IsSubscription(s: State, id: u16, slot: nat) {
    id in s.subscribers && slot < |s.subscribers[id]|
  }

  /** The view is right: available with the registered descriptor iff registered, and it went to the right callback. */
  ghost predicate ViewIsRight(s: State, id: u16, slot: nat)
    requires IsSubscription(s, id, slot)
  {
    var v := View(s.log, id, slot);
    (if id in s.offered then v.Some? && v.value.available && v.value.svc == s.offered[id]
     else v.None? || !v.value.available) &&
    (v.Some? ==> v.value.callback == s.subscribers[id][slot])
  }

  ghost predicate Coherent(s: State) {
    && (forall id, slot | IsSubscription(s, id, slot) :: ViewIsRight(s, id, slot))
    && (forall i | 0 <= i < |s.log| :: IsSubscription(s, s.log[i].serviceId, s.log[i].slot))
    && (forall id | id in s.offered :: s.offered[id].serviceId == id)
  }

  lemma ViewSnoc(log: seq<Note>, n: Note, id: u16, slot: nat)
    ensures View(log + [n], id, slot) == if n.serviceId == id && n.slot == slot then Some(n) else View(log, id, slot)
  {
    assert (log + [n])[..|log|] == log;
  }

  lemma {:induction false} ViewAfterNotes(
    log: seq<Note>, id: u16, cbs: seq<Callback>, svc: Descriptor, available: bool, id': u16, slot: nat)
    ensures View(log + Notes(id, cbs, svc, available), id', slot) ==
            if id == id' && slot < |cbs| then Some(Note(id, slot, cbs[slot], svc, available)) else View(log, id', slot)
    decreases |cbs|
  {
    if cbs == [] {
      assert log + Notes(id, cbs, svc, available) == log;
    } else {
      var n := |cbs| - 1;
      var before, note := Notes(id, cbs[..n], svc, available), Note(id, n, cbs[n], svc, available);
      ViewAfterNotes(log, id, cbs[..n], svc, available, id', slot);
      assert log + Notes(id, cbs, svc, available) == (log + before) + [note];
      ViewSnoc(log + before, note, id', slot);
    }
  }

  lemma {:induction false} NotesAreAddressed(id: u16, cbs: seq<Callback>, svc: Descriptor, available: bool)
    ensures forall i | 0 <= i < |cbs| ::
              Notes(id, cbs, svc, available)[i].serviceId == id && Notes(id, cbs, svc, available)[i].slot == i
    decreases |cbs|
  {
    if cbs != [] {
      NotesAreAddressed(id, cbs[..|cbs| - 1], svc, available);
    }
  }

  /** A subscription that was never told anything has no view. */
  lemma {:induction false} NoNotesNoView(log: seq<Note>, id: u16, slot: nat)
    requires forall i | 0 <= i < |log| :: !(log[i].serviceId == id && log[i].slot == slot)
    ensures View(log, id, slot).None?
    decreases |log|
  {
    if log != [] {
      NoNotesNoView(log[..|log| - 1], id, slot);
    }
  }

  lemma PublishKeepsCoherent(s: State, offered: map<u16, Descriptor>, id: u16, svc: Descriptor, available: bool)
    requires Coherent(s) && svc.serviceId == id
    requires offered == if available then s.offered[id := svc] else s.offered - {id}
    ensures Coherent(s.(offered := offered, log := s.log + Notes(id, Listeners(s.subscribers, id), svc, available)))
  {
    hide Notes, View;
    var cbs := Listeners(s.subscribers, id);
    var t := s.(offered := offered, log := s.log + Notes(id, cbs, svc, available));
    NotesAreAddressed(id, cbs, svc, available);
    forall id', slot | IsSubscription(t, id', slot)
      ensures ViewIsRight(t, id', slot)
    {
      assert IsSubscription(s, id', slot) && ViewIsRight(s, id', slot);
      ViewAfterNotes(s.log, id, cbs, svc, available, id', slot);
    }
    forall i | 0 <= i < |t.log|
      ensures IsSubscription(t, t.log[i].serviceId, t.log[i].slot)
    {
      if i < |s.log| {
        assert IsSubscription(s, s.log[i].serviceId, s.log[i].slot);
      }
    }
  }

  lemma SubscribeKeepsCoherent(s: State, id: u16, cb: Callback)
    requires Coherent(s)
    ensures Coherent(Apply(s, Subscribe(id, cb)))
  {
    hide View;
    var cbs, t := Listeners(s.subscribers, id), Apply(s, Subscribe(id, cb));
    forall i | 0 <= i < |s.log|
      ensures !(s.log[i].serviceId == id && s.log[i].slot == |cbs|)
    {
      assert IsSubscription(s, s.log[i].serviceId, s.log[i].slot);
    }
    NoNotesNoView(s.log, id, |cbs|);
    assert s.log + [] == s.log;
    forall id', slot | IsSubscription(t, id', slot)
      ensures ViewIsRight(t, id', slot)
    {
      if id in s.offered {
        ViewSnoc(s.log, Note(id, |cbs|, cb, s.offered[id], true), id', slot);
      }
      if !(id' == id && slot == |cbs|) {
        assert IsSubscription(s, id', slot) && ViewIsRight(s, id', slot);
      }
    }
    forall i | 0 <= i < |t.log|
      ensures IsSubscription(t, t.log[i].serviceId, t.log[i].slot)
    {
      if i < |s.log| {
        assert IsSubscription(s, s.log[i].serviceId, s.log[i].slot);
      }
    }
  }

  lemma OperationKeepsCoherent(s: State, op: Operation)
    requires Coherent(s)
    ensures Coherent(Apply(s, op))
  {
    hide Coherent, Notes;
    match op
    case Offer(svc) => PublishKeepsCoherent(s, s.offered[svc.serviceId := svc], svc.serviceId, svc, true);
    case StopOffer(id) =>
      if id in s.offered {
        OfferedUnderOwnId(s, id);
        PublishKeepsCoherent(s, s.offered - {id}, id, s.offered[id], false);
      }
    case Subscribe(id, cb) => SubscribeKeepsCoherent(s, id, cb);
  }

  lemma OfferedUnderOwnId(s: State, id: u16)
    requires Coherent(s) && id in s.offered
    ensures s.offered[id].serviceId == id
  {
  }

  lemma {:induction false} RunKeepsCoherent(s: State, ops: seq<Operation>)
    requires Coherent(s)
    ensures Coherent(Run(s, ops))
    decreases |ops|
  {
    hide Coherent, Apply;
    if ops != [] {
      RunKeepsCoherent(s, ops[..|ops| - 1]);
      OperationKeepsCoherent(Run(s, ops[..|ops| - 1]), ops[|ops| - 1]);
    }
  }

  // ---------------------------------------------- what the operations amount to

  /** Read off the operations alone: the callbacks subscribed to an id, in order. */
  ghost function Subscriptions(ops: seq<Operation>, id: u16): seq<Callback> {
    if ops == [] then []
    else
      var op := ops[|ops| - 1];
      Subscriptions(ops[..|ops| - 1], id) + if op.Subscribe? && op.serviceId == id then [op.cb] else []
  }

  /** Read off the operations alone: the descriptor offered last for an id, unless its offer was stopped since. */
  ghost function Registered(ops: seq<Operation>, id: u16): Option<Descriptor> {
    if ops == [] then None
    else
      match ops[|ops| - 1]
      case Offer(svc) => if svc.serviceId == id then Some(svc) else Registered(ops[..|ops| - 1], id)
      case StopOffer(other) => if other == id then None else Registered(ops[..|ops| - 1], id)
      case Subscribe(_, _) => Registered(ops[..|ops| - 1], id)
  }

  /**
   Read off the operations alone: the calls the k-th subscription to an id is
   due. It is told at once if the id is offered then, and at every later offer,
   and at every later stop of an offer there is.
   */
  ghost function CallsDue(ops: seq<Operation>, id: u16, k: nat): seq<Note> {
    if ops == [] then []
    else
      var before := ops[..|ops| - 1];
      var cbs, now := Subscriptions(before, id), Registered(before, id);
      CallsDue(before, id, k) +
      match ops[|ops| - 1]
      case Offer(svc) =>
        if svc.serviceId == id && k < |cbs| then [Note(id, k, cbs[k], svc, true)] else []
      case StopOffer(other) =>
        if other == id && now.Some? && k < |cbs| then [Note(id, k, cbs[k], now.value, false)] else []
      case Subscribe(other, cb) =>
        if other == id && now.Some? && k == |cbs| then [Note(id, k, cb, now.value, true)] else []
  }

  /** The calls of one subscription among all calls. */
  ghost function Heard(log: seq<Note>, id: u16, slot: nat): seq<Note> {
    if log == [] then []
    else
      var last := log[|log| - 1];
      Heard(log[..|log| - 1], id, slot) + if last.serviceId == id && last.slot == slot then [last] else []
  }

  lemma HeardSnoc(log: seq<Note>, n: Note, id: u16, slot: nat)
    ensures Heard(log + [n], id, slot) == Heard(log, id, slot) + if n.serviceId == id && n.slot == slot then [n] else []
  {
    assert (log + [n])[..|log|] == log;
  }

  lemma {:induction false} HeardOfNotes(
    log: seq<Note>, id: u16, cbs: seq<Callback>, svc: Descriptor, available: bool, id': u16, slot: nat)
    ensures Heard(log + Notes(id, cbs, svc, available), id', slot) ==
            Heard(log, id', slot) +
            if id == id' && slot < |cbs| then [Note(id, slot, cbs[slot], svc, available)] else []
    decreases |cbs|
  {
    hide Heard;
    if cbs == [] {
      assert log + Notes(id, cbs, svc, available) == log;
    } else {
      var n := |cbs| - 1;
      var before, note := Notes(id, cbs[..n], svc, available), Note(id, n, cbs[n], svc, available);
      HeardOfNotes(log, id, cbs[..n], svc, available, id', slot);
      assert log + Notes(id, cbs, svc, available) == (log + before) + [note];
      HeardSnoc(log + before, note, id', slot);
    }
  }

  /** The registry and the subscriber lists are what the operations alone say. */
  lemma {:induction false} RegistryIsWhatWasOffered(ops: seq<Operation>, id: u16)
    ensures var s := Run(INITIAL, ops);
            && Registered(ops, id) == (if id in s.offered then Some(s.offered[id]) else None)
            && Listeners(s.subscribers, id) == Subscriptions(ops, id)
            && (id in s.subscribers ==> s.subscribers[id] == Subscriptions(ops, id))
    decreases |ops|
  {
    hide Notes;
    if ops != [] {
      RegistryIsWhatWasOffered(ops[..|ops| - 1], id);
    }
  }

  /** Every subscription hears exactly the calls it is due, once each and in order, and no other call is made to it. */
  lemma {:induction false} SubscribersHearWhatIsDue(ops: seq<Operation>, id: u16, k: nat)
    ensures Heard(Run(INITIAL, ops).log, id, k) == CallsDue(ops, id, k)
    decreases |ops|
  {
    if ops != [] {
      var before := ops[..|ops| - 1];
      SubscribersHearWhatIsDue(before, id, k);
      var s := Run(INITIAL, before);
      hide Run, Heard, Notes, Subscriptions, Registered;
      RegistryIsWhatWasOffered(before, id);
      match ops[|ops| - 1]
      case Offer(svc) =>
        HeardOfNotes(s.log, svc.serviceId, Listeners(s.subscribers, svc.serviceId), svc, true, id, k);
      case StopOffer(other) =>
        if other in s.offered {
          HeardOfNotes(s.log, other, Listeners(s.subscribers, other), s.offered[other], false, id, k);
        }
      case Subscribe(other, cb) =>
        assert s.log + [] == s.log;
        if other in s.offered {
          HeardSnoc(s.log, Note(other, |Listeners(s.subscribers, other)|, cb, s.offered[other], true), id, k);
        }
    }
  }

  /**
   After any operations, in any order, the k-th callback subscribed to an id has
   been told last "available with descriptor d" iff the id was offered last with
   d and not stopped since; being told nothing, or "unavailable" last, means the
   id is not offered. Reading the lists off the operations, it is a subscriber.
   */
  lemma SubscribersSeeTheRegistry(ops: seq<Operation>, id: u16, k: nat, d: Descriptor)
    requires k < |Subscriptions(ops, id)|
    ensures var s := Run(INITIAL, ops);
            var v := View(s.log, id, k);
            && IsSubscription(s, id, k)
            && (v.Some? && v.value.available && v.value.svc == d <==> Registered(ops, id) == Some(d))
            && (v.None? || !v.value.available <==> Registered(ops, id) == None)
            && (v.Some? ==> v.value.callback == Subscriptions(ops, id)[k])
  {
    hide Run, View, Subscriptions, Registered;
    assert Coherent(INITIAL);
    RunKeepsCoherent(INITIAL, ops);
    RegistryIsWhatWasOffered(ops, id);
    assert ViewIsRight(Run(INITIAL, ops), id, k);
  }
}
