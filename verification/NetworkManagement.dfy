/** Reference-counted logical networks and the handles that hold them. */
module NetworkManagement {
  import opened Common

  datatype NetworkState = BusSleep | PrepareBusSleep | Ready | Normal | Repeat | Error
  datatype RequestResult = Success | AlreadyRequested | NetworkUnknown | Failed

  type NetworkId = u16

  const ETH_IPC: NetworkId := 0x0001
  const ETH_EXTERNAL: NetworkId := 0x0002
  const ETH_DOIP: NetworkId := 0x0003
  const LOOPBACK: NetworkId := 0x00FF
  const KNOWN: set<NetworkId> := {ETH_IPC, ETH_EXTERNAL, ETH_DOIP, LOOPBACK}

  datatype Record = Record(state: NetworkState, refCount: u32)
  datatype Change = Change(id: NetworkId, from: NetworkState, to: NetworkState)

  /** The table of networks and the state callbacks made. */
  datatype Nm = Nm(networks: map<NetworkId, Record>, log: seq<Change>)

  /** Initialize only adds what is missing. */
  function Initialized(nm: Nm): Nm {
    nm.(networks := map id | id in KNOWN + nm.networks.Keys ::
      if id in nm.networks then nm.networks[id] else Record(BusSleep, 0))
  }

  function Requested(nm: Nm, id: NetworkId): (r: (Nm, RequestResult)) {
    if id !in nm.networks then (nm, NetworkUnknown)
    else
      var rec := nm.networks[id];
      var count := (rec.refCount + 1) % 0x1_0000_0000;
      if rec.refCount == 0 then
        (Nm(nm.networks[id := Record(Normal, count)], nm.log + [Change(id, rec.state, Normal)]), Success)
      else
        (nm.(networks := nm.networks[id := rec.(refCount := count)]), AlreadyRequested)
  }

  function Released(nm: Nm, id: NetworkId): (r: (Nm, RequestResult)) {
    if id !in nm.networks then (nm, NetworkUnknown)
    else
      var rec := nm.networks[id];
      if rec.refCount == 0 then (nm, Failed)
      else if rec.refCount == 1 then
        (Nm(nm.networks[id := Record(BusSleep, 0)], nm.log + [Change(id, rec.state, BusSleep)]), Success)
      else
        (nm.(networks := nm.networks[id := rec.(refCount := rec.refCount - 1)]), Success)
  }

  /** Shutdown clears the counts and makes no callback; the handles stay valid. */
  function ShutDown(nm: Nm): Nm {
    nm.(networks := map id | id in nm.networks :: Record(BusSleep, 0))
  }

  // ---------------------------------------------------------- implementation

  class Manager {
    var networks: map<NetworkId, Record>
    var log: seq<Change>

    function Abstract(): Nm
      reads this
    {
      Nm(networks, log)
    }

    constructor ()
      ensures Abstract() == Nm(map[], [])
    {
      networks, log := map[], [];
    }

    method AddNetwork(id: NetworkId)
      modifies this`networks
      ensures networks == if id in old(networks) then old(networks) else old(networks)[id := Record(BusSleep, 0)]
    {
      if id !in networks {
        networks := networks[id := Record(BusSleep, 0)];
      }
    }

    method Initialize()
      modifies this
      ensures Abstract() == Initialized(old(Abstract()))
    {
      AddNetwork(ETH_IPC);
      AddNetwork(ETH_EXTERNAL);
      AddNetwork(ETH_DOIP);
      AddNetwork(LOOPBACK);
    }

    method RequestNetwork(id: NetworkId) returns (result: RequestResult)
      modifies this
      ensures Abstract() == Requested(old(Abstract()), id).0 && result == Requested(old(Abstract()), id).1
    {
      if id !in networks {
        return NetworkUnknown;
      }
      var prev: nat := networks[id].refCount;
      networks := networks[id := networks[id].(refCount := (prev + 1) % 0x1_0000_0000)];
      if prev == 0 {
        var oldState := networks[id].state;
        networks := networks[id := networks[id].(state := Normal)];
        log := log + [Change(id, oldState, Normal)];
        return Success;
      } else {
        return AlreadyRequested;
      }
    }

    method ReleaseNetwork(id: NetworkId) returns (result: RequestResult)
      modifies this
      ensures Abstract() == Released(old(Abstract()), id).0 && result == Released(old(Abstract()), id).1
    {
      if id !in networks {
        return NetworkUnknown;
      }
      if networks[id].refCount == 0 {
        return Failed;
      }
      var prev := networks[id].refCount;
      networks := networks[id := networks[id].(refCount := prev - 1)];
      if prev == 1 {
        var oldState := networks[id].state;
        networks := networks[id := networks[id].(state := BusSleep)];
        log := log + [Change(id, oldState, BusSleep)];
      }
      result := Success;
    }

    method Shutdown()
      modifies this
      ensures Abstract() == ShutDown(old(Abstract()))
    {
      var todo := networks.Keys;
      while todo != {}
        invariant networks.Keys == old(networks).Keys && todo <= networks.Keys
        invariant forall id | id in networks ::
                    networks[id] == if id in todo then old(networks)[id] else Record(BusSleep, 0)
        invariant log == old(log)
        decreases |todo|
      {
        var id :| id in todo;
        networks := networks[id := Record(BusSleep, 0)];
        todo := todo - {id};
      }
    }
  }

  /** A handle requests its network when made and releases it when destroyed; a moved-from handle holds nothing. */
  class NetworkHandle {
    const networkId: NetworkId
    var valid: bool

    constructor (nm: Manager, id: NetworkId)
      modifies nm
      ensures networkId == id && nm.Abstract() == Requested(old(nm.Abstract()), id).0
      ensures valid <==> id in old(nm.networks)
    {
      networkId := id;
      valid := false;
      new;
      var result := nm.RequestNetwork(id);
      if result == Success || result == AlreadyRequested {
        valid := true;
      }
    }

    constructor Move(other: NetworkHandle)
      modifies other
      ensures networkId == other.networkId && valid == old(other.valid) && !other.valid
    {
      networkId := other.networkId;
      valid := other.valid;
      new;
      other.valid := false;
    }

    method Destroy(nm: Manager)
      modifies this, nm
      ensures !valid
      ensures nm.Abstract() == if old(valid) then Released(old(nm.Abstract()), networkId).0 else old(nm.Abstract())
    {
      if valid {
        var result := nm.ReleaseNetwork(networkId);
        valid := false;
      }
    }
  }

  // ---------------------------------------------------------- handles in runs

  datatype Handle = Handle(id: NetworkId, valid: bool)

  datatype World = World(nm: Nm, handles: seq<Handle>)

  datatype Operation =
    | Initialize
    | Create(id: NetworkId)
    | MoveFrom(source: nat)
    | Destroy(target: nat)
    | ShutdownAll

  /** The same effects on handles kept in a list; an index out of range names no handle and does nothing. */
  function Apply(w: World, op: Operation): World {
    match op
    case Initialize => w.(nm := Initialized(w.nm))
    case Create(id) => World(Requested(w.nm, id).0, w.handles + [Handle(id, id in w.nm.networks)])
    case MoveFrom(i) =>
      if i >= |w.handles| then w
      else w.(handles := w.handles[i := w.handles[i].(valid := false)] + [w.handles[i]])
    case Destroy(i) =>
      if i >= |w.handles| || !w.handles[i].valid then w
      else World(Released(w.nm, w.handles[i].id).0, w.handles[i := w.handles[i].(valid := false)])
    case ShutdownAll => w.(nm := ShutDown(w.nm))
  }

  function Run(w: World, ops: seq<Operation>): World {
    if ops == [] then w else Apply(Run(w, ops[..|ops| - 1]), ops[|ops| - 1])
  }

  function Holders(handles: seq<Handle>, id: NetworkId): nat {
    if handles == [] then 0
    else
      var h := handles[|handles| - 1];
      Holders(handles[..|handles| - 1], id) + if h.valid && h.id == id then 1 else 0
  }

  const EMPTY := World(Nm(map[], []), [])

  ghost predicate Counted(w: World) {
    && (forall id | id in w.nm.networks :: w.nm.networks[id].refCount == Holders(w.handles, id))
    && (forall i | 0 <= i < |w.handles| && w.handles[i].valid :: w.handles[i].id in w.nm.networks)
  }

  ghost predicate AwakeIffHeld(nm: Nm) {
    forall id | id in nm.networks :: nm.networks[id].state == if nm.networks[id].refCount > 0 then Normal else BusSleep
  }

  /**
   The changes of one network form a chain Normal, BusSleep, Normal, ... that
   starts from sleep and ends in its state.
   */
  ghost predicate Alternates(log: seq<Change>, id: NetworkId, last: NetworkState) {
    if log == [] then last == BusSleep
    else
      var c := log[|log| - 1];
      if c.id != id then Alternates(log[..|log| - 1], id, last)
      else c.to == last && ((c.from == BusSleep && c.to == Normal) || (c.from == Normal && c.to == BusSleep)) &&
           Alternates(log[..|log| - 1], id, c.from)
  }

  ghost predicate Logged(nm: Nm) {
    && (forall id | id in nm.networks :: Alternates(nm.log, id, nm.networks[id].state))
    && (forall id | id !in nm.networks :: Alternates(nm.log, id, BusSleep))
  }

  lemma HoldersSnoc(handles: seq<Handle>, h: Handle, id: NetworkId)
    ensures Holders(handles + [h], id) == Holders(handles, id) + if h.valid && h.id == id then 1 else 0
  {
    assert (handles + [h])[..|handles|] == handles;
  }

  lemma {:induction false} HoldersInvalidated(handles: seq<Handle>, i: nat, id: NetworkId)
    requires i < |handles|
    ensures Holders(handles[i := handles[i].(valid := false)], id) ==
            Holders(handles, id) - if handles[i].valid && handles[i].id == id then 1 else 0
    decreases |handles|
  {
    var n, t := |handles| - 1, handles[i := handles[i].(valid := false)];
    if i < n {
      HoldersInvalidated(handles[..n], i, id);
      assert t[..n] == handles[..n][i := handles[..n][i].(valid := false)];
    } else {
      assert t[..n] == handles[..n];
    }
  }

  lemma {:induction false} ValidIsHeld(handles: seq<Handle>, i: nat)
    requires i < |handles| && handles[i].valid
    ensures Holders(handles, handles[i].id) >= 1
    decreases |handles|
  {
    if i < |handles| - 1 {
      ValidIsHeld(handles[..|handles| - 1], i);
    }
  }

  lemma {:induction false} NoneHeldWhereUnknown(handles: seq<Handle>, id: NetworkId)
    requires forall i | 0 <= i < |handles| && handles[i].valid :: handles[i].id != id
    ensures Holders(handles, id) == 0
    decreases |handles|
  {
    if handles != [] {
      NoneHeldWhereUnknown(handles[..|handles| - 1], id);
    }
  }

  /** Creating the 2^32nd holder of a network is the one step that breaks the count. */
  ghost predicate Overflows(w: World, op: Operation) {
    op.Create? && op.id in w.nm.networks && Holders(w.handles, op.id) == 0xFFFF_FFFF
  }

  lemma CreateCounts(w: World, id: NetworkId)
    requires Counted(w)
    ensures Counted(Apply(w, Create(id))) <==> !Overflows(w, Create(id))
  {
    hide Holders;
    var t, h := Apply(w, Create(id)), Handle(id, id in w.nm.networks);
    forall id'
      ensures Holders(t.handles, id') == Holders(w.handles, id') + if h.valid && h.id == id' then 1 else 0
    {
      HoldersSnoc(w.handles, h, id');
    }
    if id in w.nm.networks {
      assert t.nm.networks[id].refCount == (Holders(w.handles, id) + 1) % 0x1_0000_0000;
    }
  }

  lemma MoveCounts(w: World, i: nat)
    requires Counted(w)
    ensures Counted(Apply(w, MoveFrom(i)))
  {
    hide Holders;
    if i < |w.handles| {
      var gone := w.handles[i := w.handles[i].(valid := false)];
      forall id
        ensures Holders(gone + [w.handles[i]], id) == Holders(w.handles, id)
      {
        HoldersInvalidated(w.handles, i, id);
        HoldersSnoc(gone, w.handles[i], id);
      }
    }
  }

  lemma DestroyCounts(w: World, i: nat)
    requires Counted(w)
    ensures Counted(Apply(w, Destroy(i)))
  {
    hide Holders;
    if i < |w.handles| && w.handles[i].valid {
      ValidIsHeld(w.handles, i);
      forall id
        ensures Holders(w.handles[i := w.handles[i].(valid := false)], id) ==
                Holders(w.handles, id) - if w.handles[i].id == id then 1 else 0
      {
        HoldersInvalidated(w.handles, i, id);
      }
    }
  }

  lemma InitializeCounts(w: World)
    requires Counted(w)
    ensures Counted(Apply(w, Initialize))
  {
    hide Holders;
    forall id | id in KNOWN && id !in w.nm.networks
      ensures Holders(w.handles, id) == 0
    {
      NoneHeldWhereUnknown(w.handles, id);
    }
  }

  ghost predicate AnyValid(handles: seq<Handle>) {
    exists i :: 0 <= i < |handles| && handles[i].valid
  }

  /** NM Shutdown keeps the count right exactly when nobody holds a handle. */
  lemma ShutdownCountsIff(w: World)
    requires Counted(w)
    ensures Counted(Apply(w, ShutdownAll)) <==> !AnyValid(w.handles)
  {
    hide Holders;
    if i :| 0 <= i < |w.handles| && w.handles[i].valid {
      ValidIsHeld(w.handles, i);
      assert Apply(w, ShutdownAll).nm.networks[w.handles[i].id].refCount == 0;
    } else {
      forall id
        ensures Holders(w.handles, id) == 0
      {
        NoneHeldWhereUnknown(w.handles, id);
      }
    }
  }

  ghost predicate Breaks(w: World, op: Operation) {
    Overflows(w, op) || (op.ShutdownAll? && AnyValid(w.handles))
  }

  /**
   A step keeps "count == number of valid handles" unless it is the 2^32nd
   request or an NM Shutdown over valid handles.
   */
  lemma StepCountsIff(w: World, op: Operation)
    requires Counted(w)
    ensures Counted(Apply(w, op)) <==> !Breaks(w, op)
  {
    hide Counted, Holders;
    match op
    case Initialize => InitializeCounts(w);
    case Create(id) => CreateCounts(w, id);
    case MoveFrom(i) => MoveCounts(w, i);
    case Destroy(i) => DestroyCounts(w, i);
    case ShutdownAll => ShutdownCountsIff(w);
  }

  lemma StepLogs(w: World, op: Operation)
    requires Counted(w) && AwakeIffHeld(w.nm) && Logged(w.nm) && !Breaks(w, op)
    ensures AwakeIffHeld(Apply(w, op).nm) && Logged(Apply(w, op).nm)
  {
    hide Holders, Alternates;
    StepKeepsAwakeIff(w, op);
    if op.ShutdownAll? {
      forall id
        ensures Holders(w.handles, id) == 0
      {
        NoneHeldWhereUnknown(w.handles, id);
      }
      assert Apply(w, op).nm.networks == w.nm.networks;
    } else if Apply(w, op).nm.log != w.nm.log {
      NewChangeAlternates(w.nm, Apply(w, op).nm);
    }
  }

  /** One more change, of one known network, from its state to the other of Normal and BusSleep. */
  lemma NewChangeAlternates(nm: Nm, t: Nm)
    requires Logged(nm) && AwakeIffHeld(nm) && AwakeIffHeld(t) && t.networks.Keys == nm.networks.Keys
    requires |t.log| == |nm.log| + 1 && t.log[..|nm.log|] == nm.log
    requires var c := t.log[|nm.log|];
             c.id in nm.networks && c.from == nm.networks[c.id].state != c.to &&
             t.networks == nm.networks[c.id := t.networks[c.id]] && t.networks[c.id].state == c.to
    ensures Logged(t)
  {
  }

  ghost predicate NeverBreaks(w: World, ops: seq<Operation>) {
    ops == [] ||
    (NeverBreaks(w, ops[..|ops| - 1]) && !Breaks(Run(w, ops[..|ops| - 1]), ops[|ops| - 1]))
  }

  /**
   In every run of handles, moves included, in which no network gets 2^32
   holders and NM is not shut down over a valid handle: the count of a network
   is the number of its valid handles, it is awake iff it has one, and its
   callbacks alternate with chained states.
   */
  lemma {:induction false} EveryRunCounts(w: World, ops: seq<Operation>)
    requires Counted(w) && AwakeIffHeld(w.nm) && Logged(w.nm) && NeverBreaks(w, ops)
    ensures var t := Run(w, ops); Counted(t) && AwakeIffHeld(t.nm) && Logged(t.nm)
    decreases |ops|
  {
    hide Counted, AwakeIffHeld, Logged, Apply, Breaks;
    if ops != [] {
      EveryRunCounts(w, ops[..|ops| - 1]);
      StepCountsIff(Run(w, ops[..|ops| - 1]), ops[|ops| - 1]);
      StepLogs(Run(w, ops[..|ops| - 1]), ops[|ops| - 1]);
    }
  }

  lemma EmptyCounts()
    ensures Counted(EMPTY) && AwakeIffHeld(EMPTY.nm) && Logged(EMPTY.nm)
  {
  }

  lemma EveryRunFromEmptyCounts(ops: seq<Operation>)
    requires NeverBreaks(EMPTY, ops)
    ensures var t := Run(EMPTY, ops); Counted(t) && AwakeIffHeld(t.nm) && Logged(t.nm)
  {
    EmptyCounts();
    EveryRunCounts(EMPTY, ops);
  }

  // ------------------------------------------- runs in which NM is shut down

  /** A request that finds the count at 2^32 - 1 sets it to 0 and leaves the network Normal. */
  ghost predicate Wraps(nm: Nm, op: Operation) {
    op.Create? && op.id in nm.networks && nm.networks[op.id].refCount == 0xFFFF_FFFF
  }

  /** Whatever the handles, NM Shutdown included, a step keeps "Normal iff count > 0" unless the count wraps. */
  lemma StepKeepsAwakeIff(w: World, op: Operation)
    requires AwakeIffHeld(w.nm)
    ensures AwakeIffHeld(Apply(w, op).nm) <==> !Wraps(w.nm, op)
  {
    if op.Create? && op.id in w.nm.networks {
      var rec, t := w.nm.networks[op.id], Requested(w.nm, op.id).0;
      assert t.networks[op.id].state == Normal;
      assert t.networks[op.id].refCount == (rec.refCount + 1) % 0x1_0000_0000;
    }
  }

  ghost predicate NeverWraps(w: World, ops: seq<Operation>) {
    ops == [] ||
    (NeverWraps(w, ops[..|ops| - 1]) && !Wraps(Run(w, ops[..|ops| - 1]).nm, ops[|ops| - 1]))
  }

  /** The count never exceeds the number of valid handles, and a valid handle names a known network. */
  ghost predicate AtMostHeld(w: World) {
    && (forall id | id in w.nm.networks :: w.nm.networks[id].refCount <= Holders(w.handles, id))
    && (forall i | 0 <= i < |w.handles| && w.handles[i].valid :: w.handles[i].id in w.nm.networks)
  }

  lemma StepKeepsAtMostHeld(w: World, op: Operation)
    requires AtMostHeld(w)
    ensures AtMostHeld(Apply(w, op))
  {
    hide Holders;
    match op
    case Create(id) =>
      var h := Handle(id, id in w.nm.networks);
      forall id'
        ensures Holders(w.handles + [h], id') == Holders(w.handles, id') + if h.valid && h.id == id' then 1 else 0
      {
        HoldersSnoc(w.handles, h, id');
      }
    case MoveFrom(i) =>
      if i < |w.handles| {
        var gone := w.handles[i := w.handles[i].(valid := false)];
        forall id
          ensures Holders(gone + [w.handles[i]], id) == Holders(w.handles, id)
        {
          HoldersInvalidated(w.handles, i, id);
          HoldersSnoc(gone, w.handles[i], id);
        }
      }
    case Destroy(i) =>
      if i < |w.handles| && w.handles[i].valid {
        forall id
          ensures Holders(w.handles[i := w.handles[i].(valid := false)], id) ==
                  Holders(w.handles, id) - if w.handles[i].id == id then 1 else 0
        {
          HoldersInvalidated(w.handles, i, id);
        }
      }
    case _ =>
  }

  /**
   In every run, NM Shutdowns over valid handles included: no count exceeds
   the number of valid handles; and as long as no count wraps, a network is
   Normal iff its count is positive, so one that nobody holds is asleep.
   */
  lemma {:induction false} EveryRunSleepsUnheld(w: World, ops: seq<Operation>)
    requires AtMostHeld(w) && AwakeIffHeld(w.nm)
    ensures AtMostHeld(Run(w, ops))
    ensures NeverWraps(w, ops) ==> AwakeIffHeld(Run(w, ops).nm)
    ensures NeverWraps(w, ops) ==>
              forall id | id in Run(w, ops).nm.networks && Holders(Run(w, ops).handles, id) == 0 ::
                Run(w, ops).nm.networks[id].state == BusSleep
    decreases |ops|
  {
    hide Apply, Wraps, Holders;
    if ops != [] {
      EveryRunSleepsUnheld(w, ops[..|ops| - 1]);
      StepKeepsAtMostHeld(Run(w, ops[..|ops| - 1]), ops[|ops| - 1]);
      if NeverWraps(w, ops) {
        StepKeepsAwakeIff(Run(w, ops[..|ops| - 1]), ops[|ops| - 1]);
      }
    }
  }

  /**
   The converse fails after NM Shutdown: a handle made before it releases what
   a handle made after it holds, and the network sleeps under the new holder.
   */
  lemma StaleHandlePutsToSleep(w: World, i: nat)
    requires Counted(w) && i < |w.handles| && w.handles[i].valid
    ensures var id := w.handles[i].id;
            var t := Run(w, [ShutdownAll, Create(id), Destroy(i)]);
            && id in t.nm.networks && t.nm.networks[id] == Record(BusSleep, 0)
            && |t.handles| == |w.handles| + 1 && t.handles[|w.handles|] == Handle(id, true)
  {
    var id := w.handles[i].id;
    var ops := [ShutdownAll, Create(id), Destroy(i)];
    assert ops[..2] == [ShutdownAll, Create(id)] && ops[..2][..1] == [ShutdownAll] && [ShutdownAll][..0] == [];
    var a := Apply(w, ShutdownAll);
    assert Run(w, [ShutdownAll]) == a;
    var b := Apply(a, Create(id));
    assert Run(w, ops[..2]) == b;
    assert b.nm.networks[id] == Record(Normal, 1) && b.handles[i] == w.handles[i];
    assert Run(w, ops) == Apply(b, Destroy(i));
  }

  /** Initialising leaves exactly the ids 1, 2, 3 and 0xFF more, asleep and unheld, and the rest as it was. */
  lemma InitializeAdds(nm: Nm)
    ensures var t := Initialized(nm);
            && t.networks.Keys == nm.networks.Keys + {0x0001, 0x0002, 0x0003, 0x00FF} && t.log == nm.log
            && forall id | id in t.networks ::
                 t.networks[id] == if id in nm.networks then nm.networks[id] else Record(BusSleep, 0)
  {
  }

  /** What request and release answer, and when they call back, by the table and the number of valid handles. */
  lemma ResultsTell(w: World, id: NetworkId)
    requires Counted(w) && AwakeIffHeld(w.nm)
    ensures var (t, r) := Requested(w.nm, id);
            if id !in w.nm.networks then r == NetworkUnknown && t == w.nm
            else if Holders(w.handles, id) == 0 then r == Success && t.log == w.nm.log + [Change(id, BusSleep, Normal)]
            else r == AlreadyRequested && t.log == w.nm.log
    ensures var (t, r) := Released(w.nm, id);
            if id !in w.nm.networks then r == NetworkUnknown && t == w.nm
            else if Holders(w.handles, id) == 0 then r == Failed && t == w.nm
            else
              && r == Success && t.networks[id].refCount == Holders(w.handles, id) - 1
              && t.log == w.nm.log + if Holders(w.handles, id) == 1 then [Change(id, Normal, BusSleep)] else []
  {
    hide Holders;
    assert w.nm.log + [] == w.nm.log;
  }

  /** Replacing a held handle makes the new one first, so the network never sleeps in between. */
  lemma ReplacingNeverSleeps(nm: Nm, id: NetworkId)
    requires id in nm.networks && AwakeIffHeld(nm) && 0 < nm.networks[id].refCount < 0xFFFF_FFFF
    ensures var a := Requested(nm, id).0; var b := Released(a, id).0;
            a.networks[id].state == Normal && b == nm
  {
    var a := Requested(nm, id).0;
    assert a.networks[id := nm.networks[id]] == nm.networks;
  }
}
