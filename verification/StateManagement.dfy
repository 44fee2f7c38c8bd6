/** Machine states, function groups and the requests that change them. */
module StateManagement {
  datatype MachineState = Startup | Driving | Parked | Charging | Shutdown | Error
  datatype GroupState = Off | On | Suspend | Diag
  datatype TransitionResult = Success | Rejected | Timeout | InvalidState | InProgress

  predicate IsValidTransition(from: MachineState, to: MachineState) {
    if to == Shutdown then true
    else if to == Error then true
    else match from
      case Startup => to == Driving || to == Parked
      case Driving => to == Parked
      case Parked => to == Driving || to == Charging
      case Charging => to == Parked
      case _ => false
  }

  function AfterRequest(current: MachineState, target: MachineState): (MachineState, TransitionResult) {
    if current == target then (current, Success)
    else if !IsValidTransition(current, target) then (current, Rejected)
    else (target, Success)
  }

  datatype Change = Change(from: MachineState, to: MachineState)

  /** The machine state, the registered groups, and the machine state callbacks made. */
  datatype Machine = Machine(state: MachineState, groups: map<string, GroupState>, log: seq<Change>)

  function Requested(m: Machine, target: MachineState): Machine {
    var next := AfterRequest(m.state, target).0;
    if next == m.state then m else m.(state := next, log := m.log + [Change(m.state, next)])
  }

  function GroupRequested(m: Machine, name: string, target: GroupState): Machine {
    if name in m.groups then m.(groups := m.groups[name := target]) else m
  }

  /** The four default groups are registered, switched off, replacing whatever had their names. */
  function Initialized(m: Machine): Machine {
    m.(groups := m.groups["DriveAssist" := Off]["Infotainment" := Off]["Diagnostic" := Off]["OTA" := Off])
  }

  // ---------------------------------------------------------- implementation

  class FunctionGroup {
    const name: string
    var state: GroupState
    var log: seq<(GroupState, GroupState)>  // the group state callbacks made

    constructor (name: string, initial: GroupState)
      ensures this.name == name && state == initial && log == []
    {
      this.name, state, log := name, initial, [];
    }

    method RequestStateChange(target: GroupState) returns (result: TransitionResult)
      modifies this
      ensures state == target && result == Success
      ensures log == if old(state) == target then old(log) else old(log) + [(old(state), target)]
    {
      if state == target {
        return Success;
      }
      log := log + [(state, target)];
      state := target;
      result := Success;
    }
  }

  class Manager {
    var currentState: MachineState
    var functionGroups: map<string, FunctionGroup>
    var log: seq<Change>  // the machine state callbacks made

    /** Groups are kept under their own names, so distinct entries are distinct objects. */
    ghost predicate Valid()
      reads this
    {
      forall n | n in functionGroups :: functionGroups[n].name == n
    }

    ghost function Abstract(): Machine
      reads this, functionGroups.Values
    {
      Machine(currentState, map n | n in functionGroups :: functionGroups[n].state, log)
    }

    constructor ()
      ensures Valid() && Abstract() == Machine(Startup, map[], [])
    {
      currentState, functionGroups, log := Startup, map[], [];
    }

    method RequestMachineStateChange(target: MachineState) returns (result: TransitionResult)
      modifies this`currentState, this`log
      ensures Abstract() == Requested(old(Abstract()), target)
      ensures result == Success <==> currentState == target
      ensures result == Rejected <==> currentState != target
    {
      var current := currentState;
      if current == target {
        return Success;
      }
      if !IsValidTransition(current, target) {
        return Rejected;
      }
      currentState := target;
      log := log + [Change(current, target)];
      result := Success;
    }

    method TriggerErrorState()
      modifies this`currentState, this`log
      ensures Abstract() == Requested(old(Abstract()), Error) && currentState == Error
    {
      var result := RequestMachineStateChange(Error);
    }

    method RegisterFunctionGroup(fg: FunctionGroup)
      requires Valid()
      modifies this`functionGroups
      ensures Valid() && functionGroups == old(functionGroups)[fg.name := fg]
      ensures Abstract() == old(Abstract()).(groups := old(Abstract()).groups[fg.name := fg.state])
    {
      functionGroups := functionGroups[fg.name := fg];
    }

    method GetFunctionGroup(name: string) returns (fg: FunctionGroup?)
      ensures fg == if name in functionGroups then functionGroups[name] else null
    {
      fg := if name in functionGroups then functionGroups[name] else null;
    }

    /** Looking a group up and asking it for a state. */
    method RequestGroup(name: string, target: GroupState)
      requires Valid()
      modifies functionGroups.Values
      ensures Valid() && Abstract() == GroupRequested(old(Abstract()), name, target)
    {
      var fg := GetFunctionGroup(name);
      if fg != null {
        var result := fg.RequestStateChange(target);
      }
    }

    method Initialize()
      requires Valid()
      modifies this`functionGroups
      ensures Valid() && Abstract() == Initialized(old(Abstract()))
    {
      var driveAssist := new FunctionGroup("DriveAssist", Off);
      var infotainment := new FunctionGroup("Infotainment", Off);
      var diagnostic := new FunctionGroup("Diagnostic", Off);
      var ota := new FunctionGroup("OTA", Off);
      ghost var was := Abstract();
      RegisterFunctionGroup(driveAssist);
      RegisterFunctionGroup(infotainment);
      assert Abstract() == was.(groups := was.groups["DriveAssist" := Off]["Infotainment" := Off]);
      RegisterFunctionGroup(diagnostic);
      RegisterFunctionGroup(ota);
    }
  }

  // -------------------------------------------------------------- properties

  predicate Stopped(s: MachineState) {
    s == Error || s == Shutdown
  }

  function AfterRequests(s: MachineState, targets: seq<MachineState>): MachineState
    decreases |targets|
  {
    if targets == [] then s else AfterRequests(AfterRequest(s, targets[0]).0, targets[1..])
  }

  lemma {:induction false} RequestsNeverResume(s: MachineState, targets: seq<MachineState>)
    ensures Stopped(s) ==> Stopped(AfterRequests(s, targets))
    ensures AfterRequests(s, targets) == Startup ==> s == Startup
    decreases |targets|
  {
    if targets != [] {
      RequestsNeverResume(AfterRequest(s, targets[0]).0, targets[1..]);
    }
  }

  /**
   Some sequence of requests leads from s to t iff t is s, or t is not Startup
   and s is not stopped unless t is: the stopped states are never left, Startup
   is never re-entered, and everything else can be reached.
   */
  lemma ReachableIff(s: MachineState, t: MachineState)
    ensures (exists targets :: AfterRequests(s, targets) == t) <==>
            s == t || (t != Startup && (Stopped(s) ==> Stopped(t)))
  {
    if targets :| AfterRequests(s, targets) == t {
      RequestsNeverResume(s, targets);
    }
    if s == t || (t != Startup && (Stopped(s) ==> Stopped(t))) {
      var targets := WayTo(s, t);
    }
  }

  lemma WayTo(s: MachineState, t: MachineState) returns (targets: seq<MachineState>)
    requires s == t || (t != Startup && (Stopped(s) ==> Stopped(t)))
    ensures 1 <= |targets| <= 2 && AfterRequests(s, targets) == t
  {
    hide AfterRequests;
    if s == t || Stopped(t) {
      OneRequest(s, t);
      targets := [t];
    } else {
      TwoRequests(s, Parked, t);
      targets := [Parked, t];
    }
  }

  /**
   One request leads from every state to the stopped ones, from Parked to the
   other running states and back, and from Startup to Parked or Driving; where
   requests lead at all, two are enough.
   */
  lemma OneRequestIff(s: MachineState, t: MachineState)
    requires s != t
    ensures (exists targets :: |targets| == 1 && AfterRequests(s, targets) == t) <==>
            || t == Error || t == Shutdown
            || (t == Parked && (s == Startup || s == Driving || s == Charging))
            || (s == Parked && (t == Driving || t == Charging))
            || (s == Startup && t == Driving)
    ensures (exists targets :: AfterRequests(s, targets) == t) <==>
            (exists targets :: 1 <= |targets| <= 2 && AfterRequests(s, targets) == t)
  {
    if targets :| |targets| == 1 && AfterRequests(s, targets) == t {
      assert targets == [targets[0]];
      OneRequest(s, targets[0]);
    }
    OneRequest(s, t);
    if AfterRequest(s, t).0 == t {
      assert |[t]| == 1 && AfterRequests(s, [t]) == t;
    }
    if targets :| AfterRequests(s, targets) == t {
      RequestsNeverResume(s, targets);
      var way := WayTo(s, t);
    }
  }

  /** Initialising leaves exactly four more names, all switched off, and nothing else changed. */
  lemma InitializedMeans(m: Machine)
    ensures var t := Initialized(m);
            && t.groups.Keys == m.groups.Keys + {"DriveAssist", "Infotainment", "Diagnostic", "OTA"}
            && t.state == m.state && t.log == m.log
            && forall n | n in t.groups ::
                 t.groups[n] ==
                 if n == "DriveAssist" || n == "Infotainment" || n == "Diagnostic" || n == "OTA" then Off
                 else m.groups[n]
  {
  }

  lemma TwoRequests(s: MachineState, via: MachineState, t: MachineState)
    ensures AfterRequests(s, [via, t]) == AfterRequest(AfterRequest(s, via).0, t).0
  {
    assert [via, t][1..] == [t];
    OneRequest(AfterRequest(s, via).0, t);
  }

  lemma OneRequest(s: MachineState, t: MachineState)
    ensures AfterRequests(s, [t]) == AfterRequest(s, t).0
  {
    assert [t][1..] == [];
  }

  /** The callbacks are one path of valid transitions from Startup to the current state. */
  ghost predicate IsPath(log: seq<Change>, state: MachineState) {
    && (forall i | 0 <= i < |log| :: log[i].from != log[i].to && IsValidTransition(log[i].from, log[i].to))
    && (forall i | 0 < i < |log| :: log[i].from == log[i - 1].to)
    && (if log == [] then state == Startup else log[0].from == Startup && log[|log| - 1].to == state)
  }

  lemma RequestKeepsPath(m: Machine, target: MachineState)
    requires IsPath(m.log, m.state)
    ensures IsPath(Requested(m, target).log, Requested(m, target).state)
  {
  }
}
