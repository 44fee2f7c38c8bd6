/** The safety monitor: health verdicts and MCU reports drive a level that only rises and acts on the machine. */
module SafetyMonitor {
  import opened Common
  import SM = StateManagement
  import PHM = HealthManagement

  const SELF := "SafetyMonitorService"

  /** The level byte comes off the wire and may exceed 4. */
  datatype McuStatus = McuStatus(safetyLevel: u8, asilDViolation: bool)

  datatype State = State(level: u8, mcu: McuStatus, machine: SM.Machine, log: seq<u8>)

  function Acted(m: SM.Machine, level: u8): SM.Machine {
    if level == 1 then SM.GroupRequested(m, "Infotainment", SM.Off)
    else if level == 2 then
      SM.Requested(SM.GroupRequested(SM.GroupRequested(m, "Infotainment", SM.Off), "OTA", SM.Off), SM.Parked)
    else if level == 3 || level == 4 then SM.Requested(SM.Requested(m, SM.Error), SM.Shutdown)
    else m
  }

  function Escalated(s: State, newLevel: u8): State {
    if newLevel <= s.level then s
    else s.(level := newLevel, machine := Acted(s.machine, newLevel), log := s.log + [newLevel])
  }

  /** The level a periodic check asks for. The monitor's own checkpoint comes before the verdict. */
  function Demand(mcu: McuStatus, entities: PHM.Entities): Option<u8> {
    match PHM.WorstOf(PHM.Reported(entities, SELF))
    case GExpired => Some(3)
    case GFailed => Some(2)
    case _ =>
      if mcu.asilDViolation then Some(4)
      else if mcu.safetyLevel >= 2 then Some(mcu.safetyLevel)
      else None
  }

  function Obeyed(s: State, demand: Option<u8>): State {
    if demand.Some? then Escalated(s, demand.value) else s
  }

  // ---------------------------------------------------------- implementation

  class SafetyMonitorServiceSWC {
    const sm: SM.Manager
    const phm: PHM.PlatformHealthManagement
    var currentLevel: u8
    var lastMcuStatus: McuStatus
    var log: seq<u8>  // the level callbacks made
    var running: bool
    var supervised: bool  // it has its entity with the health manager

    ghost function Abstract(): State
      reads this, sm, sm.functionGroups.Values
    {
      State(currentLevel, lastMcuStatus, sm.Abstract(), log)
    }

    constructor (sm: SM.Manager, phm: PHM.PlatformHealthManagement, mcu: McuStatus)
      ensures this.sm == sm && this.phm == phm && Abstract() == State(0, mcu, sm.Abstract(), [])
      ensures !running && !supervised
    {
      this.sm, this.phm := sm, phm;
      currentLevel, lastMcuStatus, log, running, supervised := 0, mcu, [], false, false;
    }

    /**
     A second time, the new entity is made, and refused as known, before the
     old one goes and takes the name along.
     */
    method Supervise()
      modifies this`supervised, phm`entities
      ensures supervised
      ensures phm.entities ==
              if old(supervised) then old(phm.entities) - {SELF}
              else if SELF in old(phm.entities) then old(phm.entities)
              else old(phm.entities)[SELF := PHM.Ok]
    {
      var added := phm.RegisterEntity(SELF);
      if supervised {
        phm.UnregisterEntity(SELF);
      }
      supervised := true;
    }

    method Init() returns (ok: bool)
      requires sm.Valid()
      modifies this`supervised, sm`functionGroups, phm
      ensures ok && sm.Valid() && phm.running && supervised
      ensures phm.entities ==
              if old(supervised) then old(phm.entities) - {SELF}
              else if SELF in old(phm.entities) then old(phm.entities)
              else old(phm.entities)[SELF := PHM.Ok]
      ensures Abstract() == old(Abstract()).(machine := SM.Initialized(old(sm.Abstract())))
    {
      Supervise();
      sm.Initialize();
      phm.Start();
      ok := true;
    }

    method ExecuteSafetyAction(level: u8)
      requires sm.Valid()
      modifies sm`currentState, sm`log, sm.functionGroups.Values
      ensures sm.Valid() && sm.Abstract() == Acted(old(sm.Abstract()), level)
    {
      if level == 1 {
        sm.RequestGroup("Infotainment", SM.Off);
      } else if level == 2 {
        sm.RequestGroup("Infotainment", SM.Off);
        sm.RequestGroup("OTA", SM.Off);
        var result := sm.RequestMachineStateChange(SM.Parked);
      } else if level == 3 || level == 4 {
        sm.TriggerErrorState();
        var result := sm.RequestMachineStateChange(SM.Shutdown);
      }
    }

    method EscalateSafetyLevel(newLevel: u8)
      requires sm.Valid()
      modifies this, sm`currentState, sm`log, sm.functionGroups.Values
      ensures sm.Valid() && Abstract() == Escalated(old(Abstract()), newLevel)
      ensures running == old(running) && supervised == old(supervised)
    {
      var current := currentLevel;
      if newLevel <= current {
        return;
      }
      currentLevel := newLevel;
      ExecuteSafetyAction(newLevel);
      log := log + [newLevel];
    }

    method PeriodicSafetyCheck()
      requires sm.Valid() && supervised
      modifies this, phm`entities, sm`currentState, sm`log, sm.functionGroups.Values
      ensures sm.Valid() && phm.entities == PHM.Reported(old(phm.entities), SELF)
      ensures running == old(running) && supervised
      ensures Abstract() == Obeyed(old(Abstract()), Demand(old(lastMcuStatus), old(phm.entities)))
    {
      phm.ReportCheckpoint(SELF, 0x01);
      var phmStatus := phm.GetGlobalStatus();
      if phmStatus == PHM.GExpired {
        EscalateSafetyLevel(3);
        return;
      }
      if phmStatus == PHM.GFailed {
        EscalateSafetyLevel(2);
        return;
      }
      var mcuStatus := lastMcuStatus;
      if mcuStatus.asilDViolation {
        EscalateSafetyLevel(4);
        return;
      }
      if mcuStatus.safetyLevel >= 2 {
        EscalateSafetyLevel(mcuStatus.safetyLevel);
      }
    }

    method OnMcuSafetyStatus(status: McuStatus)
      modifies this
      ensures Abstract() == old(Abstract()).(mcu := status) && running == old(running) && supervised == old(supervised)
    {
      lastMcuStatus := status;
    }

    method Shutdown()
      requires sm.Valid()
      modifies this, phm`running, sm`currentState, sm`log, sm.functionGroups.Values
      ensures sm.Valid() && Abstract() == Escalated(old(Abstract()), 3)
      ensures !running && !phm.running && supervised == old(supervised)
    {
      running := false;
      EscalateSafetyLevel(3);
      phm.Stop();
    }
  }

  // --------------------------------------------------------------------- runs

  /** Checks against arbitrary entity tables, MCU reports, and whatever other clients ask the state manager for. */
  datatype Step =
    | Check(entities: PHM.Entities)
    | Report(status: McuStatus)
    | StopMonitor
    | ClientMachine(target: SM.MachineState)
    | ClientGroup(name: string, group: SM.GroupState)
    | ClientRegister(name: string, group: SM.GroupState)
    | ClientInitialize

  function Apply(s: State, step: Step): State {
    match step
    case Check(entities) => Obeyed(s, Demand(s.mcu, entities))
    case Report(status) => s.(mcu := status)
    case StopMonitor => Escalated(s, 3)
    case ClientMachine(target) => s.(machine := SM.Requested(s.machine, target))
    case ClientGroup(name, target) => s.(machine := SM.GroupRequested(s.machine, name, target))
    case ClientRegister(name, g) => s.(machine := s.machine.(groups := s.machine.groups[name := g]))
    case ClientInitialize => s.(machine := SM.Initialized(s.machine))
  }

  function Run(s: State, steps: seq<Step>): State
    decreases |steps|
  {
    if steps == [] then s else Run(Apply(s, steps[0]), steps[1..])
  }

  /** Reported level bytes are at most top. */
  predicate Reportable(step: Step, top: nat) {
    step.Report? ==> step.status.safetyLevel <= top
  }

  // -------------------------------------------------------------------- latch

  ghost predicate Latched(s: State) {
    s.level >= 3 ==> SM.Stopped(s.machine.state)
  }

  ghost predicate InRange(s: State) {
    s.level <= 4 && s.mcu.safetyLevel <= 4
  }

  /**
   Escalating keeps the latch iff the level asked for has an action, or
   changes nothing, or the machine is stopped already.
   */
  lemma EscalationLatchesIff(s: State, newLevel: u8)
    requires Latched(s)
    ensures Latched(Escalated(s, newLevel)) <==>
            newLevel <= 4 || newLevel <= s.level || SM.Stopped(s.machine.state)
  {
  }

  lemma {:induction false} LevelAboveFourMutesTheMonitor(s: State, steps: seq<Step>)
    requires s.level > 4 && forall i | 0 <= i < |steps| :: Reportable(steps[i], 4)
    requires s.mcu.safetyLevel <= 4
    ensures Run(s, steps).level == s.level && Run(s, steps).log == s.log
    decreases |steps|
  {
    hide Acted;
    if steps != [] {
      LevelAboveFourMutesTheMonitor(Apply(s, steps[0]), steps[1..]);
    }
  }

  /** Levels 3 and 4 leave the machine in Shutdown, whatever it was in. */
  lemma SafeStopShutsDown(s: State, newLevel: u8)
    requires s.level < newLevel && 3 <= newLevel <= 4
    ensures Escalated(s, newLevel).machine.state == SM.Shutdown
    ensures Escalated(s, newLevel).machine.groups == s.machine.groups
  {
  }

  /** Level 1, which no run asks for, switches Infotainment off; level 0 and the levels above 4 do nothing. */
  lemma OtherActions(m: SM.Machine, level: u8)
    requires level < 2 || level > 4
    ensures var t := Acted(m, level);
            && t.state == m.state && t.log == m.log && t.groups.Keys == m.groups.Keys
            && forall n | n in m.groups ::
                 t.groups[n] == if level == 1 && n == "Infotainment" then SM.Off else m.groups[n]
  {
  }

  lemma MinRiskParks(s: State)
    requires s.level < 2
    ensures MinRisk(s.machine, Escalated(s, 2).machine)
  {
    var m0 := s.machine;
    var m1 := SM.GroupRequested(m0, "Infotainment", SM.Off);
    var m2 := SM.GroupRequested(m1, "OTA", SM.Off);
    assert m1.groups.Keys == m0.groups.Keys && m2.groups.Keys == m1.groups.Keys;
    assert Escalated(s, 2).machine == SM.Requested(m2, SM.Parked);
  }

  lemma StepKeepsLatch(s: State, step: Step)
    requires Latched(s) && InRange(s) && Reportable(step, 4)
    ensures Latched(Apply(s, step)) && InRange(Apply(s, step))
    ensures Apply(s, step).level >= s.level
    ensures Apply(s, step).machine.state == SM.Startup ==> s.machine.state == SM.Startup
  {
  }

  /**
   In every run with reported levels in 0..4, whatever other clients ask for:
   from the moment the level is 3 or more the machine is in Error or Shutdown,
   at every later step too; the level never falls; Startup is never re-entered.
   */
  lemma {:induction false} SafeStopIsForever(s: State, steps: seq<Step>, k: nat)
    requires Latched(s) && InRange(s) && k <= |steps|
    requires forall i | 0 <= i < |steps| :: Reportable(steps[i], 4)
    ensures var mid, end := Run(s, steps[..k]), Run(s, steps);
            Latched(mid) && Latched(end) && InRange(end) && s.level <= mid.level <= end.level &&
            (mid.level >= 3 ==> SM.Stopped(end.machine.state)) &&
            (end.machine.state == SM.Startup ==> mid.machine.state == SM.Startup) &&
            (mid.machine.state == SM.Startup ==> s.machine.state == SM.Startup)
    decreases |steps|
  {
    hide Apply, InRange;
    if steps != [] {
      StepKeepsLatch(s, steps[0]);
      if k > 0 {
        assert steps[..k][0] == steps[0] && steps[..k][1..] == steps[1..][..k - 1];
        SafeStopIsForever(Apply(s, steps[0]), steps[1..], k - 1);
      } else {
        SafeStopIsForever(Apply(s, steps[0]), steps[1..], 0);
        assert steps[1..][..0] == [];
      }
    }
  }

  /** A monitor that has not acted yet, over any machine. */
  predicate Starts(s: State, top: nat) {
    s.level == 0 && s.log == [] && s.mcu.safetyLevel <= top
  }

  ghost predicate LatchHoldsUpTo(top: nat) {
    forall s, steps :: Starts(s, top) && (forall i | 0 <= i < |steps| :: Reportable(steps[i], top)) ==>
      Latched(Run(s, steps))
  }

  /**
   In all runs, whatever other clients ask for, level 3 or more means a stopped
   machine, exactly when the level bytes reported are at most 4: a byte of 5 is
   stored without any action.
   */
  lemma LatchBoundIsExact(top: nat)
    ensures LatchHoldsUpTo(top) <==> top <= 4
  {
    if top <= 4 {
      forall s, steps | Starts(s, top) && forall i | 0 <= i < |steps| :: Reportable(steps[i], top)
        ensures Latched(Run(s, steps))
      {
        SafeStopIsForever(s, steps, |steps|);
      }
    } else {
      var s := State(0, McuStatus(5, false), SM.Machine(SM.Driving, map[], []), []);
      OneCheck(s);
      EscalationLatchesIff(s, 5);
      assert Starts(s, top) && Reportable([Check(map[])][0], top);
      assert !Latched(Run(s, [Check(map[])]));
    }
  }

  lemma OneCheck(s: State)
    requires s.mcu.safetyLevel >= 2 && !s.mcu.asilDViolation
    ensures Run(s, [Check(map[])]) == Escalated(s, s.mcu.safetyLevel)
  {
    assert [Check(map[])][1..] == [];
    assert PHM.Reported(map[], SELF) == map[];
  }

  ghost predicate StoppedFromLevel(level: nat) {
    forall s, steps :: Starts(s, 4) && (forall i | 0 <= i < |steps| :: Reportable(steps[i], 4)) ==>
      Run(s, steps).level >= level ==> SM.Stopped(Run(s, steps).machine.state)
  }

  /** Level 3 is where the latch begins: at level 2 another client can set the machine driving again. */
  lemma LatchStartsAtThree(level: nat)
    ensures StoppedFromLevel(level) <==> level >= 3
  {
    if level >= 3 {
      forall s, steps | Starts(s, 4) && forall i | 0 <= i < |steps| :: Reportable(steps[i], 4)
        ensures Run(s, steps).level >= level ==> SM.Stopped(Run(s, steps).machine.state)
      {
        SafeStopIsForever(s, steps, |steps|);
      }
    } else {
      var s := State(0, McuStatus(2, false), SM.Machine(SM.Startup, map[], []), []);
      var steps := [Check(map[])] + [ClientMachine(SM.Driving)];
      OneCheck(s);
      MinRiskParks(s);
      RunConcat(s, [Check(map[])], [ClientMachine(SM.Driving)]);
      var parked := Escalated(s, 2);
      assert [ClientMachine(SM.Driving)][1..] == [];
      assert Run(parked, [ClientMachine(SM.Driving)]) == Apply(parked, ClientMachine(SM.Driving));
      assert Run(s, steps).level == 2 && Run(s, steps).machine.state == SM.Driving;
      assert Starts(s, 4);
    }
  }

  lemma {:induction false} RunConcat(s: State, a: seq<Step>, b: seq<Step>)
    ensures Run(s, a + b) == Run(Run(s, a), b)
    decreases |a|
  {
    hide Apply;
    if a == [] {
      assert a + b == b;
    } else {
      assert (a + b)[1..] == a[1..] + b;
      RunConcat(Apply(s, a[0]), a[1..], b);
    }
  }

  /** Parked unless stopped, Infotainment and OTA off where registered, the other groups as they were. */
  ghost predicate MinRisk(before: SM.Machine, after: SM.Machine) {
    after.state == (if SM.Stopped(before.state) then before.state else SM.Parked) &&
    after.groups.Keys == before.groups.Keys &&
    forall n | n in after.groups ::
      after.groups[n] == if n == "Infotainment" || n == "OTA" then SM.Off else before.groups[n]
  }

  /**
   Wherever the level rises in a run, the machine has the state of that level
   right after: at 2 minimal risk, at 3 and 4 Shutdown with the groups as they
   were.
   */
  lemma EscalationsAct(s: State, steps: seq<Step>, k: nat)
    requires Latched(s) && InRange(s) && k < |steps|
    requires forall i | 0 <= i < |steps| :: Reportable(steps[i], 4)
    ensures var a, b := Run(s, steps[..k]), Run(s, steps[..k + 1]);
            b.level > a.level ==>
              b.level >= 2 &&
              (b.level == 2 ==> MinRisk(a.machine, b.machine)) &&
              (b.level >= 3 ==> b.machine.state == SM.Shutdown && b.machine.groups == a.machine.groups)
  {
    var a := Run(s, steps[..k]);
    assert steps[..k + 1] == steps[..k] + [steps[k]];
    RunConcat(s, steps[..k], [steps[k]]);
    assert [steps[k]][1..] == [];
    SafeStopIsForever(s, steps[..k], k);
    assert steps[..k][..k] == steps[..k];
    assert Run(s, steps[..k + 1]) == Apply(a, steps[k]);
    StepActs(a, steps[k]);
  }

  lemma StepActs(s: State, step: Step)
    requires InRange(s)
    ensures var t := Apply(s, step);
            t.level > s.level ==>
              t.level >= 2 && (t.level == 2 ==> MinRisk(s.machine, t.machine)) &&
              (t.level >= 3 ==> t.machine.state == SM.Shutdown && t.machine.groups == s.machine.groups)
  {
    hide Acted, SM.Requested, SM.GroupRequested;
    var t := Apply(s, step);
    if t.level > s.level {
      assert t == Escalated(s, t.level);
      if t.level == 2 {
        MinRiskParks(s);
      } else {
        SafeStopShutsDown(s, t.level);
      }
    }
  }

  /** The last status reported in a run, or the one known before it. */
  ghost function LastReport(mcu: McuStatus, steps: seq<Step>): McuStatus {
    if steps == [] then mcu
    else if steps[|steps| - 1].Report? then steps[|steps| - 1].status
    else LastReport(mcu, steps[..|steps| - 1])
  }

  lemma {:induction false} LastReportIsKept(s: State, steps: seq<Step>)
    ensures Run(s, steps).mcu == LastReport(s.mcu, steps)
    decreases |steps|
  {
    if steps != [] {
      hide Acted, Demand;
      var n := |steps| - 1;
      LastReportIsKept(s, steps[..n]);
      assert steps == steps[..n] + [steps[n]];
      RunConcat(s, steps[..n], [steps[n]]);
      assert [steps[n]][1..] == [];
    }
  }

  /** An entity other than the monitor's own has this status. */
  ghost predicate AnyOther(e: PHM.Entities, status: PHM.SupervisionStatus) {
    exists id :: id in e && id != SELF && e[id] == status
  }

  function Max(a: u8, b: u8): u8 {
    if a < b then b else a
  }

  /**
   What each check of a run does to the level, by the entity table and the last
   report alone: another entity Expired takes it to at least 3 and stops the
   machine; failing that, one Failed takes it to at least 2; failing that, an
   ASIL-D violation takes it to 4 and stops the machine; failing that, a level
   byte of at least 2 takes it to at least that; and otherwise nothing changes.
   */
  lemma CheckDemands(s: State, steps: seq<Step>, k: nat)
    requires Latched(s) && InRange(s) && k < |steps| && steps[k].Check?
    requires forall i | 0 <= i < |steps| :: Reportable(steps[i], 4)
    ensures var a, b := Run(s, steps[..k]), Run(s, steps[..k + 1]);
            var e, mcu := steps[k].entities, LastReport(s.mcu, steps[..k]);
            && (if AnyOther(e, PHM.Expired) then b.level == Max(a.level, 3) && SM.Stopped(b.machine.state)
                else if AnyOther(e, PHM.Failed) then b.level == Max(a.level, 2)
                else if mcu.asilDViolation then b.level == 4 && SM.Stopped(b.machine.state)
                else if mcu.safetyLevel >= 2 then b.level == Max(a.level, mcu.safetyLevel)
                else b.level == a.level)
            && (b.level == a.level ==> b == a)
            && (b.level > a.level ==> b.log == a.log + [b.level])
  {
    var a := Run(s, steps[..k]);
    assert steps[..k + 1] == steps[..k] + [steps[k]];
    RunConcat(s, steps[..k], [steps[k]]);
    assert [steps[k]][1..] == [];
    SafeStopIsForever(s, steps[..k], k);
    assert steps[..k][..k] == steps[..k];
    LastReportIsKept(s, steps[..k]);
    OneCheckDemands(a, steps[k].entities);
  }

  lemma OneCheckDemands(s: State, e: PHM.Entities)
    requires Latched(s) && InRange(s)
    ensures var t := Apply(s, Check(e));
            && (if AnyOther(e, PHM.Expired) then t.level == Max(s.level, 3) && SM.Stopped(t.machine.state)
                else if AnyOther(e, PHM.Failed) then t.level == Max(s.level, 2)
                else if s.mcu.asilDViolation then t.level == 4 && SM.Stopped(t.machine.state)
                else if s.mcu.safetyLevel >= 2 then t.level == Max(s.level, s.mcu.safetyLevel)
                else t.level == s.level)
            && (t.level == s.level ==> t == s)
            && (t.level > s.level ==> t.log == s.log + [t.level])
  {
    StepKeepsLatch(s, Check(e));
    AnyOtherIsReported(e, PHM.Expired);
    AnyOtherIsReported(e, PHM.Failed);
    hide Acted, PHM.Reported;
  }

  lemma AnyOtherIsReported(e: PHM.Entities, status: PHM.SupervisionStatus)
    requires status != PHM.Ok
    ensures AnyOther(e, status) <==> status in PHM.Reported(e, SELF).Values
  {
    var r := PHM.Reported(e, SELF);
    if id :| id in e && id != SELF && e[id] == status {
      assert r[id] == status;
    }
    if status in r.Values {
      var id :| id in r && r[id] == status;
      assert id in e && id != SELF && e[id] == status;
    }
  }

  /** In every run the machine state callbacks are one path of valid transitions from Startup. */
  lemma {:induction false} MachineFollowsAPath(s: State, steps: seq<Step>)
    requires SM.IsPath(s.machine.log, s.machine.state)
    ensures SM.IsPath(Run(s, steps).machine.log, Run(s, steps).machine.state)
    decreases |steps|
  {
    hide SM.IsPath, Demand;
    if steps != [] {
      StepKeepsPath(s, steps[0]);
      MachineFollowsAPath(Apply(s, steps[0]), steps[1..]);
    }
  }

  lemma StepKeepsPath(s: State, step: Step)
    requires SM.IsPath(s.machine.log, s.machine.state)
    ensures SM.IsPath(Apply(s, step).machine.log, Apply(s, step).machine.state)
  {
    hide SM.IsPath, Demand, SM.Requested;
    match step
    case Check(entities) =>
      if Demand(s.mcu, entities).Some? {
        ActionKeepsPath(s.machine, Demand(s.mcu, entities).value);
      }
    case StopMonitor => ActionKeepsPath(s.machine, 3);
    case ClientMachine(target) => SM.RequestKeepsPath(s.machine, target);
    case _ =>
  }

  lemma ActionKeepsPath(m: SM.Machine, level: u8)
    requires SM.IsPath(m.log, m.state)
    ensures SM.IsPath(Acted(m, level).log, Acted(m, level).state)
  {
    hide SM.IsPath, SM.Requested;
    var off := SM.GroupRequested(SM.GroupRequested(m, "Infotainment", SM.Off), "OTA", SM.Off);
    SM.RequestKeepsPath(off, SM.Parked);
    SM.RequestKeepsPath(m, SM.Error);
    SM.RequestKeepsPath(SM.Requested(m, SM.Error), SM.Shutdown);
  }

  // -------------------------------------------------------------- running max

  /** Every level asked for in a run; it depends on the reports and the entity tables only. */
  function Demands(mcu: McuStatus, steps: seq<Step>): seq<u8>
    decreases |steps|
  {
    if steps == [] then []
    else match steps[0]
      case Check(entities) =>
        (if Demand(mcu, entities).Some? then [Demand(mcu, entities).value] else []) + Demands(mcu, steps[1..])
      case Report(status) => Demands(status, steps[1..])
      case StopMonitor => [3] + Demands(mcu, steps[1..])
      case _ => Demands(mcu, steps[1..])
  }

  ghost predicate IsMaximum(m: u8, start: u8, levels: seq<u8>) {
    (m == start || m in levels) && m >= start && forall i | 0 <= i < |levels| :: levels[i] <= m
  }

  /** The level is the maximum of the starting level and all levels asked for. */
  lemma {:induction false} LevelIsTheMaximum(s: State, steps: seq<Step>)
    ensures IsMaximum(Run(s, steps).level, s.level, Demands(s.mcu, steps))
    decreases |steps|
  {
    hide Demand, Acted;
    if steps != [] {
      var t := Apply(s, steps[0]);
      LevelIsTheMaximum(t, steps[1..]);
      var m, rest := Run(s, steps).level, Demands(t.mcu, steps[1..]);
      assert IsMaximum(m, t.level, rest);
      if !steps[0].Report? && t.level != s.level {
        assert Demands(s.mcu, steps) == [t.level] + rest;
      }
    }
  }

  ghost predicate Increasing(log: seq<u8>) {
    forall i, j | 0 <= i < j < |log| :: log[i] < log[j]
  }

  ghost predicate LogFits(s: State) {
    Increasing(s.log) && (forall i | 0 <= i < |s.log| :: 1 <= s.log[i] <= s.level) && (s.log == [] <==> s.level == 0) &&
    (s.log != [] ==> s.log[|s.log| - 1] == s.level)
  }

  lemma {:induction false} CallbacksIncrease(s: State, steps: seq<Step>)
    requires LogFits(s)
    ensures LogFits(Run(s, steps))
    decreases |steps|
  {
    hide Demand, Acted;
    if steps != [] {
      CallbacksIncrease(Apply(s, steps[0]), steps[1..]);
    }
  }

  lemma {:induction false} IncreasingIsShort(log: seq<u8>, low: nat, top: nat)
    requires 1 <= low <= top + 1 && Increasing(log) && forall i | 0 <= i < |log| :: low <= log[i] <= top
    ensures |log| <= top + 1 - low
    decreases |log|
  {
    if log != [] {
      var n := |log| - 1;
      assert forall i | 0 <= i < n :: log[i] < log[n];
      IncreasingIsShort(log[..n], low, log[n] - 1);
    }
  }

  ghost predicate SkipsDegraded(s: State) {
    s.level != 1 && forall i | 0 <= i < |s.log| :: s.log[i] != 1
  }

  lemma {:induction false} DegradedIsNeverEntered(s: State, steps: seq<Step>)
    requires SkipsDegraded(s)
    ensures SkipsDegraded(Run(s, steps))
    decreases |steps|
  {
    hide Acted;
    if steps != [] {
      DegradedIsNeverEntered(Apply(s, steps[0]), steps[1..]);
    }
  }

  /**
   From level 0, a run has at most three callbacks, with strictly rising
   levels, the last being the level reached: nothing ever asks for level 1.
   */
  lemma AtMostThreeCallbacks(s: State, steps: seq<Step>)
    requires Starts(s, 4)
    requires forall i | 0 <= i < |steps| :: Reportable(steps[i], 4)
    ensures var t := Run(s, steps); Increasing(t.log) && |t.log| <= 3 && LogFits(t) && t.level != 1
  {
    CallbacksIncrease(s, steps);
    SafeStopIsForever(s, steps, |steps|);
    DegradedIsNeverEntered(s, steps);
    IncreasingIsShort(Run(s, steps).log, 2, 4);
  }

  /** The monitor's own entity never contributes to the verdict it acts on. */
  lemma OwnStatusIsIrrelevant(mcu: McuStatus, e: PHM.Entities, status: PHM.SupervisionStatus)
    requires SELF in e
    ensures Demand(mcu, e[SELF := status]) == Demand(mcu, e)
  {
    assert PHM.Reported(e[SELF := status], SELF) == PHM.Reported(e, SELF);
  }
}
