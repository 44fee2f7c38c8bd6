/**
 Escalations of several threads at once: the loop that checks and the thread
 that shuts the monitor down load the level, store it, and make their requests
 to the state manager one by one, with other clients' requests in between.
 */
module SafetyThreads {
  import opened Common
  import SM = StateManagement
  import Safety = SafetyMonitor

  /** Where a thread is: outside, past the comparison, or with the level stored and these requests left to make. */
  datatype Stage = Calm | Checked(level: u8) | Acting(level: u8, requests: seq<SM.MachineState>)

  datatype World = World(level: u8, machine: SM.MachineState, threads: seq<Stage>, log: seq<u8>)

  datatype Step =
    | Load(thread: nat, newLevel: u8)
    | Store(thread: nat)
    | Request(thread: nat)
    | CallBack(thread: nat)
    | Client(target: SM.MachineState)

  /** What the action of a level asks of the machine. */
  function Requests(level: u8): seq<SM.MachineState> {
    if level == 2 then [SM.Parked] else if level == 3 || level == 4 then [SM.Error, SM.Shutdown] else []
  }

  predicate Enabled(w: World, step: Step) {
    match step
    case Load(t, _) => t < |w.threads| && w.threads[t].Calm?
    case Store(t) => t < |w.threads| && w.threads[t].Checked?
    case Request(t) => t < |w.threads| && w.threads[t].Acting? && w.threads[t].requests != []
    case CallBack(t) => t < |w.threads| && w.threads[t].Acting? && w.threads[t].requests == []
    case Client(_) => true
  }

  function Apply(w: World, step: Step): World
    requires Enabled(w, step)
  {
    match step
    case Load(t, n) => if n <= w.level then w else w.(threads := w.threads[t := Checked(n)])
    case Store(t) =>
      var n := w.threads[t].level;
      w.(level := n, threads := w.threads[t := Acting(n, Requests(n))])
    case Request(t) =>
      var stage := w.threads[t];
      w.(machine := SM.AfterRequest(w.machine, stage.requests[0]).0,
         threads := w.threads[t := stage.(requests := stage.requests[1..])])
    case CallBack(t) => w.(threads := w.threads[t := Calm], log := w.log + [w.threads[t].level])
    case Client(target) => w.(machine := SM.AfterRequest(w.machine, target).0)
  }

  predicate IsRun(w: World, steps: seq<Step>)
    decreases |steps|
  {
    steps == [] || (Enabled(w, steps[0]) && IsRun(Apply(w, steps[0]), steps[1..]))
  }

  function Run(w: World, steps: seq<Step>): World
    requires IsRun(w, steps)
    decreases |steps|
  {
    if steps == [] then w else Run(Apply(w, steps[0]), steps[1..])
  }

  lemma {:induction false} RunConcat(w: World, a: seq<Step>, b: seq<Step>)
    ensures IsRun(w, a + b) <==> IsRun(w, a) && IsRun(Run(w, a), b)
    ensures IsRun(w, a + b) ==> Run(w, a + b) == Run(Run(w, a), b)
    decreases |a|
  {
    hide Apply, Enabled;
    if a == [] {
      assert a + b == b;
    } else {
      assert (a + b)[1..] == a[1..] + b;
      if Enabled(w, a[0]) {
        RunConcat(Apply(w, a[0]), a[1..], b);
      }
    }
  }

  // ------------------------------------------------------- one thread, alone

  lemma {:induction false} RequestsInARow(w: World, t: nat) returns (steps: seq<Step>)
    requires t < |w.threads| && w.threads[t].Acting?
    ensures IsRun(w, steps)
    ensures Run(w, steps) ==
            w.(machine := SM.AfterRequests(w.machine, w.threads[t].requests), threads := w.threads[t := Calm],
               log := w.log + [w.threads[t].level])
    decreases |w.threads[t].requests|
  {
    if w.threads[t].requests == [] {
      steps := [CallBack(t)];
      assert steps[1..] == [];
    } else {
      var rest := RequestsInARow(Apply(w, Request(t)), t);
      steps := [Request(t)] + rest;
      assert steps[1..] == rest;
    }
  }

  lemma ActionIsRequests(m: SM.Machine, level: u8)
    ensures Safety.Acted(m, level).state == SM.AfterRequests(m.state, Requests(level))
  {
    if level == 2 {
      SM.OneRequest(m.state, SM.Parked);
    } else if level == 3 || level == 4 {
      SM.TwoRequests(m.state, SM.Error, SM.Shutdown);
    }
  }

  /** An escalation that nobody interrupts does what the method promises. */
  lemma UninterruptedEscalation(w: World, t: nat, newLevel: u8, s: Safety.State) returns (steps: seq<Step>)
    requires t < |w.threads| && w.threads[t].Calm?
    requires s.level == w.level && s.machine.state == w.machine && s.log == w.log
    ensures IsRun(w, steps)
    ensures var e := Safety.Escalated(s, newLevel);
            Run(w, steps) == w.(level := e.level, machine := e.machine.state, log := e.log)
  {
    hide Safety.Acted, Requests;
    if newLevel <= w.level {
      steps := [Load(t, newLevel)];
      assert steps[1..] == [];
    } else {
      var a := Apply(w, Load(t, newLevel));
      var b := Apply(a, Store(t));
      var rest := RequestsInARow(b, t);
      ActionIsRequests(s.machine, newLevel);
      assert ([Store(t)] + rest)[1..] == rest;
      steps := [Load(t, newLevel)] + ([Store(t)] + rest);
      assert steps[1..] == [Store(t)] + rest;
      assert b.threads[t := Calm] == w.threads;
    }
  }

  // ---------------------------------------------------------------- safe stop

  ghost predicate Unserved(stage: Stage) {
    stage.Acting? && stage.level >= 3 && stage.requests == [SM.Error, SM.Shutdown]
  }

  ghost predicate StageIsSafe(stage: Stage, machine: SM.MachineState) {
    && (stage.Checked? ==> stage.level <= 4)
    && (stage.Acting? && stage.level >= 3 ==> Unserved(stage) || SM.Stopped(machine))
  }

  /** A level of 3 or more stands for a stopped machine, or for a safe stop that is about to ask for Error. */
  ghost predicate Safe(w: World) {
    && (forall t | 0 <= t < |w.threads| :: StageIsSafe(w.threads[t], w.machine))
    && (w.level >= 3 ==> SM.Stopped(w.machine) || exists t :: 0 <= t < |w.threads| && Unserved(w.threads[t]))
    && (forall i | 0 <= i < |w.log| :: w.log[i] >= 3 ==> SM.Stopped(w.machine))
  }

  predicate UpTo(step: Step, top: nat) {
    step.Load? ==> step.newLevel <= top
  }

  lemma StepKeepsSafe(w: World, step: Step)
    requires Safe(w) && Enabled(w, step) && UpTo(step, 4)
    ensures Safe(Apply(w, step))
    ensures SM.Stopped(w.machine) ==> SM.Stopped(Apply(w, step).machine)
  {
    var v := Apply(w, step);
    if step.Store? {
      assert v.level >= 3 ==> Unserved(v.threads[step.thread]);
    } else if !SM.Stopped(v.machine) && w.level >= 3 && !step.Client? {
      var t :| 0 <= t < |w.threads| && Unserved(w.threads[t]);
      assert t != step.thread;
      assert Unserved(v.threads[t]);
    } else if step.Client? && !SM.Stopped(v.machine) && w.level >= 3 {
      var t :| 0 <= t < |w.threads| && Unserved(w.threads[t]);
      assert Unserved(v.threads[t]);
    }
  }

  lemma {:induction false} RunKeepsSafe(w: World, steps: seq<Step>)
    requires Safe(w) && IsRun(w, steps) && forall i | 0 <= i < |steps| :: UpTo(steps[i], 4)
    ensures Safe(Run(w, steps))
    ensures SM.Stopped(w.machine) ==> SM.Stopped(Run(w, steps).machine)
    decreases |steps|
  {
    hide Safe, Apply, Enabled;
    if steps != [] {
      StepKeepsSafe(w, steps[0]);
      RunKeepsSafe(Apply(w, steps[0]), steps[1..]);
    }
  }

  /** A monitor before its first escalation, with this many threads, over any machine. */
  predicate Starts(w: World, threads: nat) {
    w.level == 0 && w.log == [] && |w.threads| == threads && forall t | 0 <= t < threads :: w.threads[t] == Calm
  }

  predicate Quiet(w: World) {
    forall t | 0 <= t < |w.threads| :: w.threads[t] == Calm
  }

  /**
   However the threads and the other clients interleave: when a safe stop has
   been called back, or the level is 3 or more and nobody is escalating, the
   machine is in Error or Shutdown, then and ever after.
   */
  lemma SafeStopSurvivesInterleaving(w: World, threads: nat, steps: seq<Step>, k: nat)
    requires Starts(w, threads) && IsRun(w, steps) && k <= |steps|
    requires forall i | 0 <= i < |steps| :: UpTo(steps[i], 4)
    ensures IsRun(w, steps[..k])
    ensures var mid, end := Run(w, steps[..k]), Run(w, steps);
            (exists i :: 0 <= i < |mid.log| && mid.log[i] >= 3) || (mid.level >= 3 && Quiet(mid)) ==>
              SM.Stopped(mid.machine) && SM.Stopped(end.machine)
  {
    hide Apply, Enabled;
    assert steps == steps[..k] + steps[k..];
    RunConcat(w, steps[..k], steps[k..]);
    RunKeepsSafe(w, steps[..k]);
    RunKeepsSafe(Run(w, steps[..k]), steps[k..]);
  }

  // -------------------------------------------------------------- lost levels

  ghost predicate LevelNeverFalls(threads: nat) {
    forall w, steps, k: nat :: Starts(w, threads) && IsRun(w, steps) && k <= |steps| && IsRun(w, steps[..k]) ==>
      Run(w, steps[..k]).level <= Run(w, steps).level
  }

  ghost predicate OneThread(w: World) {
    |w.threads| <= 1 && forall t | 0 <= t < |w.threads| :: w.threads[t].Checked? ==> w.threads[t].level > w.level
  }

  lemma {:induction false} OneThreadRises(w: World, steps: seq<Step>)
    requires OneThread(w) && IsRun(w, steps)
    ensures OneThread(Run(w, steps)) && Run(w, steps).level >= w.level
    decreases |steps|
  {
    if steps != [] {
      OneThreadRises(Apply(w, steps[0]), steps[1..]);
    }
  }

  /** The check compares against 0 and is overtaken by a shutdown; its store then takes the level from 3 back to 2. */
  lemma OvertakenStoreLowers(w: World, threads: nat)
    requires Starts(w, threads) && threads >= 2
    ensures var steps := [Load(0, 2), Load(1, 3), Store(1), Store(0)];
            && IsRun(w, steps) && IsRun(w, steps[..3])
            && Run(w, steps[..3]).level == 3 && Run(w, steps).level == 2
  {
    var steps := [Load(0, 2), Load(1, 3), Store(1), Store(0)];
    var a := Apply(w, Load(0, 2));
    var b := Apply(a, Load(1, 3));
    var c := Apply(b, Store(1));
    assert steps[1..] == [Load(1, 3), Store(1), Store(0)];
    assert steps[1..][1..] == [Store(1), Store(0)] && steps[1..][1..][1..] == [Store(0)];
    assert steps == steps[..3] + [Store(0)];
    assert steps[..3][1..] == [Load(1, 3), Store(1)] && steps[..3][1..][1..] == [Store(1)] && [Store(1)][1..] == [];
    assert IsRun(c, [Store(0)]) && Run(c, [Store(0)]).level == 2;
    assert IsRun(b, [Store(1)]) && Run(b, [Store(1)]) == c;
    assert IsRun(a, steps[..3][1..]) && Run(a, steps[..3][1..]) == c;
    assert IsRun(w, steps[..3]) && Run(w, steps[..3]) == c;
    RunConcat(w, steps[..3], [Store(0)]);
  }

  /** The level never falls exactly when only one thread escalates; the machine stays stopped in any case. */
  lemma LevelNeverFallsIff(threads: nat)
    ensures LevelNeverFalls(threads) <==> threads <= 1
  {
    if threads <= 1 {
      forall w, steps, k: nat | Starts(w, threads) && IsRun(w, steps) && k <= |steps| && IsRun(w, steps[..k])
        ensures Run(w, steps[..k]).level <= Run(w, steps).level
      {
        assert steps == steps[..k] + steps[k..];
        RunConcat(w, steps[..k], steps[k..]);
        OneThreadRises(w, steps[..k]);
        OneThreadRises(Run(w, steps[..k]), steps[k..]);
      }
    } else {
      var w := World(0, SM.Driving, seq(threads, i => Calm), []);
      OvertakenStoreLowers(w, threads);
      var steps := [Load(0, 2), Load(1, 3), Store(1), Store(0)];
      assert Run(w, steps[..3]).level > Run(w, steps).level;
    }
  }
}
