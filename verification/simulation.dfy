/**
 * The simulation driver: it runs a fixed number of cycles; each cycle
 * records the clock and the depth, runs the controller to completion,
 * takes the next sensor reading and advances the clock by ReadInterval.
 * The first cycle evaluates InitialDepth rather than a reading.
 */
module Simulation {
  import opened Floodgates
  import opened Central

  /** The observation lists and the final plant state of a run. */
  datatype Trace = Trace(plant: Plant, times: seq<int>, depths: seq<int>)

  /** The depth cycle k evaluates: InitialDepth first, then the reading taken at the end of cycle k - 1. */
  function DepthAt(sensor: nat -> Reading, k: nat): (d: int)
    ensures k == 0 ==> d == InitialDepth
    ensures k > 0 ==> d == sensor(k - 1)
    ensures 250 <= d <= 300
  {
    if k == 0 then InitialDepth else sensor(k - 1)
  }

  /**
   * A controller as the driver sees it: the plant state after one run of
   * the controller, from the given state, at the given depth.
   */
  type Controller = (Plant, int) -> Plant

  /**
   * The source's controller with its success draws fixed.  The driver only
   * hands it well-formed plants (DriveInvariant), so its other branch,
   * which leaves a plant alone, is never taken in a run.
   */
  function ControllerOf(success: nat -> bool): Controller
  {
    (p: Plant, depth: int) => if WellFormed(p) then Evaluate(p, depth, success) else p
  }

  /** The first n cycles of the driver around the controller `tick`. */
  function Drive(n: nat, sensor: nat -> Reading, tick: Controller): (t: Trace)
    ensures |t.times| == n && |t.depths| == n
    decreases n
  {
    if n == 0 then Trace(Initial(), [], [])
    else
      var prev := Drive(n - 1, sensor, tick);
      var depth := DepthAt(sensor, n - 1);
      var p := tick(prev.plant, depth);
      Trace(p.(now := p.now + ReadInterval), prev.times + [prev.plant.now], prev.depths + [depth])
  }

  /** The first n cycles of the source's driver. */
  function Run(n: nat, sensor: nat -> Reading, success: nat -> bool): Trace
  {
    Drive(n, sensor, ControllerOf(success))
  }

  /** A whole simulation: NumCycles cycles from the initial state. */
  function Simulate(sensor: nat -> Reading, success: nat -> bool): Trace
  {
    Run(NumCycles, sensor, success)
  }

  /** Number of maintenance records in a log stamped strictly before time t. */
  function FailuresBefore(log: seq<Action>, t: int): nat
  {
    if log == [] then 0
    else
      var a := log[|log| - 1];
      FailuresBefore(log[..|log| - 1], t) + (if a.kind == Maintenance && a.time < t then 1 else 0)
  }

  /**
   * The driver as a loop over explicit state, as the source writes it,
   * around any controller: it computes the same trace as Drive.
   */
  method DriveLoop(n: nat, sensor: nat -> Reading, tick: Controller) returns (t: Trace)
    ensures t == Drive(n, sensor, tick)
  {
    var plant := Initial();
    var times: seq<int> := [];
    var depths: seq<int> := [];
    var depth := InitialDepth;
    var i := 0;
    while i < n
      invariant 0 <= i <= n
      invariant Trace(plant, times, depths) == Drive(i, sensor, tick)
      invariant depth == DepthAt(sensor, i)
    {
      times := times + [plant.now];
      depths := depths + [depth];
      plant := tick(plant, depth);
      depth := sensor(i);
      plant := plant.(now := plant.now + ReadInterval);
      i := i + 1;
    }
    t := Trace(plant, times, depths);
  }

  /**
   * The source's driver: the loop run for NumCycles cycles around the
   * source's controller.  It observes NumCycles times and depths, the
   * first at time 0 with depth InitialDepth.
   */
  method Simular(sensor: nat -> Reading, success: nat -> bool) returns (t: Trace)
    ensures t == Simulate(sensor, success)
    ensures |t.times| == NumCycles && |t.depths| == NumCycles
    ensures t.times[0] == 0 && t.depths[0] == InitialDepth
  {
    t := DriveLoop(NumCycles, sensor, ControllerOf(success));
    SimulateObservations(sensor, success);
  }

  // ---------------------------------------------------------------------
  // Controller laws

  /**
   * What a run of the controller from p to r must do for the driver's
   * properties to hold: keep the plant well formed, only append to the
   * log, stamp what it appends no earlier than p's clock, advance the
   * clock by MaintenanceTime per failure it logs, and keep the gates
   * consistent with the log and the log in time order.
   */
  predicate CycleLaw(p: Plant, r: Plant)
  {
    && WellFormed(r)
    && p.log <= r.log
    && StampedFrom(Appended(p.log, r.log), p.now)
    && r.now == p.now + MaintenanceTime * Failures(Appended(p.log, r.log))
    && (Consistent(p) ==> Consistent(r))
    && (Timely(p) ==> Timely(r))
  }

  /** The controller obeys CycleLaw from every well-formed state at every depth. */
  ghost predicate Lawful(tick: Controller)
  {
    forall p: Plant, depth: int :: WellFormed(p) ==> CycleLaw(p, tick(p, depth))
  }

  /** A controller run that never fails leaves every gate where the control rule wants it. */
  ghost predicate Faultless(tick: Controller)
  {
    forall p: Plant, depth: int :: WellFormed(p) ==>
      && p.log <= tick(p, depth).log
      && Failures(Appended(p.log, tick(p, depth).log)) == 0
      && |tick(p, depth).gates| == NumGates
      && forall j :: 0 <= j < NumGates ==> tick(p, depth).gates[j] == Desired(depth, j)
  }

  /** The source's controller obeys the laws, whatever the draws. */
  lemma ControllerLawful(success: nat -> bool)
    ensures Lawful(ControllerOf(success))
  {
    forall p: Plant, depth: int | WellFormed(p)
      ensures CycleLaw(p, ControllerOf(success)(p, depth))
    {
      var r := Evaluate(p, depth, success);
      assert ControllerOf(success)(p, depth) == r;
      EvaluateRecords(p, depth, success);
      EvaluateClock(p, depth, success);
      EvaluatePreserves(p, depth, success);
    }
  }

  /** When no draw fails, the source's controller never fails. */
  lemma AllSuccessFaultless(success: nat -> bool)
    requires forall k :: success(k)
    ensures Faultless(ControllerOf(success))
  {
    forall p: Plant, depth: int | WellFormed(p)
      ensures var r := ControllerOf(success)(p, depth);
              && p.log <= r.log
              && Failures(Appended(p.log, r.log)) == 0
              && |r.gates| == NumGates
              && forall j :: 0 <= j < NumGates ==> r.gates[j] == Desired(depth, j)
    {
      assert ControllerOf(success)(p, depth) == Evaluate(p, depth, success);
      AllSuccessTick(p, depth, success);
    }
  }

  // ---------------------------------------------------------------------
  // Properties of a run, for any lawful controller

  /** A lawful controller keeps the plant well formed in every cycle. */
  lemma {:induction false} DriveWellFormed(n: nat, sensor: nat -> Reading, tick: Controller)
    requires Lawful(tick)
    ensures WellFormed(Drive(n, sensor, tick).plant)
    decreases n
  {
    if n > 0 {
      DriveWellFormed(n - 1, sensor, tick);
      var prev := Drive(n - 1, sensor, tick).plant;
      assert CycleLaw(prev, tick(prev, DepthAt(sensor, n - 1)));
    }
  }

  /**
   * Invariant of every run: the plant stays well formed, the gates agree
   * with the log, the log is in time order with every record at least
   * ReadInterval before the clock, and the clock is ReadInterval per cycle
   * plus MaintenanceTime per failure logged.
   */
  lemma {:induction false} DriveInvariant(n: nat, sensor: nat -> Reading, tick: Controller)
    requires Lawful(tick)
    ensures var p := Drive(n, sensor, tick).plant;
            && WellFormed(p)
            && Consistent(p)
            && Timely(p)
            && (forall k :: 0 <= k < |p.log| ==> p.log[k].time + ReadInterval <= p.now)
            && p.now == ReadInterval * n + MaintenanceTime * Failures(p.log)
    decreases n
  {
    if n > 0 {
      DriveInvariant(n - 1, sensor, tick);
      var prev := Drive(n - 1, sensor, tick).plant;
      var r := tick(prev, DepthAt(sensor, n - 1));
      assert CycleLaw(prev, r);
      FailuresAppend(prev.log, Appended(prev.log, r.log));
      assert ReadInterval * n == ReadInterval * (n - 1) + ReadInterval;
    }
  }

  /**
   * The observation lists of a run: cycle k records the depth it
   * evaluates, the first observation is at time 0, every observation is
   * at least ReadInterval before the clock, and observation times increase
   * by at least ReadInterval per cycle.
   */
  lemma {:induction false} DriveObservations(n: nat, sensor: nat -> Reading, tick: Controller)
    requires Lawful(tick)
    ensures var t := Drive(n, sensor, tick);
            && (forall k :: 0 <= k < n ==> t.depths[k] == DepthAt(sensor, k))
            && (n > 0 ==> t.times[0] == 0)
            && (forall k :: 0 <= k < n ==> t.times[k] + ReadInterval <= t.plant.now)
            && (forall a, b :: 0 <= a < b < n ==> t.times[a] + ReadInterval <= t.times[b])
    decreases n
  {
    if n > 0 {
      DriveObservations(n - 1, sensor, tick);
      DriveWellFormed(n - 1, sensor, tick);
      var prev := Drive(n - 1, sensor, tick).plant;
      var r := tick(prev, DepthAt(sensor, n - 1));
      assert CycleLaw(prev, r);
    }
  }

  /** Everything logged after cycle m starts is stamped no earlier than that start, and earlier records are kept. */
  lemma {:induction false} DriveExtends(m: nat, n: nat, sensor: nat -> Reading, tick: Controller)
    requires Lawful(tick) && m <= n
    ensures var a := Drive(m, sensor, tick).plant;
            var b := Drive(n, sensor, tick).plant;
            && a.log <= b.log && a.now <= b.now
            && StampedFrom(Appended(a.log, b.log), a.now)
    decreases n
  {
    var a := Drive(m, sensor, tick).plant;
    if m == n {
      assert Appended(a.log, a.log) == [];
    } else {
      DriveExtends(m, n - 1, sensor, tick);
      DriveWellFormed(n - 1, sensor, tick);
      var prev := Drive(n - 1, sensor, tick).plant;
      var r := tick(prev, DepthAt(sensor, n - 1));
      assert CycleLaw(prev, r);
      AppendedSplit(a.log, prev.log, r.log);
      StampedFromAppend(Appended(a.log, prev.log), Appended(prev.log, r.log), a.now, prev.now);
    }
  }

  /**
   * The time of the k-th observation is ReadInterval * k plus
   * MaintenanceTime for each failure logged strictly before it.
   */
  lemma {:induction false} ObservationTimes(n: nat, sensor: nat -> Reading, tick: Controller)
    requires Lawful(tick)
    ensures var t := Drive(n, sensor, tick);
            forall k :: 0 <= k < n ==>
              t.times[k] == ReadInterval * k + MaintenanceTime * FailuresBefore(t.plant.log, t.times[k])
    decreases n
  {
    if n > 0 {
      var t := Drive(n, sensor, tick);
      var prev := Drive(n - 1, sensor, tick);
      assert t.times == prev.times + [prev.plant.now];
      ObservationTimes(n - 1, sensor, tick);
      DriveObservations(n - 1, sensor, tick);
      DriveInvariant(n - 1, sensor, tick);
      DriveExtends(n - 1, n, sensor, tick);
      TimesExtend(prev.times, prev.plant.log, prev.plant.now, t.plant.log);
    }
  }

  /**
   * The step of ObservationTimes: appending an observation at the current
   * clock, and records stamped no earlier than it, keeps every observation
   * time equal to ReadInterval per cycle plus MaintenanceTime per earlier
   * failure.
   */
  lemma TimesExtend(times: seq<int>, log: seq<Action>, now: int, log': seq<Action>)
    requires forall k :: 0 <= k < |times| ==>
               times[k] == ReadInterval * k + MaintenanceTime * FailuresBefore(log, times[k])
    requires forall k :: 0 <= k < |times| ==> times[k] + ReadInterval <= now
    requires forall k :: 0 <= k < |log| ==> log[k].time + ReadInterval <= now
    requires now == ReadInterval * |times| + MaintenanceTime * Failures(log)
    requires log <= log' && StampedFrom(Appended(log, log'), now)
    ensures var times' := times + [now];
            forall k :: 0 <= k < |times'| ==>
              times'[k] == ReadInterval * k + MaintenanceTime * FailuresBefore(log', times'[k])
  {
    var times' := times + [now];
    var ext := Appended(log, log');
    forall k | 0 <= k < |times'|
      ensures times'[k] == ReadInterval * k + MaintenanceTime * FailuresBefore(log', times'[k])
    {
      FailuresBeforeExtended(log, ext, times'[k], now);
      if k == |times| {
        FailuresBeforeAll(log, now);
      } else {
        assert times'[k] == times[k];
      }
    }
  }

  /**
   * With a controller that never fails, a run logs no maintenance, the
   * clock is ReadInterval per cycle, and after every cycle gate i is
   * closed iff the depth that cycle evaluated reaches the gate's threshold.
   */
  lemma {:induction false} FaultlessRun(n: nat, sensor: nat -> Reading, tick: Controller)
    requires Lawful(tick) && Faultless(tick)
    ensures var t := Drive(n, sensor, tick);
            && WellFormed(t.plant)
            && Failures(t.plant.log) == 0
            && t.plant.now == ReadInterval * n
            && (n > 0 ==> forall j :: 0 <= j < NumGates ==>
                            (t.plant.gates[j] == Closed <==> DepthAt(sensor, n - 1) >= Threshold(j)))
    decreases n
  {
    DriveInvariant(n, sensor, tick);
    if n > 0 {
      FaultlessRun(n - 1, sensor, tick);
      DriveInvariant(n - 1, sensor, tick);
      var prev := Drive(n - 1, sensor, tick).plant;
      var r := tick(prev, DepthAt(sensor, n - 1));
      FailuresAppend(prev.log, Appended(prev.log, r.log));
    }
  }

  /** With a controller that never fails, observation k is at time ReadInterval * k. */
  lemma FaultlessTimes(n: nat, sensor: nat -> Reading, tick: Controller)
    requires Lawful(tick) && Faultless(tick)
    ensures var t := Drive(n, sensor, tick);
            forall k :: 0 <= k < n ==> t.times[k] == ReadInterval * k
  {
    var t := Drive(n, sensor, tick);
    FaultlessRun(n, sensor, tick);
    ObservationTimes(n, sensor, tick);
    forall k | 0 <= k < n
      ensures t.times[k] == ReadInterval * k
    {
      FailuresBeforeAtMost(t.plant.log, t.times[k]);
    }
  }

  // ---------------------------------------------------------------------
  // Properties of the source's simulation

  /** Cycle k grows the log by one record per order its plan issues plus one per failure. */
  lemma CycleLog(k: nat, sensor: nat -> Reading, success: nat -> bool)
    ensures var a := Run(k, sensor, success).plant;
            var b := Run(k + 1, sensor, success).plant;
            && WellFormed(a)
            && a.log <= b.log
            && |b.log| == |a.log| + |Plan(a.gates, DepthAt(sensor, k), 0)| + Failures(Appended(a.log, b.log))
  {
    ControllerLawful(success);
    DriveInvariant(k, sensor, ControllerOf(success));
    var a := Run(k, sensor, success).plant;
    EvaluateOrders(a, DepthAt(sensor, k), success);
  }

  /**
   * The observation lists of the whole simulation: NumCycles of each, the
   * first InitialDepth at time 0, the later depths the readings in order.
   */
  lemma SimulateObservations(sensor: nat -> Reading, success: nat -> bool)
    ensures var t := Simulate(sensor, success);
            && |t.times| == NumCycles && |t.depths| == NumCycles
            && t.times[0] == 0 && t.depths[0] == InitialDepth
            && forall k :: 1 <= k < NumCycles ==> t.depths[k] == sensor(k - 1)
  {
    ControllerLawful(success);
    DriveObservations(NumCycles, sensor, ControllerOf(success));
  }

  /**
   * At the end of the simulation the gates agree with the log, and
   * observation k is at time ReadInterval * k plus MaintenanceTime per
   * failure logged before it.
   */
  lemma SimulateClock(sensor: nat -> Reading, success: nat -> bool)
    ensures var t := Simulate(sensor, success);
            && Consistent(t.plant)
            && forall k :: 0 <= k < NumCycles ==>
                 t.times[k] == ReadInterval * k + MaintenanceTime * FailuresBefore(t.plant.log, t.times[k])
  {
    ControllerLawful(success);
    ObservationTimes(NumCycles, sensor, ControllerOf(success));
    DriveInvariant(NumCycles, sensor, ControllerOf(success));
  }

  /**
   * When no draw ever fails, the driver logs no maintenance record and
   * after every cycle gate i is closed iff the depth that cycle evaluated
   * reaches its threshold.
   */
  lemma AllSuccessRun(n: nat, sensor: nat -> Reading, success: nat -> bool)
    requires forall k :: success(k)
    ensures var t := Run(n, sensor, success);
            && WellFormed(t.plant)
            && Failures(t.plant.log) == 0
            && (forall k :: 0 <= k < |t.plant.log| ==> t.plant.log[k].kind != Maintenance)
            && (n > 0 ==> forall j :: 0 <= j < NumGates ==>
                            (t.plant.gates[j] == Closed <==> DepthAt(sensor, n - 1) >= Threshold(j)))
  {
    ControllerLawful(success);
    AllSuccessFaultless(success);
    FaultlessRun(n, sensor, ControllerOf(success));
    FailuresZero(Run(n, sensor, success).plant.log);
  }

  /** When no draw ever fails, observation k is at time ReadInterval * k. */
  lemma AllSuccessTimes(n: nat, sensor: nat -> Reading, success: nat -> bool)
    requires forall k :: success(k)
    ensures var t := Run(n, sensor, success);
            forall k :: 0 <= k < n ==> t.times[k] == ReadInterval * k
  {
    ControllerLawful(success);
    AllSuccessFaultless(success);
    FaultlessTimes(n, sensor, ControllerOf(success));
    assert Run(n, sensor, success) == Drive(n, sensor, ControllerOf(success));
  }

  // ---------------------------------------------------------------------
  // Time stamps and failures before a time

  /** Every record is stamped at or after t. */
  predicate StampedFrom(ext: seq<Action>, t: int)
  {
    forall k :: 0 <= k < |ext| ==> t <= ext[k].time
  }

  lemma StampedFromAppend(e1: seq<Action>, e2: seq<Action>, t1: int, t2: int)
    requires StampedFrom(e1, t1) && StampedFrom(e2, t2) && t1 <= t2
    ensures StampedFrom(e1 + e2, t1)
  {
  }

  lemma {:induction false} FailuresBeforeAppend(a: seq<Action>, b: seq<Action>, t: int)
    ensures FailuresBefore(a + b, t) == FailuresBefore(a, t) + FailuresBefore(b, t)
    decreases |b|
  {
    if b == [] {
      assert a + b == a;
    } else {
      var b' := b[..|b| - 1];
      assert (a + b)[..|a + b| - 1] == a + b';
      FailuresBeforeAppend(a, b', t);
    }
  }

  /** Records stamped at or after `from` do not count before a time t <= from. */
  lemma FailuresBeforeExtended(a: seq<Action>, ext: seq<Action>, t: int, from: int)
    requires StampedFrom(ext, from) && t <= from
    ensures FailuresBefore(a + ext, t) == FailuresBefore(a, t)
  {
    FailuresBeforeAppend(a, ext, t);
    FailuresBeforeNone(ext, t, from);
  }

  /** When every record is before t, all failures count. */
  lemma {:induction false} FailuresBeforeAll(log: seq<Action>, t: int)
    requires forall k :: 0 <= k < |log| ==> log[k].time < t
    ensures FailuresBefore(log, t) == Failures(log)
    decreases |log|
  {
    if log != [] {
      FailuresBeforeAll(log[..|log| - 1], t);
    }
  }

  /** When no record is before t, none counts. */
  lemma {:induction false} FailuresBeforeNone(log: seq<Action>, t: int, from: int)
    requires StampedFrom(log, from) && t <= from
    ensures FailuresBefore(log, t) == 0
    decreases |log|
  {
    if log != [] {
      FailuresBeforeNone(log[..|log| - 1], t, from);
    }
  }

  lemma {:induction false} FailuresBeforeAtMost(log: seq<Action>, t: int)
    ensures FailuresBefore(log, t) <= Failures(log)
    decreases |log|
  {
    if log != [] {
      FailuresBeforeAtMost(log[..|log| - 1], t);
    }
  }
}
