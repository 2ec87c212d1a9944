/**
 * The central controller: given a depth it walks the gates in ascending
 * order, orders a close when the depth is at or above the gate's
 * threshold and the gate is open, orders an open when the depth is below
 * the threshold and the gate is closed, logs each order and waits for the
 * actuation (and any maintenance) to finish before the next gate.
 */
module Central {
  import opened Floodgates
  import opened Gate

  datatype Command = Hold | CloseGate | OpenGate

  /** The controller's decision for gate index i in position `pos`. */
  function Decide(depth: int, i: nat, pos: Position): (c: Command)
    requires i < NumGates
    ensures c == CloseGate <==> depth >= Threshold(i) && pos == Open
    ensures c == OpenGate <==> depth < Threshold(i) && pos == Closed
    ensures c == Hold <==> pos == Desired(depth, i)
  {
    if depth >= Threshold(i) && pos == Open then CloseGate
    else if depth < Threshold(i) && pos == Closed then OpenGate
    else assert pos == Desired(depth, i); Hold
  }

  /** The order the rule calls for at gate index i, if any. */
  function OrderFor(gates: seq<Position>, depth: int, i: nat): seq<Order>
    requires |gates| == NumGates && i < NumGates
  {
    if gates[i] == Desired(depth, i) then [] else [Order(i + 1, Desired(depth, i))]
  }

  /** The orders a sweep from gate index i issues, read off the positions before the sweep. */
  function Plan(gates: seq<Position>, depth: int, i: nat): seq<Order>
    requires |gates| == NumGates && i <= NumGates
    decreases NumGates - i
  {
    if i == NumGates then [] else OrderFor(gates, depth, i) + Plan(gates, depth, i + 1)
  }

  /** One iteration of the controller's loop, for gate index i. */
  function Step(p: Plant, depth: int, i: nat, success: nat -> bool): (r: Plant)
    requires WellFormed(p) && i < NumGates
    ensures WellFormed(r) && p.log <= r.log && p.now <= r.now && p.drawn <= r.drawn
    ensures forall j :: 0 <= j < NumGates && j != i ==> r.gates[j] == p.gates[j]
  {
    match Decide(depth, i, p.gates[i])
    case Hold => p
    case CloseGate =>
      Actuate(p.(log := p.log + [Action(p.now, depth, CloseOrder, i + 1)]), i + 1, Closed, success)
    case OpenGate =>
      Actuate(p.(log := p.log + [Action(p.now, depth, OpenOrder, i + 1)]), i + 1, Open, success)
  }

  /** The controller's loop from gate index i to the last gate. */
  function Sweep(p: Plant, depth: int, i: nat, success: nat -> bool): (r: Plant)
    requires WellFormed(p) && i <= NumGates
    ensures WellFormed(r) && p.log <= r.log && p.now <= r.now && p.drawn <= r.drawn
    ensures forall j :: 0 <= j < i ==> r.gates[j] == p.gates[j]
    decreases NumGates - i
  {
    if i == NumGates then p else Sweep(Step(p, depth, i, success), depth, i + 1, success)
  }

  /** One run of the controller at the given depth, to completion. */
  function Evaluate(p: Plant, depth: int, success: nat -> bool): (r: Plant)
    requires WellFormed(p)
    ensures WellFormed(r) && p.log <= r.log && p.now <= r.now && p.drawn <= r.drawn
  {
    Sweep(p, depth, 0, success)
  }

  // ---------------------------------------------------------------------
  // The plan of orders

  /** Plans read only the positions of the gates they cover. */
  lemma {:induction false} PlanFrame(g: seq<Position>, h: seq<Position>, depth: int, i: nat)
    requires |g| == NumGates && |h| == NumGates && i <= NumGates
    requires forall j :: i <= j < NumGates ==> g[j] == h[j]
    ensures Plan(g, depth, i) == Plan(h, depth, i)
    decreases NumGates - i
  {
    if i < NumGates {
      PlanFrame(g, h, depth, i + 1);
    }
  }

  /** An order is planned exactly for each gate not in its desired position, asking for that position. */
  lemma {:induction false} PlanMembership(g: seq<Position>, depth: int, i: nat, o: Order)
    requires |g| == NumGates && i <= NumGates
    ensures o in Plan(g, depth, i) <==>
              (i + 1 <= o.gate <= NumGates && g[o.gate - 1] != Desired(depth, o.gate - 1) && o.target == Desired(depth, o.gate - 1))
    decreases NumGates - i
  {
    if i < NumGates {
      PlanMembership(g, depth, i + 1, o);
      assert Plan(g, depth, i) == OrderFor(g, depth, i) + Plan(g, depth, i + 1);
      assert o in OrderFor(g, depth, i) <==> o.gate == i + 1 && g[i] != Desired(depth, i) && o.target == Desired(depth, i);
    }
  }

  /** A plan names gates above i in strictly ascending order, at most one order per gate. */
  lemma {:induction false} PlanAscending(g: seq<Position>, depth: int, i: nat)
    requires |g| == NumGates && i <= NumGates
    ensures |Plan(g, depth, i)| <= NumGates - i
    ensures forall a :: 0 <= a < |Plan(g, depth, i)| ==> i < Plan(g, depth, i)[a].gate
    ensures forall a, b :: 0 <= a < b < |Plan(g, depth, i)| ==> Plan(g, depth, i)[a].gate < Plan(g, depth, i)[b].gate
    decreases NumGates - i
  {
    if i < NumGates {
      PlanAscending(g, depth, i + 1);
    }
  }

  /** A plan is empty exactly when every gate it covers is already in its desired position. */
  lemma {:induction false} PlanEmpty(g: seq<Position>, depth: int, i: nat)
    requires |g| == NumGates && i <= NumGates
    ensures Plan(g, depth, i) == [] <==> forall j :: i <= j < NumGates ==> g[j] == Desired(depth, j)
    decreases NumGates - i
  {
    if i < NumGates {
      PlanEmpty(g, depth, i + 1);
      var rest := Plan(g, depth, i + 1);
      if g[i] == Desired(depth, i) {
        assert Plan(g, depth, i) == rest;
      } else {
        assert Plan(g, depth, i)[0] == Order(i + 1, Desired(depth, i));
      }
    }
  }

  // ---------------------------------------------------------------------
  // One iteration

  /** The records one iteration appends: nothing when the gate is already where the rule wants it,
      otherwise the order and, if its draw fails, one maintenance record. */
  lemma StepLog(p: Plant, depth: int, i: nat, success: nat -> bool)
    requires WellFormed(p) && i < NumGates
    ensures var r := Step(p, depth, i, success);
            var order := Action(p.now, depth, if Desired(depth, i) == Closed then CloseOrder else OpenOrder, i + 1);
            && (p.gates[i] == Desired(depth, i) ==> r == p)
            && (p.gates[i] != Desired(depth, i) && success(p.drawn) ==>
                  r.log == p.log + [order] && r.gates[i] == Desired(depth, i) && r.now == p.now)
            && (p.gates[i] != Desired(depth, i) && !success(p.drawn) ==>
                  && r.log == p.log + [order, Action(p.now, InitialDepth, Maintenance, i + 1)]
                  && r.gates[i] == Open && r.now == p.now + MaintenanceTime)
            && r.drawn == p.drawn + (if p.gates[i] == Desired(depth, i) then 0 else 1)
  {
  }

  /** One iteration logs exactly the order the rule calls for at gate index i and consumes one draw per order. */
  lemma StepOrders(p: Plant, depth: int, i: nat, success: nat -> bool)
    requires WellFormed(p) && i < NumGates
    ensures var r := Step(p, depth, i, success);
            && OrdersOf(Appended(p.log, r.log)) == OrderFor(p.gates, depth, i)
            && r.drawn == p.drawn + |OrderFor(p.gates, depth, i)|
  {
    var r := Step(p, depth, i, success);
    var ext := Appended(p.log, r.log);
    StepLog(p, depth, i, success);
    if p.gates[i] == Desired(depth, i) {
      assert ext == [];
    } else {
      var order := Action(p.now, depth, if Desired(depth, i) == Closed then CloseOrder else OpenOrder, i + 1);
      SingleRecord(order);
      if !success(p.drawn) {
        var m := Action(p.now, InitialDepth, Maintenance, i + 1);
        assert ext == [order] + [m];
        SingleRecord(m);
        OrdersOfAppend([order], [m]);
      }
    }
  }

  /** One iteration costs MaintenanceTime exactly when the draw of its order fails. */
  lemma StepClock(p: Plant, depth: int, i: nat, success: nat -> bool)
    requires WellFormed(p) && i < NumGates
    ensures var r := Step(p, depth, i, success);
            && p.drawn <= r.drawn
            && Failures(Appended(p.log, r.log)) == FailedDraws(success, p.drawn, r.drawn)
            && r.now == p.now + MaintenanceTime * Failures(Appended(p.log, r.log))
  {
    var r := Step(p, depth, i, success);
    var ext := Appended(p.log, r.log);
    StepLog(p, depth, i, success);
    if p.gates[i] == Desired(depth, i) {
      assert ext == [];
    } else {
      var order := Action(p.now, depth, if Desired(depth, i) == Closed then CloseOrder else OpenOrder, i + 1);
      SingleRecord(order);
      assert FailedDraws(success, p.drawn, p.drawn + 1) == (if success(p.drawn) then 0 else 1) by {
        assert FailedDraws(success, p.drawn, p.drawn) == 0;
      }
      if !success(p.drawn) {
        var m := Action(p.now, InitialDepth, Maintenance, i + 1);
        assert ext == [order] + [m];
        SingleRecord(m);
        FailuresAppend([order], [m]);
      }
    }
  }

  /** After one iteration gate i is open if its order failed and where the rule wants it otherwise; no other gate is maintained. */
  lemma StepGate(p: Plant, depth: int, i: nat, success: nat -> bool)
    requires WellFormed(p) && i < NumGates
    ensures var r := Step(p, depth, i, success);
            && r.gates[i] == (if WasMaintained(Appended(p.log, r.log), i + 1) then Open else Desired(depth, i))
            && forall id: nat :: id != i + 1 ==> !WasMaintained(Appended(p.log, r.log), id)
  {
    var r := Step(p, depth, i, success);
    var ext := Appended(p.log, r.log);
    StepLog(p, depth, i, success);
    if p.gates[i] == Desired(depth, i) {
      assert ext == [];
    } else {
      var order := Action(p.now, depth, if Desired(depth, i) == Closed then CloseOrder else OpenOrder, i + 1);
      SingleRecord(order);
      if !success(p.drawn) {
        var m := Action(p.now, InitialDepth, Maintenance, i + 1);
        assert ext == [order] + [m];
        SingleRecord(m);
        forall id: nat
          ensures WasMaintained(ext, id) <==> WasMaintained([order], id) || WasMaintained([m], id)
        {
          WasMaintainedAppend([order], [m], id);
        }
      }
    }
  }

  /** Every record of one iteration is about gate i + 1 and stamped with the current time. */
  lemma StepRecords(p: Plant, depth: int, i: nat, success: nat -> bool)
    requires WellFormed(p) && i < NumGates
    ensures var r := Step(p, depth, i, success);
            RecordsFit(Appended(p.log, r.log), i, i + 1, p.now, p.now, depth)
  {
    StepLog(p, depth, i, success);
  }

  /** One iteration keeps every gate where its log history puts it. */
  lemma StepConsistent(p: Plant, depth: int, i: nat, success: nat -> bool)
    requires Consistent(p) && i < NumGates
    ensures Consistent(Step(p, depth, i, success))
  {
    var r := Step(p, depth, i, success);
    StepLog(p, depth, i, success);
    if p.gates[i] != Desired(depth, i) {
      var order := Action(p.now, depth, if Desired(depth, i) == Closed then CloseOrder else OpenOrder, i + 1);
      var m := Action(p.now, InitialDepth, Maintenance, i + 1);
      var ext := if success(p.drawn) then [order] else [order, m];
      assert r.log == p.log + ext;
      assert Replay(r.log, i + 1) == r.gates[i] by {
        if !success(p.drawn) {
          assert r.log[..|r.log| - 1] == p.log + [order];
        }
      }
      forall j | 0 <= j < NumGates && j != i
        ensures r.gates[j] == Replay(r.log, j + 1)
      {
        ReplayElsewhere(p.log, ext, j + 1);
      }
    }
  }

  /** One iteration keeps the log in time order and no later than the clock. */
  lemma StepTimely(p: Plant, depth: int, i: nat, success: nat -> bool)
    requires WellFormed(p) && Timely(p) && i < NumGates
    ensures Timely(Step(p, depth, i, success))
  {
    var r := Step(p, depth, i, success);
    StepRecords(p, depth, i, success);
    assert forall k :: |p.log| <= k < |r.log| ==> r.log[k] == Appended(p.log, r.log)[k - |p.log|];
    TimelyExtend(p, r);
  }

  // ---------------------------------------------------------------------
  // The whole loop

  /** A sweep issues exactly its plan and consumes one draw per order. */
  lemma {:induction false} SweepOrders(p: Plant, depth: int, i: nat, success: nat -> bool, r: Plant)
    requires WellFormed(p) && i <= NumGates && r == Sweep(p, depth, i, success)
    ensures && OrdersOf(Appended(p.log, r.log)) == Plan(p.gates, depth, i)
            && r.drawn == p.drawn + |Plan(p.gates, depth, i)|
    decreases NumGates - i
  {
    if i == NumGates {
      assert Appended(p.log, p.log) == [];
    } else {
      var q := Step(p, depth, i, success);
      StepOrders(p, depth, i, success);
      SweepOrders(q, depth, i + 1, success, r);
      AppendedSplit(p.log, q.log, r.log);
      OrdersOfAppend(Appended(p.log, q.log), Appended(q.log, r.log));
      PlanFrame(q.gates, p.gates, depth, i + 1);
    }
  }

  /** A sweep's clock advances by MaintenanceTime per failed draw, and only then. */
  lemma {:induction false} SweepClock(p: Plant, depth: int, i: nat, success: nat -> bool, r: Plant)
    requires WellFormed(p) && i <= NumGates && r == Sweep(p, depth, i, success)
    ensures && Failures(Appended(p.log, r.log)) == FailedDraws(success, p.drawn, r.drawn)
            && r.now == p.now + MaintenanceTime * Failures(Appended(p.log, r.log))
    decreases NumGates - i
  {
    if i == NumGates {
      assert Appended(p.log, p.log) == [];
    } else {
      var q := Step(p, depth, i, success);
      StepClock(p, depth, i, success);
      SweepClock(q, depth, i + 1, success, r);
      AppendedSplit(p.log, q.log, r.log);
      ClockCompose(Appended(p.log, q.log), Appended(q.log, r.log), success, p.drawn, q.drawn, r.drawn,
                   p.now, q.now, r.now);
    }
  }

  /** Records a sweep appends: gate ids above i and non-decreasing, times within the sweep, depths as logged. */
  lemma {:induction false} SweepRecords(p: Plant, depth: int, i: nat, success: nat -> bool, r: Plant)
    requires WellFormed(p) && i <= NumGates && r == Sweep(p, depth, i, success)
    ensures && RecordsFit(Appended(p.log, r.log), i, NumGates, p.now, r.now, depth)
            && GateOrdered(Appended(p.log, r.log))
    decreases NumGates - i
  {
    if i == NumGates {
      assert Appended(p.log, p.log) == [];
    } else {
      var q := Step(p, depth, i, success);
      StepRecords(p, depth, i, success);
      SweepRecords(q, depth, i + 1, success, r);
      AppendedSplit(p.log, q.log, r.log);
      RecordsCompose(Appended(p.log, q.log), Appended(q.log, r.log), i, NumGates, p.now, q.now, r.now, depth);
    }
  }

  /** A sweep from gate index i sends no gate with id at most i, that is no earlier gate, to maintenance. */
  lemma {:induction false} SweepMaintainsOnlyCovered(p: Plant, depth: int, i: nat, id: nat, success: nat -> bool, r: Plant)
    requires WellFormed(p) && id <= i <= NumGates && r == Sweep(p, depth, i, success)
    ensures !WasMaintained(Appended(p.log, r.log), id)
    decreases NumGates - i
  {
    if i == NumGates {
      assert Appended(p.log, p.log) == [];
    } else {
      var q := Step(p, depth, i, success);
      StepGate(p, depth, i, success);
      SweepMaintainsOnlyCovered(q, depth, i + 1, id, success, r);
      AppendedSplit(p.log, q.log, r.log);
      WasMaintainedAppend(Appended(p.log, q.log), Appended(q.log, r.log), id);
    }
  }

  /** After a sweep, a covered gate is open if it went through maintenance and in its desired position otherwise. */
  lemma {:induction false} SweepGateOutcome(p: Plant, depth: int, i: nat, j: nat, success: nat -> bool, r: Plant)
    requires WellFormed(p) && i <= j < NumGates && r == Sweep(p, depth, i, success)
    ensures r.gates[j] == (if WasMaintained(Appended(p.log, r.log), j + 1) then Open else Desired(depth, j))
    decreases NumGates - i
  {
    var q := Step(p, depth, i, success);
    var ext1 := Appended(p.log, q.log);
    var ext2 := Appended(q.log, r.log);
    StepGate(p, depth, i, success);
    AppendedSplit(p.log, q.log, r.log);
    WasMaintainedAppend(ext1, ext2, j + 1);
    if j == i {
      SweepMaintainsOnlyCovered(q, depth, i + 1, i + 1, success, r);
      assert r.gates[i] == q.gates[i];
    } else {
      SweepGateOutcome(q, depth, i + 1, j, success, r);
    }
  }

  /** A sweep keeps the gates consistent with the log and the log in time order. */
  lemma {:induction false} SweepPreserves(p: Plant, depth: int, i: nat, success: nat -> bool)
    requires WellFormed(p) && i <= NumGates
    ensures Consistent(p) ==> Consistent(Sweep(p, depth, i, success))
    ensures Timely(p) ==> Timely(Sweep(p, depth, i, success))
    decreases NumGates - i
  {
    if i < NumGates {
      if Consistent(p) {
        StepConsistent(p, depth, i, success);
      }
      if Timely(p) {
        StepTimely(p, depth, i, success);
      }
      SweepPreserves(Step(p, depth, i, success), depth, i + 1, success);
    }
  }

  /** A sweep over gates that are all in their desired positions changes nothing. */
  lemma {:induction false} SweepSettled(p: Plant, depth: int, i: nat, success: nat -> bool)
    requires WellFormed(p) && i <= NumGates
    requires forall j :: i <= j < NumGates ==> p.gates[j] == Desired(depth, j)
    ensures Sweep(p, depth, i, success) == p
    decreases NumGates - i
  {
    if i < NumGates {
      assert Step(p, depth, i, success) == p;
      SweepSettled(p, depth, i + 1, success);
    }
  }

  // ---------------------------------------------------------------------
  // One run of the controller

  /**
   * The orders one evaluation logs are exactly the plan read off the gate
   * positions before it, in ascending gate id, one draw each; the log
   * grows by one record per order plus one per failure.
   */
  lemma EvaluateOrders(p: Plant, depth: int, success: nat -> bool)
    requires WellFormed(p)
    ensures var r := Evaluate(p, depth, success);
            var ext := Appended(p.log, r.log);
            && OrdersOf(ext) == Plan(p.gates, depth, 0)
            && r.drawn == p.drawn + |Plan(p.gates, depth, 0)|
            && |r.log| == |p.log| + |Plan(p.gates, depth, 0)| + Failures(ext)
            && forall a, b :: 0 <= a < b < |OrdersOf(ext)| ==> OrdersOf(ext)[a].gate < OrdersOf(ext)[b].gate
  {
    var r := Evaluate(p, depth, success);
    SweepOrders(p, depth, 0, success, r);
    PlanAscending(p.gates, depth, 0);
    LogSize(Appended(p.log, r.log));
  }

  /**
   * The decision rule: a close order for gate i + 1 is logged iff the depth
   * is at or above its threshold and the gate was open; an open order iff
   * the depth is below it and the gate was closed.
   */
  lemma DecisionRule(p: Plant, depth: int, success: nat -> bool, i: nat)
    requires WellFormed(p) && i < NumGates
    ensures var ext := Appended(p.log, Evaluate(p, depth, success).log);
            && (Order(i + 1, Closed) in OrdersOf(ext) <==> depth >= Threshold(i) && p.gates[i] == Open)
            && (Order(i + 1, Open) in OrdersOf(ext) <==> depth < Threshold(i) && p.gates[i] == Closed)
  {
    SweepOrders(p, depth, 0, success, Evaluate(p, depth, success));
    PlanMembership(p.gates, depth, 0, Order(i + 1, Closed));
    PlanMembership(p.gates, depth, 0, Order(i + 1, Open));
  }

  /**
   * Each record of one evaluation names a real gate, carries a time between
   * the clock before and after it, and carries the evaluated depth if it is
   * an order or the constant InitialDepth if it is a maintenance record;
   * gate ids never decrease along them.
   */
  lemma EvaluateRecords(p: Plant, depth: int, success: nat -> bool)
    requires WellFormed(p)
    ensures var r := Evaluate(p, depth, success);
            && RecordsFit(Appended(p.log, r.log), 0, NumGates, p.now, r.now, depth)
            && GateOrdered(Appended(p.log, r.log))
  {
    SweepRecords(p, depth, 0, success, Evaluate(p, depth, success));
  }

  /** One evaluation advances the clock by MaintenanceTime per failed draw among the ones it consumed. */
  lemma EvaluateClock(p: Plant, depth: int, success: nat -> bool)
    requires WellFormed(p)
    ensures var r := Evaluate(p, depth, success);
            && Failures(Appended(p.log, r.log)) == FailedDraws(success, p.drawn, r.drawn)
            && r.now == p.now + MaintenanceTime * Failures(Appended(p.log, r.log))
  {
    SweepClock(p, depth, 0, success, Evaluate(p, depth, success));
  }

  /** After one evaluation, a gate is open if it went through maintenance and where the rule wants it otherwise. */
  lemma EvaluateGates(p: Plant, depth: int, success: nat -> bool)
    requires WellFormed(p)
    ensures var r := Evaluate(p, depth, success);
            forall j :: 0 <= j < NumGates ==>
              r.gates[j] == (if WasMaintained(Appended(p.log, r.log), j + 1) then Open else Desired(depth, j))
  {
    forall j | 0 <= j < NumGates
      ensures Evaluate(p, depth, success).gates[j] ==
                (if WasMaintained(Appended(p.log, Evaluate(p, depth, success).log), j + 1) then Open else Desired(depth, j))
    {
      SweepGateOutcome(p, depth, 0, j, success, Evaluate(p, depth, success));
    }
  }

  /** One evaluation keeps every gate where its log history puts it, and the log in time order. */
  lemma EvaluatePreserves(p: Plant, depth: int, success: nat -> bool)
    requires WellFormed(p)
    ensures Consistent(p) ==> Consistent(Evaluate(p, depth, success))
    ensures Timely(p) ==> Timely(Evaluate(p, depth, success))
  {
    SweepPreserves(p, depth, 0, success);
  }

  /**
   * Idempotence: an evaluation changes nothing at all (no order, no draw,
   * no time) exactly when every gate already sits where the rule wants it.
   */
  lemma EvaluateSettled(p: Plant, depth: int, success: nat -> bool)
    requires WellFormed(p)
    ensures Evaluate(p, depth, success) == p <==> forall j :: 0 <= j < NumGates ==> p.gates[j] == Desired(depth, j)
  {
    PlanEmpty(p.gates, depth, 0);
    if forall j :: 0 <= j < NumGates ==> p.gates[j] == Desired(depth, j) {
      SweepSettled(p, depth, 0, success);
    } else {
      SweepOrders(p, depth, 0, success, Evaluate(p, depth, success));
    }
  }

  /** Gates of a tick without failures end where the rule wants them. */
  lemma EvaluateGatesClean(p: Plant, depth: int, success: nat -> bool)
    requires WellFormed(p)
    requires Failures(Appended(p.log, Evaluate(p, depth, success).log)) == 0
    ensures forall j :: 0 <= j < NumGates ==> Evaluate(p, depth, success).gates[j] == Desired(depth, j)
  {
    var r := Evaluate(p, depth, success);
    forall j | 0 <= j < NumGates
      ensures r.gates[j] == Desired(depth, j)
    {
      SweepGateOutcome(p, depth, 0, j, success, Evaluate(p, depth, success));
      NoFailuresNoMaintenance(Appended(p.log, r.log), j + 1);
    }
  }

  /**
   * A tick without failures leaves gate i closed iff the depth reaches its
   * threshold, so the closed gates are exactly the first ClosedCount(depth);
   * evaluating again at the same depth then changes nothing.
   */
  lemma CleanTick(p: Plant, depth: int, success: nat -> bool, again: nat -> bool)
    requires WellFormed(p)
    requires Failures(Appended(p.log, Evaluate(p, depth, success).log)) == 0
    ensures var r := Evaluate(p, depth, success);
            && (forall j :: 0 <= j < NumGates ==> (r.gates[j] == Closed <==> depth >= Threshold(j)))
            && (forall j :: 0 <= j < NumGates ==> (r.gates[j] == Closed <==> j < ClosedCount(depth)))
            && Evaluate(r, depth, again) == r
  {
    var r := Evaluate(p, depth, success);
    EvaluateGatesClean(p, depth, success);
    forall j | 0 <= j < NumGates
      ensures r.gates[j] == Closed <==> j < ClosedCount(depth)
    {
      DesiredPrefix(depth, j);
    }
    EvaluateSettled(r, depth, again);
  }

  /** When every draw the tick may consume succeeds, it logs no maintenance and costs no time. */
  lemma AllSuccessTick(p: Plant, depth: int, success: nat -> bool)
    requires WellFormed(p)
    requires forall k :: p.drawn <= k < p.drawn + NumGates ==> success(k)
    ensures var r := Evaluate(p, depth, success);
            && Failures(Appended(p.log, r.log)) == 0
            && r.now == p.now
            && forall j :: 0 <= j < NumGates ==> r.gates[j] == Desired(depth, j)
  {
    var r := Evaluate(p, depth, success);
    EvaluateOrders(p, depth, success);
    PlanAscending(p.gates, depth, 0);
    FailedDrawsNone(success, p.drawn, r.drawn);
    EvaluateClock(p, depth, success);
    EvaluateGatesClean(p, depth, success);
  }
}
