/**
 * Data model of the river-flood contingency simulation: its fixed
 * configuration, the gate positions, the action log and the plant state
 * that every component threads through.  Depths and thresholds are
 * integers in hundredths of a metre (2.7 m is 270).
 */
module Floodgates {

  /** Virtual time between two depth readings. */
  const ReadInterval: nat := 5
  /** Number of floodgates. */
  const NumGates: nat := 19
  /** Number of cycles the driver runs. */
  const NumCycles: nat := 10
  /** Virtual time one maintenance job takes. */
  const MaintenanceTime: nat := 5
  /** Depth of the first observation, and the depth written on every maintenance record. */
  const InitialDepth: int := 270

  /** A sensor reading: 2.50 m to 3.00 m, rounded to the centimetre. */
  type Reading = d: int | 250 <= d <= 300 witness 250

  /**
   * Closing threshold of the gate at 0-based index i: 2.5 m + i * 0.05 m.
   * Every threshold lies between the lowest reading, 2.50 m, and the
   * threshold of the last gate.
   */
  function Threshold(i: nat): (t: int)
    requires i < NumGates
    ensures 250 <= t <= 250 + 5 * (NumGates - 1)
  {
    250 + 5 * i
  }

  /** Thresholds strictly increase with the gate index, by 5 cm per gate. */
  lemma ThresholdsIncrease(i: nat, j: nat)
    requires i < j < NumGates
    ensures Threshold(i) < Threshold(j)
    ensures Threshold(j) - Threshold(i) == 5 * (j - i)
  {
  }

  datatype Position = Open | Closed

  /** Where the control rule wants gate i to be at the given depth. */
  function Desired(depth: int, i: nat): Position
    requires i < NumGates
  {
    if depth >= Threshold(i) then Closed else Open
  }

  datatype Kind = CloseOrder | OpenOrder | Maintenance

  /** One entry of the action log; `gate` is the 1-based gate id. */
  datatype Action = Action(time: int, depth: int, kind: Kind, gate: nat)

  /**
   * The whole mutable state of one simulation run: the gate positions
   * (index i holds gate i + 1), the virtual clock, the append-only action
   * log, and how many success draws have been consumed so far.
   */
  datatype Plant = Plant(gates: seq<Position>, now: int, log: seq<Action>, drawn: nat)

  predicate WellFormed(p: Plant)
  {
    |p.gates| == NumGates
  }

  /** The state before the first cycle: every gate open, clock at zero, empty log. */
  function Initial(): (p: Plant)
    ensures WellFormed(p)
    ensures forall i :: 0 <= i < NumGates ==> p.gates[i] == Open
    ensures p.now == 0 && p.log == [] && p.drawn == 0
  {
    Plant(seq(NumGates, _ => Open), 0, [], 0)
  }

  /** Number of maintenance records in a log, one per failed actuation. */
  function Failures(log: seq<Action>): nat
  {
    if log == [] then 0
    else Failures(log[..|log| - 1]) + (if log[|log| - 1].kind == Maintenance then 1 else 0)
  }

  /** True when the log holds a maintenance record for gate `id`. */
  predicate WasMaintained(log: seq<Action>, id: nat)
  {
    if log == [] then false
    else (log[|log| - 1].kind == Maintenance && log[|log| - 1].gate == id) || WasMaintained(log[..|log| - 1], id)
  }

  /** An order as the controller issues it: which gate, and which position it asks for. */
  datatype Order = Order(gate: nat, target: Position)

  /** The orders recorded in a log, in log order, with maintenance records dropped. */
  function OrdersOf(log: seq<Action>): seq<Order>
  {
    if log == [] then []
    else
      var a := log[|log| - 1];
      OrdersOf(log[..|log| - 1]) +
        match a.kind
        case CloseOrder => [Order(a.gate, Closed)]
        case OpenOrder => [Order(a.gate, Open)]
        case Maintenance => []
  }

  /**
   * The position of gate `id` that the log alone implies: closed exactly
   * when the last record about that gate is a close order, since a close
   * that failed is followed by a maintenance record, which reopens it.
   */
  function Replay(log: seq<Action>, id: nat): Position
  {
    if log == [] then Open
    else if log[|log| - 1].gate == id then (if log[|log| - 1].kind == CloseOrder then Closed else Open)
    else Replay(log[..|log| - 1], id)
  }

  /** Every gate sits where its own log history puts it. */
  predicate Consistent(p: Plant)
  {
    WellFormed(p) && forall i :: 0 <= i < NumGates ==> p.gates[i] == Replay(p.log, i + 1)
  }

  /** Log times never decrease. */
  predicate Chronological(log: seq<Action>)
  {
    forall a, b :: 0 <= a < b < |log| ==> log[a].time <= log[b].time
  }

  /** The log is in time order and nothing in it is later than the clock. */
  predicate Timely(p: Plant)
  {
    Chronological(p.log) && forall k :: 0 <= k < |p.log| ==> p.log[k].time <= p.now
  }

  /** Number of failed draws among the success draws at positions lo, ..., hi - 1. */
  function FailedDraws(success: nat -> bool, lo: nat, hi: nat): nat
    requires lo <= hi
    decreases hi
  {
    if lo == hi then 0
    else FailedDraws(success, lo, hi - 1) + (if success(hi - 1) then 0 else 1)
  }

  /** The records a run appended after the state whose log was `before`. */
  function Appended(before: seq<Action>, after: seq<Action>): (ext: seq<Action>)
    requires before <= after
    ensures after == before + ext
  {
    after[|before|..]
  }

  lemma AppendedSplit(a: seq<Action>, b: seq<Action>, c: seq<Action>)
    requires a <= b && b <= c
    ensures a <= c
    ensures Appended(a, c) == Appended(a, b) + Appended(b, c)
  {
  }

  /** Appending records stamped with the current time keeps a plant timely. */
  lemma TimelyExtend(p: Plant, r: Plant)
    requires Timely(p) && p.log <= r.log && p.now <= r.now
    requires forall k :: |p.log| <= k < |r.log| ==> r.log[k].time == p.now
    ensures Timely(r)
  {
    assert forall k :: 0 <= k < |p.log| ==> r.log[k] == p.log[k];
  }

  /** The log summaries of a single record. */
  lemma SingleRecord(a: Action)
    ensures Failures([a]) == (if a.kind == Maintenance then 1 else 0)
    ensures OrdersOf([a]) == match a.kind
                             case CloseOrder => [Order(a.gate, Closed)]
                             case OpenOrder => [Order(a.gate, Open)]
                             case Maintenance => []
    ensures forall id: nat :: WasMaintained([a], id) <==> a.kind == Maintenance && a.gate == id
  {
    assert [a][..0] == [];
  }

  /**
   * Every record names a gate with id in lo + 1 .. hi, is stamped between
   * t0 and t1, and carries the given depth if it is an order or
   * InitialDepth if it is a maintenance record.
   */
  predicate RecordsFit(ext: seq<Action>, lo: int, hi: int, t0: int, t1: int, depth: int)
  {
    forall k :: 0 <= k < |ext| ==>
      && lo < ext[k].gate <= hi
      && t0 <= ext[k].time <= t1
      && ext[k].depth == (if ext[k].kind == Maintenance then InitialDepth else depth)
  }

  /** Gate ids never decrease along the records. */
  predicate GateOrdered(ext: seq<Action>)
  {
    forall a, b :: 0 <= a < b < |ext| ==> ext[a].gate <= ext[b].gate
  }

  /** Records of one gate followed by records of later gates stay in gate order and fit the joint bounds. */
  lemma RecordsCompose(e1: seq<Action>, e2: seq<Action>, lo: int, hi: int, t0: int, t1: int, t2: int, depth: int)
    requires RecordsFit(e1, lo, lo + 1, t0, t0, depth) && lo + 1 <= hi
    requires RecordsFit(e2, lo + 1, hi, t1, t2, depth) && GateOrdered(e2)
    requires t0 <= t1 <= t2
    ensures RecordsFit(e1 + e2, lo, hi, t0, t2, depth)
    ensures GateOrdered(e1 + e2)
  {
  }

  lemma {:induction false} FailuresAppend(a: seq<Action>, b: seq<Action>)
    ensures Failures(a + b) == Failures(a) + Failures(b)
    decreases |b|
  {
    if b == [] {
      assert a + b == a;
    } else {
      var b' := b[..|b| - 1];
      assert (a + b)[..|a + b| - 1] == a + b';
      FailuresAppend(a, b');
    }
  }

  /** A log has no failures exactly when it holds no maintenance record. */
  lemma {:induction false} FailuresZero(log: seq<Action>)
    ensures Failures(log) == 0 <==> forall k :: 0 <= k < |log| ==> log[k].kind != Maintenance
    decreases |log|
  {
    if log != [] {
      var init := log[..|log| - 1];
      FailuresZero(init);
      assert forall k :: 0 <= k < |init| ==> init[k] == log[k];
    }
  }

  lemma {:induction false} OrdersOfAppend(a: seq<Action>, b: seq<Action>)
    ensures OrdersOf(a + b) == OrdersOf(a) + OrdersOf(b)
    decreases |b|
  {
    if b == [] {
      assert a + b == a;
    } else {
      var b' := b[..|b| - 1];
      assert (a + b)[..|a + b| - 1] == a + b';
      OrdersOfAppend(a, b');
    }
  }

  lemma {:induction false} WasMaintainedAppend(a: seq<Action>, b: seq<Action>, id: nat)
    ensures WasMaintained(a + b, id) <==> WasMaintained(a, id) || WasMaintained(b, id)
    decreases |b|
  {
    if b == [] {
      assert a + b == a;
    } else {
      var b' := b[..|b| - 1];
      assert (a + b)[..|a + b| - 1] == a + b';
      WasMaintainedAppend(a, b', id);
    }
  }

  /** Records about other gates do not change what the log implies for `id`. */
  lemma {:induction false} ReplayElsewhere(a: seq<Action>, b: seq<Action>, id: nat)
    requires forall k :: 0 <= k < |b| ==> b[k].gate != id
    ensures Replay(a + b, id) == Replay(a, id)
    decreases |b|
  {
    if b == [] {
      assert a + b == a;
    } else {
      var b' := b[..|b| - 1];
      assert (a + b)[..|a + b| - 1] == a + b';
      ReplayElsewhere(a, b', id);
    }
  }

  /** Every record is either an order or a maintenance record. */
  lemma {:induction false} LogSize(log: seq<Action>)
    ensures |log| == |OrdersOf(log)| + Failures(log)
    decreases |log|
  {
    if log != [] {
      LogSize(log[..|log| - 1]);
    }
  }

  /** A log with no failures sends no gate to maintenance. */
  lemma {:induction false} NoFailuresNoMaintenance(log: seq<Action>, id: nat)
    requires Failures(log) == 0
    ensures !WasMaintained(log, id)
    decreases |log|
  {
    if log != [] {
      NoFailuresNoMaintenance(log[..|log| - 1], id);
    }
  }

  /** Number of gates whose threshold the depth reaches. */
  function ClosedCount(depth: int): (k: nat)
    ensures k <= NumGates
  {
    if depth < Threshold(0) then 0
    else if depth >= Threshold(NumGates - 1) then NumGates
    else (depth - Threshold(0)) / 5 + 1
  }

  /** Thresholds increase with the gate index, so the gates the rule closes are a prefix. */
  lemma DesiredPrefix(depth: int, j: nat)
    requires j < NumGates
    ensures Desired(depth, j) == Closed <==> j < ClosedCount(depth)
  {
    if Threshold(0) <= depth < Threshold(NumGates - 1) {
      var k := (depth - Threshold(0)) / 5;
      assert 5 * k <= depth - 250 < 5 * k + 5;
    }
  }

  lemma {:induction false} FailedDrawsSplit(success: nat -> bool, a: nat, b: nat, c: nat)
    requires a <= b <= c
    ensures FailedDraws(success, a, c) == FailedDraws(success, a, b) + FailedDraws(success, b, c)
    decreases c
  {
    if b < c {
      FailedDrawsSplit(success, a, b, c - 1);
    }
  }

  /** Clock and failure accounting of two consecutive runs adds up. */
  lemma ClockCompose(e1: seq<Action>, e2: seq<Action>, success: nat -> bool, d0: nat, d1: nat, d2: nat,
                     t0: int, t1: int, t2: int)
    requires d0 <= d1 <= d2
    requires Failures(e1) == FailedDraws(success, d0, d1)
    requires Failures(e2) == FailedDraws(success, d1, d2)
    requires t1 == t0 + MaintenanceTime * Failures(e1)
    requires t2 == t1 + MaintenanceTime * Failures(e2)
    ensures Failures(e1 + e2) == FailedDraws(success, d0, d2)
    ensures t2 == t0 + MaintenanceTime * Failures(e1 + e2)
  {
    FailuresAppend(e1, e2);
    FailedDrawsSplit(success, d0, d1, d2);
  }

  /** Draws that all succeed contain no failure. */
  lemma {:induction false} FailedDrawsNone(success: nat -> bool, lo: nat, hi: nat)
    requires lo <= hi
    requires forall k :: lo <= k < hi ==> success(k)
    ensures FailedDraws(success, lo, hi) == 0
    decreases hi
  {
    if hi > lo {
      FailedDrawsNone(success, lo, hi - 1);
    }
  }
}
