/**
 * One gate's actuation and the maintenance job that follows a failed one.
 * Each actuation consumes the next success draw of the stream; the draw
 * decides whether the gate takes the ordered position or is sent to
 * maintenance.
 */
module Gate {
  import opened Floodgates

  /**
   * Maintenance of gate `id`: it takes MaintenanceTime units of virtual
   * time and leaves the gate open, whatever position it was in before.
   */
  function Maintain(p: Plant, id: nat): (r: Plant)
    requires 1 <= id <= |p.gates|
    ensures |r.gates| == |p.gates| && r.gates[id - 1] == Open
    ensures forall j :: 0 <= j < |p.gates| && j != id - 1 ==> r.gates[j] == p.gates[j]
    ensures r.now == p.now + MaintenanceTime
    ensures r.log == p.log && r.drawn == p.drawn
  {
    p.(gates := p.gates[id - 1 := Open], now := p.now + MaintenanceTime)
  }

  /**
   * Actuation of gate `id` towards `target`.  A successful draw moves the
   * gate and costs no time; a failed one appends exactly one maintenance
   * record, stamped with the current time and the constant InitialDepth
   * rather than the current depth, and runs maintenance, which reopens the
   * gate.  Only gate `id` changes and the log only grows.
   */
  function Actuate(p: Plant, id: nat, target: Position, success: nat -> bool): (r: Plant)
    requires 1 <= id <= |p.gates|
    ensures |r.gates| == |p.gates|
    ensures forall j :: 0 <= j < |p.gates| && j != id - 1 ==> r.gates[j] == p.gates[j]
    ensures r.drawn == p.drawn + 1
    ensures success(p.drawn) ==> r.gates[id - 1] == target && r.now == p.now && r.log == p.log
    ensures !success(p.drawn) ==>
              && r.gates[id - 1] == Open
              && r.now == p.now + MaintenanceTime
              && r.log == p.log + [Action(p.now, InitialDepth, Maintenance, id)]
    ensures target == Open ==> r.gates[id - 1] == Open
  {
    var q := p.(drawn := p.drawn + 1);
    if success(p.drawn) then
      q.(gates := q.gates[id - 1 := target])
    else
      Maintain(q.(log := q.log + [Action(p.now, InitialDepth, Maintenance, id)]), id)
  }
}
