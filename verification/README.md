# Floodgate contingency controller — Dafny model

This project models the river-flood contingency simulation in `main.py`.

- A driver runs ten cycles. Each cycle records the virtual time and the river depth, then runs the central controller at that depth. It then takes a new sensor reading and advances the clock by five units.
- The controller walks the 19 floodgates in ascending id. Gate `i + 1` has a closing threshold of 2.5 m + 0.05 m · i.
  - It orders a close when the depth is at or above the threshold and the gate is open.
  - It orders an open when the depth is below the threshold and the gate is closed.
  - Each order is logged, and the controller waits for the actuation to finish before it looks at the next gate.
- An actuation draws a success indicator.
  - On success the gate takes the ordered position.
  - On failure one maintenance record is logged, stamped with the current time and the constant initial depth. Maintenance then takes five units of virtual time and leaves the gate open, whichever order failed.

The model is split into four modules:

- `Floodgates` (`floodgates.dfy`): the configuration constants, the gate positions, the action log and the plant state.
  - It also defines the log summaries the proofs are stated in.
  - `Replay` is the position a gate's own log history implies. `Consistent` says every gate agrees with its `Replay`.
- `Gate` (`gate.dfy`): one actuation and its maintenance job.
- `Central` (`central.dfy`): the controller's decision, one loop iteration (`Step`), the loop (`Sweep`) and one full run (`Evaluate`).
  - `Plan` is an independent description of the orders a run must issue, read off the gate positions before the run.
- `Simulation` (`simulation.dfy`): the driver.
  - `Drive` takes the controller as a parameter.
  - The run-level properties are proved for any controller obeying `CycleLaw`.
  - `ControllerLawful` shows that the source's controller obeys it.

Representation choices:

- Depths and thresholds are integers in hundredths of a metre: threshold `i` is `250 + 5 i`, the initial depth is `270`, and a reading is in `250 .. 300`.
- The two random sources are inputs:
  - `sensor: nat -> Reading` gives the k-th reading;
  - `success: nat -> bool` gives the k-th actuation draw. The plant counts the draws consumed in `drawn`.
- A log record is `Action(time, depth, kind, gate)`. `kind` is `CloseOrder`, `OpenOrder` or `Maintenance`, and `gate` is the 1-based gate id, as in the source's labels.

What the source does, in detail:

- The source writes three kinds of record:
  - a close order (main.py:34) or an open order (main.py:38), logged before the actuation;
  - one maintenance record when an actuation fails (main.py:52).

  A successful actuation writes no record (main.py:44-49).
- The maintenance record carries the initial depth 2.7 m (main.py:52), not the depth being evaluated.
- The controller compares the depth with each gate's own threshold (main.py:32, main.py:36).
- A second evaluation at the same depth adds no record exactly when every gate then sits where the rule wants it (`EvaluateSettled`).
  - A failed close breaks this: maintenance leaves that gate open below its threshold, so the next evaluation orders the close again.
  - A failed open does not: maintenance leaves the gate open, which is where the rule wants it (`EvaluateGates`).

## Model

| member | source | states |
|---|---|---|
| Floodgates.Initial | main.py:19-22 | Before the first cycle every gate is open, the clock is 0 and the action log is empty. |
| Floodgates.Threshold | main.py:12 | Every closing threshold lies between 2.50 m and the last gate's 3.40 m. |
| Floodgates.ThresholdsIncrease | main.py:12 | Thresholds strictly increase with the gate id, by 5 cm per gate. |
| Floodgates.DesiredPrefix | main.py:12 | Thresholds rise with the gate index, so the gates the rule closes at a depth are exactly the first `ClosedCount(depth)`. |
| Gate.Maintain | main.py:56-61 | Maintenance takes five units of time and leaves the gate open whatever its position was; no other gate and no log record changes. |
| Gate.Actuate | main.py:41-54 | An actuation consumes one draw and changes only its own gate. On success the gate takes the target with no time and no record. On failure exactly one maintenance record (current time, depth 2.7 m, this gate) is appended, the clock advances five units and the gate ends open, also for a failed open. |
| Central.Decide | main.py:31-39 | Close iff depth ≥ threshold and gate open; open iff depth < threshold and gate closed; hold iff the gate already sits where the threshold rule wants it. |
| Central.Step | main.py:32-39 | One loop iteration keeps the plant well formed, only appends to the log, never moves the clock back, and changes no gate but its own. |
| Central.Sweep | main.py:31-39 | The loop from gate index i leaves the gates before i untouched and only appends to the log. |
| Central.Evaluate | main.py:28-39 | One controller run keeps 19 gates, only appends to the log and never moves the clock or the draw count back. |
| Central.PlanMembership | main.py:31-39 | An order is planned for a gate exactly when it is not in its desired position, and the order asks for that position. |
| Central.PlanAscending | main.py:31 | Planned orders name gates in strictly ascending id, at most one per gate. |
| Central.PlanEmpty | main.py:31-39 | The plan is empty exactly when every gate already sits in its desired position. |
| Central.StepLog | main.py:32-53 | One iteration appends nothing when the gate is settled. Otherwise it appends the order, stamped with the current time and depth, and on a failed draw one maintenance record, with the gate then open and the clock five units later. |
| Central.StepOrders | main.py:32-39 | One iteration logs exactly the order the rule calls for at its gate and consumes one draw per order. |
| Central.StepClock | main.py:43-59 | One iteration costs five units of time exactly when the draw of its order fails. |
| Central.StepGate | main.py:44-61 | After one iteration its gate is open if it went through maintenance and in its desired position otherwise; no other gate is maintained. |
| Central.StepConsistent | main.py:32-61 | One iteration keeps every gate equal to the position its log history implies. |
| Central.StepTimely | main.py:34-52 | One iteration keeps the log in time order and no later than the clock. |
| Central.SweepOrders | main.py:31-39 | The loop logs exactly its plan, in order, and consumes one draw per order. |
| Central.SweepClock | main.py:35-59 | The loop's clock advances five units per failed draw and the failures logged equal the failed draws consumed. |
| Central.SweepRecords | main.py:31-52 | Records the loop appends name gates it covers, in non-decreasing id, stamped within the loop's time span, with the evaluated depth on orders and 2.7 m on maintenance records. |
| Central.SweepMaintainsOnlyCovered | main.py:31-53 | The loop from gate index i sends no earlier gate to maintenance. |
| Central.SweepGateOutcome | main.py:31-61 | After the loop a covered gate is open if it went through maintenance and where the threshold rule wants it otherwise. |
| Central.SweepPreserves | main.py:31-61 | The loop keeps the gates consistent with the log and the log in time order. |
| Central.SweepSettled | main.py:31-39 | A loop over settled gates changes nothing. |
| Central.EvaluateOrders | main.py:31-39 | The orders of one controller run are exactly the plan read off the positions before it, in strictly ascending gate id, one draw each; the log grows by the orders plus the failures. |
| Central.DecisionRule | main.py:32-39 | A close order for gate i + 1 is logged iff depth ≥ its threshold and it was open; an open order iff depth < its threshold and it was closed. |
| Central.EvaluateRecords | main.py:34-52 | Every record of one run names a real gate, in non-decreasing id, with a time within the run and the evaluated depth (orders) or 2.7 m (maintenance). |
| Central.EvaluateClock | main.py:43-59 | One run advances the clock by five units per failed draw, and logs one maintenance record per failed draw. |
| Central.EvaluateGates | main.py:41-61 | After one run each gate is open if it was maintained during the run and where the threshold rule wants it otherwise. |
| Central.EvaluatePreserves | main.py:28-61 | One run keeps the gates consistent with their log history and the log in time order. |
| Central.EvaluateSettled | main.py:31-39 | A run changes nothing at all iff every gate already sits where the threshold rule wants it. |
| Central.EvaluateGatesClean | main.py:41-49 | A run without failures leaves every gate where the threshold rule wants it. |
| Central.CleanTick | main.py:31-49 | After a run without failures gate i is closed iff the depth reaches its threshold, the closed gates are a prefix, and running again at that depth changes nothing. |
| Central.AllSuccessTick | main.py:43-49 | When every draw succeeds, a run logs no maintenance, costs no time and leaves every gate where the threshold rule wants it. |
| Simulation.Drive | main.py:66-69 | n cycles record exactly n times and n depths. |
| Simulation.DriveLoop | main.py:63-72 | The imperative loop (record, run the controller, read, advance the clock) computes the same trace as the recursive driver. |
| Simulation.Simular | main.py:63-72 | The simulation records ten times and ten depths, the first at time 0 with depth 2.7 m. |
| Simulation.ControllerLawful | main.py:28-61 | The source's controller obeys the cycle law for any draws: only appends, stamps records no earlier than the clock, advances the clock five units per failure, preserves consistency and time order. |
| Simulation.AllSuccessFaultless | main.py:41-49 | With draws that never fail, the controller logs no maintenance and settles every gate. |
| Simulation.DriveWellFormed | main.py:66-72 | Every cycle keeps 19 gates. |
| Simulation.DriveInvariant | main.py:66-72 | After n cycles the gates agree with the log, the log is in time order and every record is at least five units before the clock, and the clock is 5 n plus 5 per failure. |
| Simulation.DriveObservations | main.py:65-72 | Cycle k records the depth it evaluates; the first time is 0; observation times rise by at least five units per cycle and lie before the clock. |
| Simulation.DriveExtends | main.py:66-72 | A later cycle keeps all earlier records, and what it adds is stamped no earlier than the clock at the earlier cycle. |
| Simulation.ObservationTimes | main.py:54-72 | The k-th observation time is 5 k plus 5 per maintenance record stamped strictly before it. |
| Simulation.TimesExtend | main.py:68-72 | Appending the observation at the current clock and records stamped no earlier keeps the observation-time formula. |
| Simulation.FaultlessRun | main.py:66-72 | With a controller that never fails, no maintenance is logged, the clock is 5 n, and after the last cycle gate i is closed iff that cycle's depth reaches its threshold. |
| Simulation.FaultlessTimes | main.py:68-72 | With a controller that never fails, observation k is at time 5 k. |
| Simulation.CycleLog | main.py:34-52 | Cycle k grows the log by one record per planned order plus one per failure. |
| Simulation.SimulateObservations | main.py:65-71 | The simulation observes ten depths: 2.7 m first, then the readings in order, the first at time 0. |
| Simulation.SimulateClock | main.py:54-72 | At the end of the simulation the gates agree with the log and observation k is at 5 k plus 5 per earlier failure. |
| Simulation.AllSuccessRun | main.py:41-72 | When no draw fails, no record in the log is a maintenance record and after every cycle gate i is closed iff the cycle's depth reaches its threshold. |
| Simulation.AllSuccessTimes | main.py:66-72 | When no draw fails, observation k is at time 5 k. |

## Left out

- The simpy environment, its event queue and process scheduling (main.py:75-81). The controller, the actuation and the maintenance are sequential, so the model composes them as functions. The `timeout(0)` at main.py:54 moves no time and is not modelled.
- The random distributions (main.py:26, main.py:43) and the success rate 0.9 (main.py:8). Readings and draws are arbitrary input streams, so every property holds for every outcome.
- The single shared random generator. The source draws readings and successes from one generator; the model uses two independent streams.
- The float arithmetic of the thresholds and readings. Depths are exact integer hundredths.
- The print calls (main.py:13, in `central`, `gerenciar_comporta`, `manutencao` and `simular`) and the plotting (main.py:84-121).
- The Portuguese record labels. They are replaced by the `Kind` datatype and the gate id.
- Simulation.ControllerOf: its branch for a plant without 19 gates is never taken, because every run keeps 19 gates (`DriveWellFormed`).
