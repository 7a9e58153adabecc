/**
 * Concrete circuits and readings: the situations the library's own
 * examples exercise, stated over the model with exact reals.
 */
module Scenarios {
  import opened Options
  import opened Dense
  import opened Nodes
  import opened Components
  import opened Circuits
  import opened Transient
  import opened Probes

  /** Two nodes constructed in a row from natural ids: ids are non-negative and increase, voltages start at 0. */
  lemma NodeIdsIncrease(c: Circuit)
    requires NaturalIds(c)
    ensures var r1 := CreateNode(c);
      var r2 := CreateNode(r1.0);
      && r2.0.heap[r1.1].id >= 0 && r2.0.heap[r2.1].id > r2.0.heap[r1.1].id
      && r2.0.heap[r1.1].voltage == 0.0 && r2.0.heap[r2.1].voltage == 0.0
  {
  }

  /** A DC source reads its level at every time, 5 V at 0 s and at 100 s in particular. */
  lemma DcIsConstant(level: real, t: real)
    ensures GetVoltage(DC(level), t) == level
    ensures GetVoltage(DC(5.0), 0.0) == 5.0 && GetVoltage(DC(5.0), 100.0) == 5.0
  {
  }

  /** Custom sources read their function: a constant, a ramp `2t` and a unit step to 10 V at 1 s. */
  lemma CustomReadings()
    ensures GetVoltage(Custom(t => 7.5), 0.0) == 7.5 && GetVoltage(Custom(t => 7.5), 100.0) == 7.5
    ensures var ramp := Custom(t => 2.0 * t);
      GetVoltage(ramp, 0.0) == 0.0 && GetVoltage(ramp, 1.0) == 2.0 && GetVoltage(ramp, 5.0) == 10.0
    ensures var step := Custom(t => if t < 1.0 then 0.0 else 10.0);
      && GetVoltage(step, 0.0) == 0.0 && GetVoltage(step, 0.5) == 0.0
      && GetVoltage(step, 1.0) == 10.0 && GetVoltage(step, 2.0) == 10.0
  {
  }

  /** A fresh source stores no current; a stored current reads back. */
  lemma SourceCurrentReadBack(w: Waveform, x: real)
    ensures StoredCurrent(NewSource(w)) == 0.0
    ensures StoredCurrent(SetCurrent(NewSource(w), x)) == x
    ensures SetCurrent(NewSource(w), x).VSource?
  {
  }

  /** A resistor of `r` ohms wired from handle 0 to handle 1. */
  function WiredResistor(r: real): Component {
    Connect(Unconnected(Resistor(r)), Some(0), Some(1))
  }

  /** Ohm's law: 5 V across 1 kΩ gives 5 mA, and a probe on 10 V across 1 kΩ reads 10 mA. */
  lemma OhmReadings()
    ensures ResistorCurrent([Node(0, 5.0), Node(1, 0.0)], WiredResistor(1000.0)) == 0.005
    ensures var c := Circuit([Node(0, 10.0), Node(1, 0.0)], 2, [WiredResistor(1000.0)], [], 0.0);
      Attached(c, OnPart(Some(0))) && ProbeCurrent(c, OnPart(Some(0))) == 0.01
  {
  }

  /** A probe on a node at 3.3 V reads 3.3 V, and a probe without a node reads 0. */
  lemma ProbeReadings()
    ensures var c := Circuit([Node(0, 3.3)], 1, [], [], 0.0);
      ProbeVoltage(c, OnNode(Some(0))) == 3.3 && ProbeVoltage(c, OnNode(None)) == 0.0
      && ProbeCurrent(c, OnPart(None)) == 0.0
  {
  }

  /** Two steps of 1 ms from a fresh clock read 2 ms; a reset reads 0 again. */
  lemma StepClock(c: Circuit, solve: Solver)
    requires Valid(c) && Physical(c.parts) && CurrentTime(c) == 0.0
    ensures var c1 := Step(c, 0.001, solve);
      var c2 := Step(c1, 0.001, solve);
      CurrentTime(c1) == 0.001 && CurrentTime(c2) == 0.002 && CurrentTime(ResetTime(c2)) == 0.0
  {
  }

  /** A source ramping at 10 V/s from 0 V at time 0. */
  const Ramp: Waveform := Custom(t => t * 10.0)

  /**
   * Ground (handle 0, id 0) and `node1` (handle 1, id 1), with the ramp
   * source and a 100 Ω resistor, each from `node1` to ground.
   */
  function RampCircuit(): (c: Circuit)
    ensures Valid(c) && Physical(c.parts) && NaturalIds(c) && c.time == 0.0
  {
    Circuit([Node(0, 0.0), Node(1, 0.0)], 2,
            [Component(NewSource(Ramp), Some(1), Some(0)), Component(Resistor(100.0), Some(1), Some(0))],
            [1, 0], 0.0)
  }

  /**
   * The ramp circuit is what a fresh session builds: construct ground,
   * then `node1`, then add the source and the resistor between them.
   */
  lemma RampCircuitBuilt()
    ensures var g := CreateNode(Empty());
      var n := CreateNode(g.0);
      var c1 := AddComponent(n.0, Unconnected(NewSource(Ramp)), n.1, g.1);
      AddComponent(c1, Unconnected(Resistor(100.0)), n.1, g.1) == RampCircuit()
  {
    var g := CreateNode(Empty());
    assert g == (Circuit([Node(0, 0.0)], 1, [], [], 0.0), 0);
    var n := CreateNode(g.0);
    assert n.0.heap == [Node(0, 0.0), Node(1, 0.0)] && n.1 == 1;
    assert n.0 == Circuit([Node(0, 0.0), Node(1, 0.0)], 2, [], [], 0.0);
    var c1 := AddComponent(n.0, Unconnected(NewSource(Ramp)), n.1, g.1);
    assert Connect(Unconnected(NewSource(Ramp)), Some(1), Some(0)) == Component(NewSource(Ramp), Some(1), Some(0));
    assert c1 == Circuit([Node(0, 0.0), Node(1, 0.0)], 2, [Component(NewSource(Ramp), Some(1), Some(0))], [1, 0], 0.0);
    assert Connect(Unconnected(Resistor(100.0)), Some(1), Some(0)) == Component(Resistor(100.0), Some(1), Some(0));
  }

  /** The ramp circuit at any point of its run: its nodes, ids and source as built, the state free. */
  ghost predicate RampLike(c: Circuit) {
    && Valid(c) && Physical(c.parts) && NaturalIds(c)
    && c.nodes == [1, 0] && |c.heap| == 2 && c.heap[0].id == 0 && c.heap[1].id == 1
    && |c.parts| > 0 && c.parts[0].node1 == Some(1) && c.parts[0].node2 == Some(0)
    && c.parts[0].elem.VSource? && c.parts[0].elem.wave == Ramp
  }

  /** `c` is ramp-like and the solver's answer for its step of `dt` satisfies the source's row. */
  ghost predicate RampSolved(c: Circuit, dt: real, solve: Solver) {
    && RampLike(c)
    && SolvesSourceRow(c, dt, StepSolution(c, dt, solve), 0)
  }

  /**
   * One step of the ramp circuit whose solution satisfies the source's
   * row: `node1` ends at ten times the new time.
   */
  lemma RampStep(c: Circuit, dt: real, solve: Solver)
    requires RampSolved(c, dt, solve)
    ensures Step(c, dt, solve).time == c.time + dt
    ensures |Step(c, dt, solve).heap| == 2 && Step(c, dt, solve).heap[1].voltage == (c.time + dt) * 10.0
  {
    var V := StepSolution(c, dt, solve);
    CommitEnforcesSource(c, dt, V, 0);
    CommitNodeVoltages(c, dt, V);
    assert c.nodes[1] == 0;
  }

  /** A step keeps the ramp circuit ramp-like, whatever the solution. */
  lemma RampStepKeepsShape(c: Circuit, dt: real, solve: Solver)
    requires RampLike(c)
    ensures RampLike(Step(c, dt, solve))
  {
    var c' := Step(c, dt, solve);
    assert SameKind(c'.parts[0].elem, c.parts[0].elem);
    NaturalIdsKept(c, c.parts[0], 0, 0, dt, StepSolution(c, dt, solve));
  }

  /** The built ramp circuit is ramp-like, with its clock at 0. */
  lemma RampCircuitIsRampLike()
    ensures RampLike(RampCircuit()) && RampCircuit().time == 0.0
  {
  }

  /** One ramp step from the clock at `t0` to `t1`, with `node1` ending at `v`. */
  lemma RampStepTo(c: Circuit, dt: real, solve: Solver, t0: real, t1: real, v: real)
    requires RampSolved(c, dt, solve) && c.time == t0 && t1 == t0 + dt && v == t1 * 10.0
    ensures Step(c, dt, solve).time == t1 && |Step(c, dt, solve).heap| == 2 && Step(c, dt, solve).heap[1].voltage == v
  {
    RampStep(c, dt, solve);
  }

  /**
   * Stepping the ramp circuit (as built, or in any state with the clock at
   * 0) by 0, 0.5 and 0.5 seconds puts `node1` at 0 V, 5 V and 10 V,
   * provided each solution satisfies the source's row.
   */
  lemma RampScenario(solve: Solver, c0: Circuit)
    requires c0.time == 0.0 && RampSolved(c0, 0.0, solve)
    requires var c1 := Step(c0, 0.0, solve); RampSolved(c1, 0.5, solve)
    requires var c2 := Step(Step(c0, 0.0, solve), 0.5, solve); RampSolved(c2, 0.5, solve)
    ensures var c1 := Step(c0, 0.0, solve);
      var c2 := Step(c1, 0.5, solve);
      var c3 := Step(c2, 0.5, solve);
      |c3.heap| == 2 && c1.heap[1].voltage == 0.0 && c2.heap[1].voltage == 5.0 && c3.heap[1].voltage == 10.0
  {
    var c1 := Step(c0, 0.0, solve);
    var c2 := Step(c1, 0.5, solve);
    RampStepTo(c0, 0.0, solve, 0.0, 0.0, 0.0);
    RampStepTo(c1, 0.5, solve, 0.0, 0.5, 5.0);
    RampStepTo(c2, 0.5, solve, 0.5, 1.0, 10.0);
  }

  /** Simulating 0.1 s in steps of 0.01 s takes ten steps and leaves the clock 0.1 s on. */
  method SimulateTenth(c: Circuit, solve: Solver) returns (c': Circuit)
    requires Valid(c) && Physical(c.parts)
    ensures Valid(c') && Physical(c'.parts) && SameShape(c, c')
    ensures CurrentTime(c') == c.time + 0.1
  {
    var steps;
    c', steps := Simulate(c, 0.1, 0.01, solve);
    ClockLinear(0.0, 0.01, 10);
    ExactMultiple(c.time, 0.1, 0.01, 10, steps);
  }

  /** Two runs of 0.05 s in steps of 0.01 s: the second continues where the first ended. */
  method TwoRuns(c: Circuit, solve: Solver) returns (mid: Circuit, c': Circuit)
    requires Valid(c) && Physical(c.parts)
    ensures CurrentTime(mid) == c.time + 0.05
    ensures CurrentTime(c') == CurrentTime(mid) + 0.05
  {
    var n1, n2;
    mid, n1 := Simulate(c, 0.05, 0.01, solve);
    ClockLinear(0.0, 0.01, 5);
    ExactMultiple(c.time, 0.05, 0.01, 5, n1);
    c', n2 := Simulate(mid, 0.05, 0.01, solve);
    ExactMultiple(mid.time, 0.05, 0.01, 5, n2);
  }
}
