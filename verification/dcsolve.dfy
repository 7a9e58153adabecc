/**
 * The older DC-only solve: size the system like a step, stamp resistors
 * and then voltage sources (capacitors and inductors are left out), solve
 * once, and write node voltages and source currents back. The clock and
 * the reactive state are not touched.
 */
module DcSolve {
  import opened Dense
  import opened Nodes
  import opened Components
  import opened Stamps
  import opened Circuits
  import opened Assembly
  import opened Transient

  /**
   * The DC system: the resistor pass, then the source pass with sources
   * evaluated at time 0. The header's DC-only `Solve` calls the sources'
   * `Stamp` with three arguments, which matches no signature a voltage
   * source declares; time 0 is this model's reading of that call, after the
   * `time = 0.0` default the capacitor and the inductor declare. Every entry is what the resistors and
   * the sources contribute to it; capacitors and inductors contribute
   * nothing.
   */
  function DcSystem(c: Circuit): (sys: System)
    requires Valid(c) && Physical(c.parts)
    ensures WellShaped(sys) && Dim(sys) == Size(c)
    ensures WellFormed(c.heap, c.parts)
    ensures forall r, col :: 0 <= r < Size(c) && 0 <= col < Size(c) ==>
      sys.G[r][col] == PassG(c.heap, c.parts, ResistorPass, 0.0, r, col) + SourcesG(c.heap, c.parts, Base(c), 0.0, r, col)
    ensures forall r :: 0 <= r < Size(c) ==>
      sys.I[r] == PassI(c.heap, c.parts, ResistorPass, 0.0, 0.0, r) + SourcesI(c.heap, c.parts, Base(c), 0.0, 0.0, r)
  {
    TerminalsBelowBase(c);
    FitsWithin(c.heap, c.parts, Base(c), Size(c), |c.parts|);
    var z := Zero(Size(c));
    var s := StampPassive(c.heap, z, c.parts, ResistorPass, 0.0, 0.0);
    StampPassiveSum(c.heap, z, c.parts, ResistorPass, 0.0, 0.0);
    StampSourcesSum(c.heap, s, c.parts, Base(c), 0.0, 0.0);
    StampSources(c.heap, s, c.parts, Base(c), 0.0, 0.0)
  }

  /**
   * The DC write-back for a solution `V`: tracked nodes take their entries
   * of `V` and sources their branch currents; the clock and every other
   * part stay as they were.
   */
  function WriteBack(c: Circuit, V: Vector): (c': Circuit)
    requires Valid(c) && Physical(c.parts)
    ensures Valid(c') && Physical(c'.parts) && SameShape(c, c')
    ensures c'.time == c.time
  {
    var heap' := WriteNodes(c.heap, c.nodes, V);
    ValidIsWellFormed(c, heap');
    var parts' := WriteCurrents(c.parts, Base(c), V);
    assert WellFormed(heap', parts');
    Circuit(heap', c.nextId, parts', c.nodes, c.time)
  }

  /**
   * One DC solve: the DC system is solved once and the solution written
   * back into the tracked nodes and the sources' branch currents; the
   * clock and the reactive state stay as they were.
   */
  function Solve(c: Circuit, solve: Solver): (c': Circuit)
    requires Valid(c) && Physical(c.parts)
    ensures Valid(c') && Physical(c'.parts) && SameShape(c, c')
    ensures c'.time == c.time
  {
    var sys := DcSystem(c);
    WriteBack(c, solve(sys.G, sys.I))
  }

  /**
   * The DC write-back: ground is pinned to 0 V, every tracked node with id
   * `d` within the solution takes `V[d - 1]`, and the source at position
   * `q` stores `V[(N - 1) + (sources before q)]`.
   */
  lemma WriteBackValues(c: Circuit, V: Vector, q: nat)
    requires Valid(c) && Physical(c.parts)
    ensures var c' := WriteBack(c, V);
      && (forall r :: 0 <= r < |c.nodes| && c.heap[c.nodes[r]].id == 0 ==> c'.heap[c.nodes[r]].voltage == 0.0)
      && (forall r :: 0 <= r < |c.nodes| && 0 < c.heap[c.nodes[r]].id <= |V| ==>
            c'.heap[c.nodes[r]].voltage == V[c.heap[c.nodes[r]].id - 1])
      && (q < |c.parts| && !c.parts[q].elem.VSource? ==> c'.parts[q] == c.parts[q])
      && (q < |c.parts| && c.parts[q].elem.VSource? ==>
            c'.parts[q].elem.current == (if SourceIndex(c, q) < |V| then V[SourceIndex(c, q)] else c.parts[q].elem.current))
  {
    WriteBackSettles(c, V);
    if q < |c.parts| {
      WriteBackStores(c, V, q);
    }
  }

  /**
   * What one DC solve stores, for the vector the solver returns on the DC
   * system: the tracked nodes are settled from it and no other node
   * changes; a source at `q` stores its entry at its reserved index and
   * every other part, capacitors and inductors included, is unchanged.
   */
  lemma SolveValues(c: Circuit, solve: Solver, q: nat)
    requires Valid(c) && Physical(c.parts)
    ensures var sys := DcSystem(c);
      var V := solve(sys.G, sys.I);
      var c' := Solve(c, solve);
      && NodesSettled(c.heap, c'.heap, c.nodes, V)
      && (q < |c.parts| ==> CurrentStored(c.parts[q], c'.parts[q], SourceIndex(c, q), V))
  {
    var sys := DcSystem(c);
    var V := solve(sys.G, sys.I);
    assert Solve(c, solve) == WriteBack(c, V);
    WriteBackSettles(c, V);
    if q < |c.parts| {
      WriteBackStores(c, V, q);
    }
  }

  /** The node side of the DC write-back: the arena is the tracked nodes settled from `V`. */
  lemma WriteBackSettles(c: Circuit, V: Vector)
    requires Valid(c) && Physical(c.parts)
    ensures NodesSettled(c.heap, WriteBack(c, V).heap, c.nodes, V)
  {
    assert WriteBack(c, V).heap == WriteNodes(c.heap, c.nodes, V);
  }

  /** The component side of the DC write-back for the part at `q`. */
  lemma WriteBackStores(c: Circuit, V: Vector, q: nat)
    requires Valid(c) && Physical(c.parts) && q < |c.parts|
    ensures CurrentStored(c.parts[q], WriteBack(c, V).parts[q], SourceIndex(c, q), V)
  {
    var parts' := WriteCurrents(c.parts, Base(c), V);
    assert WriteBack(c, V).parts == parts';
    assert parts'[q].node1 == c.parts[q].node1;
  }

  /** With a step that is not positive, capacitor and inductor passes leave the system as it was. */
  lemma {:induction false} IdlePass(heap: seq<Node>, s: System, parts: seq<Component>, pass: Pass, dt: real, time: real)
    requires WellShaped(s) && Fits(heap, parts, Dim(s)) && Physical(parts)
    requires pass != ResistorPass && dt <= 0.0
    ensures StampPassive(heap, s, parts, pass, dt, time) == s
    decreases |parts|
  {
    if |parts| > 0 {
      var m := |parts| - 1;
      IdlePass(heap, s, parts[..m], pass, dt, time);
      if InPass(parts[m].elem, pass) {
        ContribReactiveIdle(heap, parts[m], dt, -1, time);
        SameSystem(Stamp(heap, parts[m], s, dt, -1, time), s);
      }
    }
  }

  /**
   * The DC system is the step's system at time 0 with a zero step: the
   * capacitor and inductor stamps do nothing without a positive step, so
   * leaving their passes out changes nothing.
   */
  lemma DcIsZeroStep(c: Circuit)
    requires Valid(c) && Physical(c.parts)
    ensures DcSystem(c) == Assemble(c.(time := 0.0), 0.0)
  {
    var c0 := c.(time := 0.0);
    TerminalsBelowBase(c);
    var s1 := StampPassive(c.heap, Zero(Size(c)), c.parts, ResistorPass, 0.0, 0.0);
    IdlePass(c.heap, s1, c.parts, CapacitorPass, 0.0, 0.0);
    IdlePass(c.heap, s1, c.parts, InductorPass, 0.0, 0.0);
    assert PassiveSystem(c0, 0.0) == s1;
  }

  /**
   * Capacitors and inductors are open in the DC solve: adding one between
   * nodes the circuit already tracks leaves the DC system unchanged.
   */
  lemma ReactiveOpenInDc(c: Circuit, e: Element, a: NodeRef, b: NodeRef)
    requires Valid(c) && Physical(c.parts)
    requires a in c.nodes && b in c.nodes && (e.Capacitor? || e.Inductor?) && PhysicalElement(e)
    ensures a < |c.heap| && b < |c.heap|
    ensures var c' := AddComponent(c, Unconnected(e), a, b);
      Valid(c') && Physical(c'.parts) && DcSystem(c') == DcSystem(c)
  {
    var c' := AddComponent(c, Unconnected(e), a, b);
    assert c'.nodes == c.nodes;
    assert c'.parts[..|c.parts|] == c.parts;
    TerminalsBelowBase(c);
    TerminalsBelowBase(c');
    var z := Zero(Size(c));
    assert Size(c') == Size(c);
    assert StampPassive(c.heap, z, c'.parts, ResistorPass, 0.0, 0.0) == StampPassive(c.heap, z, c.parts, ResistorPass, 0.0, 0.0);
  }
}
