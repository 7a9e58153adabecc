/**
 * One time step of the orchestrator and the fixed-step driver over it:
 * advance the clock, assemble at the new time, solve, write node voltages
 * and source currents back, then update the reactive state from the new
 * node voltages.
 */
module Transient {
  import opened Options
  import opened Dense
  import opened Nodes
  import opened Components
  import opened Stamps
  import opened Circuits
  import opened Assembly

  /**
   * The linear solve `G V = I`. The model takes it as a parameter and
   * assumes nothing of it: every write-back is guarded by the length of
   * the vector it returns.
   */
  type Solver = (Matrix, Vector) -> Vector

  /**
   * The write-back for one node: ground is pinned to 0 V, a node with a
   * positive id `d` takes `V[d - 1]` when the solution has that entry, and
   * any other node keeps its voltage.
   */
  function Settle(n: Node, V: Vector): (n': Node)
    ensures n'.id == n.id
    ensures n.id == 0 ==> n'.voltage == 0.0
    ensures 0 < n.id <= |V| ==> n'.voltage == V[n.id - 1]
    ensures n.id != 0 && !(0 < n.id <= |V|) ==> n' == n
  {
    if n.id == 0 then n.(voltage := 0.0)
    else
      var idx := n.id - 1;
      if 0 <= idx < |V| then n.(voltage := V[idx]) else n
  }

  /** Writing the same solution back twice changes nothing more. */
  lemma SettleIdempotent(n: Node, V: Vector)
    ensures Settle(Settle(n, V), V) == Settle(n, V)
  {
  }

  /**
   * Writes the solution back into every tracked node, one after another in
   * tracking order. The result is the arena in which exactly the tracked
   * handles are settled, whatever the order and even with repeats.
   */
  function WriteNodes(heap: seq<Node>, nodes: seq<NodeRef>, V: Vector): (heap': seq<Node>)
    requires forall q :: 0 <= q < |nodes| ==> nodes[q] < |heap|
    ensures |heap'| == |heap|
    ensures forall h {:trigger heap'[h]} :: 0 <= h < |heap| ==> heap'[h] == (if h in nodes then Settle(heap[h], V) else heap[h])
    decreases |nodes|
  {
    if |nodes| == 0 then heap
    else
      var m := |nodes| - 1;
      var prev := WriteNodes(heap, nodes[..m], V);
      SettleIdempotent(heap[nodes[m]], V);
      assert forall h :: h in nodes <==> h in nodes[..m] || h == nodes[m];
      prev[nodes[m] := Settle(prev[nodes[m]], V)]
  }

  /**
   * Stores the branch currents: the voltage source at position `q` takes
   * `V[base + (sources before q)]` when the solution has that entry; every
   * other component is left alone.
   */
  function WriteCurrents(parts: seq<Component>, base: nat, V: Vector): (parts': seq<Component>)
    ensures |parts'| == |parts|
    ensures forall q {:trigger parts'[q]} :: 0 <= q < |parts| ==>
      && parts'[q].node1 == parts[q].node1 && parts'[q].node2 == parts[q].node2
      && (!parts[q].elem.VSource? ==> parts'[q] == parts[q])
      && (parts[q].elem.VSource? ==>
            var k := base + SourceCount(parts[..q]);
            && parts'[q].elem.VSource?
            && parts'[q].elem.wave == parts[q].elem.wave
            && parts'[q].elem.current == (if k < |V| then V[k] else parts[q].elem.current))
    decreases |parts|
  {
    if |parts| == 0 then parts
    else
      var m := |parts| - 1;
      var prev := WriteCurrents(parts[..m], base, V);
      assert forall q :: 0 <= q < m ==> parts[..m][q] == parts[q] && parts[..m][..q] == parts[..q];
      var p := parts[m];
      var k := base + SourceCount(parts[..m]);
      if p.elem.VSource? && k < |V| then prev + [p.(elem := SetCurrent(p.elem, V[k]))]
      else prev + [p]
  }

  /** The arena after writing `V` into the tracked `nodes`: exactly those are settled, the rest untouched. */
  ghost predicate NodesSettled(heap: seq<Node>, heap': seq<Node>, nodes: seq<NodeRef>, V: Vector) {
    && |heap'| == |heap|
    && forall h {:trigger heap'[h]} :: 0 <= h < |heap| ==> heap'[h] == (if h in nodes then Settle(heap[h], V) else heap[h])
  }

  /**
   * The branch-current write-back for one part whose reserved unknown, if
   * it is a voltage source, is `k`: a source keeps its wiring and waveform
   * and stores `V[k]` when the solution has that entry, its old current
   * otherwise; any other part is unchanged.
   */
  ghost predicate CurrentStored(p: Component, p': Component, k: nat, V: Vector) {
    if p.elem.VSource? then
      && p'.node1 == p.node1 && p'.node2 == p.node2
      && p'.elem.VSource? && p'.elem.wave == p.elem.wave
      && p'.elem.current == (if k < |V| then V[k] else p.elem.current)
    else p' == p
  }

  /**
   * The whole component write-back of a step for one part: a source stores
   * its branch current, and every other part gets the reactive update at
   * the new node voltages `heap'`.
   */
  ghost predicate Refreshed(heap': seq<Node>, p: Component, p': Component, k: nat, V: Vector)
    requires Wired(heap', p)
  {
    if p.elem.VSource? then CurrentStored(p, p', k, V) else ReactiveUpdated(heap', p, p')
  }

  /**
   * The post-solve update of every capacitor and inductor, reading the new
   * node voltages: each part is updated as `ReactiveUpdated` describes, in
   * place, and the list keeps its order.
   */
  function UpdateReactive(heap: seq<Node>, parts: seq<Component>): (parts': seq<Component>)
    requires WellFormed(heap, parts)
    ensures |parts'| == |parts|
    ensures forall q :: 0 <= q < |parts| ==> ReactiveUpdated(heap, parts[q], parts'[q])
  {
    seq(|parts|, q requires 0 <= q < |parts| => UpdateState(heap, parts[q]))
  }

  /** The clock moves on by `dt` before anything is assembled; nothing else changes. */
  function Advance(c: Circuit, dt: real): (c': Circuit)
    ensures CurrentTime(c') == CurrentTime(c) + dt
    ensures c'.heap == c.heap && c'.nextId == c.nextId && c'.parts == c.parts && c'.nodes == c.nodes
  {
    c.(time := c.time + dt)
  }

  /**
   * The system a step solves: assembled after the clock has moved, so every
   * entry is the sum of the parts' contributions with the sources read at
   * `time + dt`.
   */
  function StepSystem(c: Circuit, dt: real): (sys: System)
    requires Valid(c) && Physical(c.parts)
    ensures WellShaped(sys) && Dim(sys) == Size(c)
    ensures WellFormed(c.heap, c.parts)
    ensures forall r, col :: 0 <= r < Size(c) && 0 <= col < Size(c) ==>
      sys.G[r][col] == AllG(c.heap, c.parts, Base(c), dt, r, col)
    ensures forall r :: 0 <= r < Size(c) ==> sys.I[r] == AllI(c.heap, c.parts, Base(c), dt, c.time + dt, r)
  {
    var c' := Advance(c, dt);
    AdvanceKeeps(c, dt);
    AssembledEntries(c', dt);
    Assemble(c', dt)
  }

  /** Moving the clock keeps the circuit valid and its unknowns where they were. */
  lemma AdvanceKeeps(c: Circuit, dt: real)
    requires Valid(c)
    ensures Valid(Advance(c, dt)) && Base(Advance(c, dt)) == Base(c) && Size(Advance(c, dt)) == Size(c)
  {
  }

  /** The solution vector a step writes back. */
  function StepSolution(c: Circuit, dt: real, solve: Solver): Vector
    requires Valid(c) && Physical(c.parts)
  {
    var sys := StepSystem(c, dt);
    solve(sys.G, sys.I)
  }

  /** Node ids and element kinds and parameters are what a step never changes. */
  ghost predicate SameShape(c: Circuit, c': Circuit) {
    && |c'.heap| == |c.heap|
    && (forall h :: 0 <= h < |c.heap| ==> c'.heap[h].id == c.heap[h].id)
    && c'.nodes == c.nodes && c'.nextId == c.nextId
    && |c'.parts| == |c.parts|
    && (forall q :: 0 <= q < |c.parts| ==>
          && c'.parts[q].node1 == c.parts[q].node1 && c'.parts[q].node2 == c.parts[q].node2
          && SameKind(c'.parts[q].elem, c.parts[q].elem))
  }

  /** The same kind of element with the same parameter (the stored state may differ). */
  ghost predicate SameKind(e': Element, e: Element) {
    match e
    case Resistor(res) => e'.Resistor? && e'.resistance == res
    case Capacitor(cap, _, _) => e'.Capacitor? && e'.capacitance == cap
    case Inductor(ind, _) => e'.Inductor? && e'.inductance == ind
    case VSource(w, _) => e'.VSource? && e'.wave == w
  }

  /**
   * The component side of a step's write-back: source currents stored,
   * then the reactive update from the new node voltages. Terminals, kinds
   * and parameters stay as they were.
   */
  function Refresh(heap': seq<Node>, parts: seq<Component>, base: nat, V: Vector): (parts': seq<Component>)
    requires WellFormed(heap', parts)
    ensures |parts'| == |parts| && WellFormed(heap', parts')
    ensures forall q :: 0 <= q < |parts| ==>
      && parts'[q].node1 == parts[q].node1 && parts'[q].node2 == parts[q].node2
      && SameKind(parts'[q].elem, parts[q].elem)
  {
    var written := WriteCurrents(parts, base, V);
    assert WellFormed(heap', written);
    UpdateReactive(heap', written)
  }

  /**
   * The write-back of a step for the solution `V`: the clock advances by
   * `dt`, tracked nodes take their entries of `V`, sources their branch
   * currents, and the reactive parts update from the new node voltages.
   * The circuit stays valid and keeps its shape.
   */
  function Commit(c: Circuit, dt: real, V: Vector): (c': Circuit)
    requires Valid(c) && Physical(c.parts)
    ensures Valid(c') && Physical(c'.parts)
    ensures c'.time == c.time + dt
    ensures SameShape(c, c')
  {
    var heap' := WriteNodes(c.heap, c.nodes, V);
    ValidIsWellFormed(c, heap');
    Circuit(heap', c.nextId, Refresh(heap', c.parts, Base(c), V), c.nodes, c.time + dt)
  }

  /**
   * One time step of size `dt`: the clock advances, the system is assembled
   * at the new time and solved, and the solution is committed.
   */
  function Step(c: Circuit, dt: real, solve: Solver): (c': Circuit)
    requires Valid(c) && Physical(c.parts)
    ensures Valid(c') && Physical(c'.parts)
    ensures CurrentTime(c') == c.time + dt
    ensures SameShape(c, c')
  {
    Commit(c, dt, StepSolution(c, dt, solve))
  }

  /** The terminals of a valid circuit's parts refer to any arena at least as long. */
  lemma ValidIsWellFormed(c: Circuit, heap': seq<Node>)
    requires Valid(c) && Physical(c.parts) && |heap'| == |c.heap|
    ensures WellFormed(heap', c.parts)
  {
    forall q | 0 <= q < |c.parts|
      ensures Wired(heap', c.parts[q])
    {
      assert Registered(c, c.parts[q].node1) && Registered(c, c.parts[q].node2);
    }
  }

  /**
   * After the write-back every tracked node holds its entry of the
   * solution (ground holds 0 V, a node with id `d` within the solution
   * holds `V[d - 1]`), and nodes the circuit does not track are untouched.
   */
  lemma CommitNodeVoltages(c: Circuit, dt: real, V: Vector)
    requires Valid(c) && Physical(c.parts)
    ensures var c' := Commit(c, dt, V);
      && (forall q :: 0 <= q < |c.nodes| && c.heap[c.nodes[q]].id == 0 ==> c'.heap[c.nodes[q]].voltage == 0.0)
      && (forall q :: 0 <= q < |c.nodes| && 0 < c.heap[c.nodes[q]].id <= |V| ==>
            c'.heap[c.nodes[q]].voltage == V[c.heap[c.nodes[q]].id - 1])
      && (forall h :: 0 <= h < |c.heap| && h !in c.nodes ==> c'.heap[h] == c.heap[h])
  {
  }

  /**
   * After the write-back a capacitor stores the voltage across it at the
   * new node voltages, and its stored current is unchanged.
   */
  lemma CommitCapacitorState(c: Circuit, dt: real, V: Vector, q: nat)
    requires Valid(c) && Physical(c.parts)
    requires q < |c.parts| && c.parts[q].elem.Capacitor?
    ensures var c' := Commit(c, dt, V);
      var p := c.parts[q];
      && c'.parts[q].elem.Capacitor?
      && c'.parts[q].elem.voltage == c'.heap[p.node1.value].voltage - c'.heap[p.node2.value].voltage
      && c'.parts[q].elem.current == p.elem.current
  {
    var p := c.parts[q];
    assert Registered(c, p.node1) && Registered(c, p.node2);
    CommitValues(c, dt, V, q);
  }

  /**
   * After the write-back an inductor stores `(V1 - V2) / (L / 0.000001)`
   * from the new node voltages, whatever the step size.
   */
  lemma CommitInductorState(c: Circuit, dt: real, V: Vector, q: nat)
    requires Valid(c) && Physical(c.parts)
    requires q < |c.parts| && c.parts[q].elem.Inductor?
    ensures var c' := Commit(c, dt, V);
      var p := c.parts[q];
      && c'.parts[q].elem.Inductor?
      && InductorLaw(c'.parts[q].elem.current, p.elem.inductance,
                     c'.heap[p.node1.value].voltage - c'.heap[p.node2.value].voltage)
  {
    var p := c.parts[q];
    assert Registered(c, p.node1) && Registered(c, p.node2);
    CommitValues(c, dt, V, q);
  }

  /**
   * After the write-back a voltage source stores the solution's entry at
   * its reserved index when the solution has it, and keeps its current
   * otherwise.
   */
  lemma CommitSourceCurrent(c: Circuit, dt: real, V: Vector, q: nat)
    requires Valid(c) && Physical(c.parts) && q < |c.parts| && c.parts[q].elem.VSource?
    ensures Commit(c, dt, V).parts[q].elem.current ==
      (if SourceIndex(c, q) < |V| then V[SourceIndex(c, q)] else c.parts[q].elem.current)
  {
    CommitRefreshes(c, dt, V, q);
  }

  /** A resistor comes out of the write-back as it went in. */
  lemma CommitKeepsResistor(c: Circuit, dt: real, V: Vector, q: nat)
    requires Valid(c) && Physical(c.parts) && q < |c.parts| && c.parts[q].elem.Resistor?
    ensures Commit(c, dt, V).parts[q] == c.parts[q]
  {
    CommitPart(c, dt, V, q);
    RefreshCurrents(WriteNodes(c.heap, c.nodes, V), c.parts, Base(c), V, q);
  }

  /**
   * The refresh stores a source's branch current from its entry of the
   * solution, when there is one, and leaves a resistor as it was.
   */
  lemma RefreshCurrents(heap': seq<Node>, parts: seq<Component>, base: nat, V: Vector, q: nat)
    requires WellFormed(heap', parts) && q < |parts|
    ensures var k := base + SourceCount(parts[..q]);
      var p' := Refresh(heap', parts, base, V)[q];
      && (parts[q].elem.VSource? ==> p'.elem.current == (if k < |V| then V[k] else parts[q].elem.current))
      && (parts[q].elem.Resistor? ==> p' == parts[q])
  {
    if !parts[q].elem.Capacitor? && !parts[q].elem.Inductor? {
      RefreshKeepsNonReactive(heap', parts, base, V, q);
    }
  }

  /**
   * The refresh, part by part: a source stores its entry of the solution at
   * its reserved unknown `base + (sources before q)`, and every other part
   * gets the reactive update at the new node voltages `heap'`.
   */
  lemma RefreshValues(heap': seq<Node>, parts: seq<Component>, base: nat, V: Vector, q: nat)
    requires WellFormed(heap', parts) && q < |parts|
    ensures Refreshed(heap', parts[q], Refresh(heap', parts, base, V)[q], base + SourceCount(parts[..q]), V)
  {
    var written := WriteCurrents(parts, base, V);
    assert WellFormed(heap', written);
    assert Refresh(heap', parts, base, V) == UpdateReactive(heap', written);
    assert CurrentStored(parts[q], written[q], base + SourceCount(parts[..q]), V);
    assert ReactiveUpdated(heap', written[q], UpdateReactive(heap', written)[q]);
  }

  /**
   * What a step's write-back stores for the solution `V`: the tracked nodes
   * are settled from `V` and no other node changes; the part at `q` (when
   * there is one) is refreshed, a source from the entry at its reserved
   * index and a capacitor or inductor from the new node voltages.
   */
  lemma CommitValues(c: Circuit, dt: real, V: Vector, q: nat)
    requires Valid(c) && Physical(c.parts)
    ensures var c' := Commit(c, dt, V);
      && NodesSettled(c.heap, c'.heap, c.nodes, V)
      && WellFormed(c'.heap, c.parts)
      && (q < |c.parts| ==> Refreshed(c'.heap, c.parts[q], c'.parts[q], SourceIndex(c, q), V))
  {
    CommitSettles(c, dt, V);
    if q < |c.parts| {
      CommitRefreshes(c, dt, V, q);
    }
  }

  /** The node side of the write-back: the arena is the tracked nodes settled from `V`. */
  lemma CommitSettles(c: Circuit, dt: real, V: Vector)
    requires Valid(c) && Physical(c.parts)
    ensures NodesSettled(c.heap, Commit(c, dt, V).heap, c.nodes, V)
    ensures WellFormed(Commit(c, dt, V).heap, c.parts)
  {
    var heap' := WriteNodes(c.heap, c.nodes, V);
    assert Commit(c, dt, V).heap == heap';
    ValidIsWellFormed(c, heap');
  }

  /** The component side of the write-back for the part at `q`. */
  lemma CommitRefreshes(c: Circuit, dt: real, V: Vector, q: nat)
    requires Valid(c) && Physical(c.parts) && q < |c.parts|
    ensures WellFormed(Commit(c, dt, V).heap, c.parts)
    ensures Refreshed(Commit(c, dt, V).heap, c.parts[q], Commit(c, dt, V).parts[q], SourceIndex(c, q), V)
  {
    var heap' := WriteNodes(c.heap, c.nodes, V);
    assert Commit(c, dt, V).heap == heap';
    CommitPart(c, dt, V, q);
    RefreshValues(heap', c.parts, Base(c), V, q);
  }

  /**
   * What a step stores: the same write-back as `CommitValues`, for the
   * vector the solver returns on the system assembled at the new time.
   */
  lemma StepValues(c: Circuit, dt: real, solve: Solver, q: nat)
    requires Valid(c) && Physical(c.parts)
    ensures var V := StepSolution(c, dt, solve);
      var c' := Step(c, dt, solve);
      && NodesSettled(c.heap, c'.heap, c.nodes, V)
      && WellFormed(c'.heap, c.parts)
      && (q < |c.parts| ==> Refreshed(c'.heap, c.parts[q], c'.parts[q], SourceIndex(c, q), V))
  {
    CommitValues(c, dt, StepSolution(c, dt, solve), q);
  }

  /** The component at `q` after the write-back is the refreshed one, read against the new node voltages. */
  lemma CommitPart(c: Circuit, dt: real, V: Vector, q: nat)
    requires Valid(c) && Physical(c.parts) && q < |c.parts|
    ensures var heap' := WriteNodes(c.heap, c.nodes, V);
      WellFormed(heap', c.parts) && Commit(c, dt, V).parts[q] == Refresh(heap', c.parts, Base(c), V)[q]
  {
    ValidIsWellFormed(c, WriteNodes(c.heap, c.nodes, V));
  }

  /** The reactive update leaves sources and resistors as the current write-back left them. */
  lemma RefreshKeepsNonReactive(heap': seq<Node>, parts: seq<Component>, base: nat, V: Vector, q: nat)
    requires WellFormed(heap', parts) && q < |parts|
    requires !parts[q].elem.Capacitor? && !parts[q].elem.Inductor?
    ensures Refresh(heap', parts, base, V)[q] == WriteCurrents(parts, base, V)[q]
  {
    var written := WriteCurrents(parts, base, V);
    assert WellFormed(heap', written);
    assert !written[q].elem.Capacitor? && !written[q].elem.Inductor?;
  }

  /** Every node and the counter have ids no smaller than ground's. */
  predicate NaturalIds(c: Circuit) {
    && c.nextId >= GroundId
    && forall h :: 0 <= h < |c.heap| ==> c.heap[h].id >= GroundId
  }

  /** The counter starts at ground and only counts up, and a step never changes an id. */
  lemma NaturalIdsKept(c: Circuit, p: Component, a: NodeRef, b: NodeRef, dt: real, V: Vector)
    ensures NaturalIds(Empty())
    ensures NaturalIds(c) ==> NaturalIds(CreateNode(c).0)
    ensures NaturalIds(c) && a < |c.heap| && b < |c.heap| ==> NaturalIds(AddComponent(c, p, a, b))
    ensures NaturalIds(c) && Valid(c) && Physical(c.parts) ==> NaturalIds(Commit(c, dt, V))
  {
  }

  /**
   * `V` covers every unknown of the step's system and satisfies the
   * constraint row reserved for the source at position `q`.
   */
  ghost predicate SolvesSourceRow(c: Circuit, dt: real, V: Vector, q: nat)
    requires Valid(c) && Physical(c.parts) && q < |c.parts| && c.parts[q].elem.VSource?
  {
    var sys := Assemble(Advance(c, dt), dt);
    AssembledSourceRow(Advance(c, dt), dt, q);
    |V| == Size(c) && Dot(sys.G[SourceIndex(c, q)], V) == sys.I[SourceIndex(c, q)]
  }

  /**
   * A tracked node after the write-back holds the solution's entry at its
   * unknown, or 0 V when it has none (ground), provided ids are natural
   * and the solution covers every unknown.
   */
  lemma CommitTerminalVoltage(c: Circuit, dt: real, V: Vector, h: NodeRef)
    requires Valid(c) && Physical(c.parts) && NaturalIds(c)
    requires h in c.nodes && |V| == Size(c)
    ensures h < |c.heap| && Index(c.heap, Some(h)) < Size(c)
    ensures var i := Index(c.heap, Some(h));
      Commit(c, dt, V).heap[h].voltage == (if i >= 0 then V[i] else 0.0)
  {
    var q :| 0 <= q < |c.nodes| && c.nodes[q] == h;
    assert c.heap[h].id <= Base(c);
    CommitNode(c, dt, V, h);
  }

  /** A node after the write-back: settled when the circuit tracks it, untouched otherwise. */
  lemma CommitNode(c: Circuit, dt: real, V: Vector, h: NodeRef)
    requires Valid(c) && Physical(c.parts) && h < |c.heap|
    ensures Commit(c, dt, V).heap[h] == (if h in c.nodes then Settle(c.heap[h], V) else c.heap[h])
  {
    assert Commit(c, dt, V).heap == WriteNodes(c.heap, c.nodes, V);
  }

  /**
   * The voltage a source imposes: when the solution satisfies the source's
   * constraint row, then after the step the voltage of its terminal 1 minus
   * that of its terminal 2 is the source's value at the new time.
   */
  lemma CommitEnforcesSource(c: Circuit, dt: real, V: Vector, q: nat)
    requires Valid(c) && Physical(c.parts) && NaturalIds(c)
    requires q < |c.parts| && c.parts[q].elem.VSource?
    requires SolvesSourceRow(c, dt, V, q)
    ensures var c' := Commit(c, dt, V);
      var p := c.parts[q];
      c'.heap[p.node1.value].voltage - c'.heap[p.node2.value].voltage == GetVoltage(p.elem.wave, c.time + dt)
  {
    var p := c.parts[q];
    assert Registered(c, p.node1) && Registered(c, p.node2);
    var k := SourceIndex(c, q);
    var sys := Assemble(Advance(c, dt), dt);
    AssembledSourceRow(Advance(c, dt), dt, q);
    assert k == SourceIndex(Advance(c, dt), q);
    var i := Index(c.heap, p.node1);
    var j := Index(c.heap, p.node2);
    assert sys.I[k] == GetVoltage(p.elem.wave, c.time + dt);
    TwoPointEquation(sys.G[k], V, i, j, sys.I[k]);
    var c' := Commit(c, dt, V);
    CommitTerminalVoltage(c, dt, V, p.node1.value);
    CommitTerminalVoltage(c, dt, V, p.node2.value);
    assert c'.heap[p.node1.value].voltage == (if i >= 0 then V[i] else 0.0);
    assert c'.heap[p.node2.value].voltage == (if j >= 0 then V[j] else 0.0);
  }

  /** The clock's read-out. */
  function CurrentTime(c: Circuit): real {
    c.time
  }

  /** Puts the clock back to 0; nodes, components and their state are kept. */
  function ResetTime(c: Circuit): (c': Circuit)
    ensures CurrentTime(c') == 0.0
    ensures c'.heap == c.heap && c'.nextId == c.nextId && c'.parts == c.parts && c'.nodes == c.nodes
  {
    c.(time := 0.0)
  }

  /** The clock after `n` steps of `dt` from `start`, accumulated one step at a time. */
  function Clock(start: real, dt: real, n: nat): real
    decreases n
  {
    if n == 0 then start else Clock(start, dt, n - 1) + dt
  }

  /** Accumulated steps amount to `n * dt`. */
  lemma {:induction false} ClockLinear(start: real, dt: real, n: nat)
    ensures Clock(start, dt, n) == start + n as real * dt
    decreases n
  {
    if n > 0 {
      ClockLinear(start, dt, n - 1);
      assert n as real * dt == (n - 1) as real * dt + dt;
    }
  }

  /** Keeping the shape is transitive. */
  lemma SameShapeTrans(a: Circuit, b: Circuit, d: Circuit)
    requires SameShape(a, b) && SameShape(b, d)
    ensures SameShape(a, d)
  {
    forall q | 0 <= q < |a.parts|
      ensures SameKind(d.parts[q].elem, a.parts[q].elem)
    {
      assert SameKind(b.parts[q].elem, a.parts[q].elem);
      assert SameKind(d.parts[q].elem, b.parts[q].elem);
    }
  }

  /** `n` steps of size `dt`, one after another. */
  function Steps(c: Circuit, dt: real, solve: Solver, n: nat): (c': Circuit)
    requires Valid(c) && Physical(c.parts)
    ensures Valid(c') && Physical(c'.parts) && SameShape(c, c')
    ensures CurrentTime(c') == Clock(c.time, dt, n)
    decreases n
  {
    if n == 0 then c
    else
      var prev := Steps(c, dt, solve, n - 1);
      var next := Step(prev, dt, solve);
      SameShapeTrans(c, prev, next);
      next
  }

  /**
   * `n` is the number of steps the driver takes for `duration` from
   * `start`: the first count after which the clock is no longer below
   * `start + duration - dt/100`.
   */
  ghost predicate StopsAfter(start: real, duration: real, dt: real, n: nat) {
    var eps := dt * 0.01;
    && !(Clock(start, dt, n) < start + duration - eps)
    && forall m: nat :: m < n ==> Clock(start, dt, m) < start + duration - eps
  }

  /** A positive step carries the clock past any target after finitely many steps. */
  lemma Reach(start: real, target: real, dt: real) returns (k: nat)
    requires dt > 0.0
    ensures Clock(start, dt, k) >= target
  {
    if target <= start {
      k := 0;
    } else {
      var x := (target - start) / dt;
      var f := x.Floor;
      assert f as real <= x < f as real + 1.0;
      assert x * dt == target - start;
      assert (f + 1) as real * dt >= x * dt;
      ClockLinear(start, dt, f + 1);
      k := f + 1;
    }
  }

  /** With a positive step the clock only moves forward, so every earlier count is below too. */
  lemma {:induction false} EarlierBelow(start: real, dt: real, n: nat, target: real)
    requires dt > 0.0 && n > 0 && Clock(start, dt, n - 1) < target
    ensures forall m: nat :: m < n ==> Clock(start, dt, m) < target
    decreases n
  {
    if n > 1 {
      EarlierBelow(start, dt, n - 1, target);
    }
  }

  /**
   * Runs fixed steps of `dt` while the clock is below the end time less a
   * tolerance of `dt/100`; returns the circuit and the number of steps.
   * With a step that is not positive the C++ loop runs forever unless the
   * loop is not entered, so such a call is excluded.
   */
  method Simulate(c: Circuit, duration: real, dt: real, solve: Solver) returns (c': Circuit, steps: nat)
    requires Valid(c) && Physical(c.parts)
    requires dt > 0.0 || !(c.time < c.time + duration - dt * 0.01)
    ensures Valid(c') && Physical(c'.parts)
    ensures c' == Steps(c, dt, solve, steps)
    ensures StopsAfter(c.time, duration, dt, steps)
  {
    var end := c.time + duration;
    var eps := dt * 0.01;
    ghost var bound := LoopBound(c.time, duration, dt);
    c' := c;
    steps := 0;
    while c'.time < end - eps
      invariant c' == Steps(c, dt, solve, steps)
      invariant Progress(c.time, duration, dt, steps, bound)
      decreases bound - steps
    {
      ProgressStep(c.time, duration, dt, steps, bound);
      c' := Step(c', dt, solve);
      steps := steps + 1;
    }
    LoopExit(c.time, duration, dt, steps);
  }

  /**
   * The loop's bookkeeping after `n` steps: `n` has not passed the bound,
   * the bound's clock reaches the end less the tolerance when the step is
   * positive (and the bound is 0 otherwise), and the clock was below the
   * end less the tolerance one step earlier.
   */
  ghost predicate Progress(start: real, duration: real, dt: real, n: nat, bound: nat) {
    var target := start + duration - dt * 0.01;
    && n <= bound
    && (dt > 0.0 ==> Clock(start, dt, bound) >= target)
    && (dt <= 0.0 ==> bound == 0)
    && (n > 0 ==> dt > 0.0 && Clock(start, dt, n - 1) < target)
  }

  /** A count of steps after which the clock has reached the end less the tolerance, if the step is positive. */
  lemma LoopBound(start: real, duration: real, dt: real) returns (bound: nat)
    requires dt > 0.0 || !(start < start + duration - dt * 0.01)
    ensures Progress(start, duration, dt, 0, bound)
  {
    bound := 0;
    if dt > 0.0 {
      bound := Reach(start, start + duration - dt * 0.01, dt);
    }
  }

  /** While the clock is below the end less the tolerance, the bound is still ahead and one more step keeps the bookkeeping. */
  lemma ProgressStep(start: real, duration: real, dt: real, n: nat, bound: nat)
    requires Progress(start, duration, dt, n, bound)
    requires Clock(start, dt, n) < start + duration - dt * 0.01
    requires dt > 0.0 || !(start < start + duration - dt * 0.01)
    ensures n < bound && Progress(start, duration, dt, n + 1, bound)
  {
  }

  /**
   * The loop's exit: the clock is no longer below the end less the
   * tolerance, and it was below one step earlier, so the count is the
   * driver's.
   */
  lemma LoopExit(start: real, duration: real, dt: real, n: nat)
    requires !(Clock(start, dt, n) < start + duration - dt * 0.01)
    requires n > 0 ==> dt > 0.0 && Clock(start, dt, n - 1) < start + duration - dt * 0.01
    ensures StopsAfter(start, duration, dt, n)
  {
    if n > 0 {
      EarlierBelow(start, dt, n, start + duration - dt * 0.01);
    }
  }

  /** The clock from `start` is `start` plus the clock from 0. */
  lemma {:induction false} ClockShift(start: real, dt: real, n: nat)
    ensures Clock(start, dt, n) == start + Clock(0.0, dt, n)
    decreases n
  {
    if n > 0 {
      ClockShift(start, dt, n - 1);
    }
  }

  /** With a positive step, a later count is at least one step further on. */
  lemma {:induction false} ClockGap(start: real, dt: real, n: nat, k: nat)
    requires dt > 0.0 && n < k
    ensures Clock(start, dt, n) + dt <= Clock(start, dt, k)
    decreases k
  {
    if n < k - 1 {
      ClockGap(start, dt, n, k - 1);
    }
  }

  /**
   * When the duration is a whole number `k` of steps, the driver takes
   * exactly `k` steps, so the clock ends at `start + duration`.
   */
  lemma ExactMultiple(start: real, duration: real, dt: real, k: nat, n: nat)
    requires dt > 0.0 && duration == Clock(0.0, dt, k)
    requires StopsAfter(start, duration, dt, n)
    ensures n == k
    ensures Clock(start, dt, n) == start + duration
  {
    ClockShift(start, dt, k);
    if n < k {
      ClockGap(start, dt, n, k);
      assert false;
    } else if n > k {
      assert false;
    }
  }
}
