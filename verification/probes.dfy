/**
 * Probes: read-only views on one node's voltage or one component's
 * current. A probe built on a node has no component and one built on a
 * component has no node; the read-out of the missing half is 0.
 */
module Probes {
  import opened Options
  import opened Dense
  import opened Nodes
  import opened Components
  import opened Circuits
  import opened Transient

  /** What a probe looks at: a node handle or a position in the part list, either possibly absent. */
  datatype Probe = Probe(node: Option<NodeRef>, part: Option<nat>)

  /** A probe on a node (or on no node at all). */
  function OnNode(n: Option<NodeRef>): (pr: Probe)
    ensures pr.node == n && pr.part.None?
  {
    Probe(n, None)
  }

  /** A probe on a component (or on no component at all). */
  function OnPart(q: Option<nat>): (pr: Probe)
    ensures pr.part == q && pr.node.None?
  {
    Probe(None, q)
  }

  /**
   * The probe refers to a node of the arena and to a part of the circuit
   * whose terminals are in the arena and whose parameters are physical,
   * where it refers to any.
   */
  predicate Attached(c: Circuit, pr: Probe) {
    && (pr.node.Some? ==> pr.node.value < |c.heap|)
    && (pr.part.Some? ==>
          pr.part.value < |c.parts| && Wired(c.heap, c.parts[pr.part.value]) && PhysicalElement(c.parts[pr.part.value].elem))
  }

  /** In a valid circuit every tracked node and every registered part can be probed. */
  lemma AttachedInValid(c: Circuit, h: NodeRef, q: nat)
    requires Valid(c) && Physical(c.parts)
    ensures h in c.nodes ==> Attached(c, OnNode(Some(h)))
    ensures q < |c.parts| ==> Attached(c, OnPart(Some(q)))
  {
    if q < |c.parts| {
      assert Registered(c, c.parts[q].node1) && Registered(c, c.parts[q].node2);
    }
  }

  /** The probed node's voltage, or 0 when the probe has no node. */
  function ProbeVoltage(c: Circuit, pr: Probe): (v: real)
    requires Attached(c, pr)
    ensures pr.node.None? ==> v == 0.0
    ensures pr.node.Some? ==> v == TerminalVoltage(c.heap, pr.node)
  {
    if pr.node.Some? then c.heap[pr.node.value].voltage else 0.0
  }

  /**
   * The probed component's current: a resistor's Ohm's-law current (0 while
   * a terminal is missing), a voltage source's stored branch current, and 0
   * for a capacitor, an inductor or a probe without a component.
   */
  function ProbeCurrent(c: Circuit, pr: Probe): (i: real)
    requires Attached(c, pr)
    ensures pr.part.None? ==> i == 0.0
    ensures pr.part.Some? && (c.parts[pr.part.value].elem.Capacitor? || c.parts[pr.part.value].elem.Inductor?) ==> i == 0.0
    ensures pr.part.Some? && c.parts[pr.part.value].elem.VSource? ==> i == c.parts[pr.part.value].elem.current
    ensures pr.part.Some? && c.parts[pr.part.value].elem.Resistor? ==>
      var p := c.parts[pr.part.value];
      && (p.node1.None? || p.node2.None? ==> i == 0.0)
      && (p.node1.Some? && p.node2.Some? ==>
            i * p.elem.resistance == ProbeVoltage(c, OnNode(p.node1)) - ProbeVoltage(c, OnNode(p.node2)))
  {
    if pr.part.None? then 0.0
    else
      var p := c.parts[pr.part.value];
      if p.elem.Resistor? then ResistorCurrent(c.heap, p)
      else if p.elem.VSource? then p.elem.current
      else 0.0
  }

  /**
   * Ohm's law between probes: in a valid circuit every resistor is
   * connected, and the current read on it, times its resistance, is the
   * difference of the voltages read on its two nodes.
   */
  lemma ProbeOhm(c: Circuit, q: nat)
    requires Valid(c) && Physical(c.parts) && q < |c.parts| && c.parts[q].elem.Resistor?
    ensures Attached(c, OnPart(Some(q)))
    ensures var p := c.parts[q];
      && p.node1.Some? && p.node2.Some?
      && p.node1.value < |c.heap| && p.node2.value < |c.heap|
      && ProbeCurrent(c, OnPart(Some(q))) * p.elem.resistance
         == ProbeVoltage(c, OnNode(p.node1)) - ProbeVoltage(c, OnNode(p.node2))
  {
    AttachedInValid(c, 0, q);
  }

  /**
   * After a step's write-back for the solution `V`, a probe on a source
   * reads that source's entry of `V`, and a probe on a tracked node reads
   * the node's entry (0 for ground).
   */
  lemma ProbesAfterCommit(c: Circuit, dt: real, V: Vector, q: nat, h: NodeRef)
    requires Valid(c) && Physical(c.parts) && NaturalIds(c) && |V| == Size(c)
    requires q < |c.parts| && c.parts[q].elem.VSource?
    requires h in c.nodes
    ensures var c' := Commit(c, dt, V);
      && Valid(c') && Attached(c', OnPart(Some(q))) && Attached(c', OnNode(Some(h)))
      && SourceIndex(c, q) < |V|
      && ProbeCurrent(c', OnPart(Some(q))) == V[SourceIndex(c, q)]
      && ProbeVoltage(c', OnNode(Some(h))) == (if c.heap[h].id > 0 then V[c.heap[h].id - 1] else 0.0)
  {
    var c' := Commit(c, dt, V);
    SourceIndices(c);
    CommitSourceCurrent(c, dt, V, q);
    CommitTerminalVoltage(c, dt, V, h);
    AttachedInValid(c', h, q);
    assert c'.parts[q].elem.VSource?;
  }
}
