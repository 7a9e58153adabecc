/**
 * The circuit elements: a closed variant over resistor, capacitor, inductor
 * and voltage source, each wired to two terminals, with the per-element
 * state the simulator keeps between steps and the read-outs it exposes.
 */
module Components {
  import opened Options
  import opened Nodes

  /** A source's waveform: a constant level, or a caller-supplied function of time. */
  datatype Waveform = DC(level: real) | Custom(f: real -> real)

  /** The source voltage at time `t`. */
  function GetVoltage(w: Waveform, t: real): real {
    match w
    case DC(v) => v
    case Custom(f) => f(t)
  }

  /** A DC source reads its level whatever the time; a custom source reads its function at the time. */
  lemma GetVoltageCases(w: Waveform, t: real, t': real)
    ensures w.DC? ==> GetVoltage(w, t) == w.level == GetVoltage(w, t')
    ensures w.Custom? ==> GetVoltage(w, t) == w.f(t)
  {
  }

  /**
   * The element and its state: a capacitor remembers the voltage across it
   * at the end of the previous step (and a current that only `SetCurrent`
   * writes), an inductor the current through it, and a voltage source the
   * branch current the last solve produced.
   */
  datatype Element =
    | Resistor(resistance: real)
    | Capacitor(capacitance: real, voltage: real, current: real)
    | Inductor(inductance: real, current: real)
    | VSource(wave: Waveform, current: real)

  /** An element wired to its two terminals; a terminal is `None` until connected. */
  datatype Component = Component(elem: Element, node1: Option<NodeRef>, node2: Option<NodeRef>)

  /** A freshly constructed capacitor: stored voltage and current both 0. */
  function NewCapacitor(capacitance: real): (e: Element)
    ensures e.Capacitor? && e.capacitance == capacitance
    ensures e.voltage == 0.0 && StoredCurrent(e) == 0.0
  {
    Capacitor(capacitance, 0.0, 0.0)
  }

  /** A freshly constructed inductor: stored current 0. */
  function NewInductor(inductance: real): (e: Element)
    ensures e.Inductor? && e.inductance == inductance && StoredCurrent(e) == 0.0
  {
    Inductor(inductance, 0.0)
  }

  /** A freshly constructed voltage source: stored branch current 0. */
  function NewSource(w: Waveform): (e: Element)
    ensures e.VSource? && e.wave == w && StoredCurrent(e) == 0.0
  {
    VSource(w, 0.0)
  }

  /** A constructed component, not yet connected to any node. */
  function Unconnected(e: Element): Component {
    Component(e, None, None)
  }

  /** Wires the component to `a` (terminal 1) and `b` (terminal 2), replacing any earlier wiring. */
  function Connect(p: Component, a: Option<NodeRef>, b: Option<NodeRef>): (p': Component)
    ensures p'.node1 == a && p'.node2 == b
    ensures p'.elem == p.elem
  {
    p.(node1 := a, node2 := b)
  }

  /** A second `Connect` overwrites the first. */
  lemma ConnectOverwrites(p: Component, a: Option<NodeRef>, b: Option<NodeRef>, c: Option<NodeRef>, d: Option<NodeRef>)
    ensures Connect(Connect(p, a, b), c, d) == Connect(p, c, d)
  {
  }

  /** Both terminals of a freshly constructed component are missing. */
  lemma UnconnectedHasNoTerminals(e: Element)
    ensures Unconnected(e).node1.None? && Unconnected(e).node2.None?
  {
  }

  /** Every terminal the component has refers to a node of the arena. */
  predicate Wired(heap: seq<Node>, p: Component) {
    && (p.node1.Some? ==> p.node1.value < |heap|)
    && (p.node2.Some? ==> p.node2.value < |heap|)
  }

  /**
   * Parameters for which the real-number model is defined: the C++ code
   * divides by the resistance and by the inductance.
   */
  predicate PhysicalElement(e: Element) {
    && (e.Resistor? ==> e.resistance != 0.0)
    && (e.Inductor? ==> e.inductance != 0.0)
  }

  predicate Physical(parts: seq<Component>) {
    forall q :: 0 <= q < |parts| ==> PhysicalElement(parts[q].elem)
  }

  /** Every prefix of a physical list is physical. */
  lemma PhysicalPrefix(parts: seq<Component>, n: nat)
    requires Physical(parts) && n <= |parts|
    ensures Physical(parts[..n])
  {
    assert forall q :: 0 <= q < n ==> parts[..n][q] == parts[q];
  }

  /** The number of voltage sources in the list. */
  function SourceCount(parts: seq<Component>): (m: nat)
    ensures m <= |parts|
    decreases |parts|
  {
    if |parts| == 0 then 0
    else SourceCount(parts[..|parts| - 1]) + (if parts[|parts| - 1].elem.VSource? then 1 else 0)
  }

  /**
   * Counting sources over a longer prefix never gives fewer, and a source
   * at position `a` makes every prefix that contains it count strictly more
   * than the prefix before it.
   */
  lemma {:induction false} SourceCountPrefix(parts: seq<Component>, a: nat, b: nat)
    requires a <= b <= |parts|
    ensures SourceCount(parts[..a]) <= SourceCount(parts[..b])
    ensures a < b && parts[a].elem.VSource? ==> SourceCount(parts[..a]) + 1 <= SourceCount(parts[..b])
    decreases b
  {
    if a < b {
      SourceCountPrefix(parts, a, b - 1);
      assert parts[..b][..b - 1] == parts[..b - 1];
    }
  }

  /** No source is counted exactly when the list holds no voltage source. */
  lemma {:induction false} SourceCountZero(parts: seq<Component>)
    ensures SourceCount(parts) == 0 <==> forall q :: 0 <= q < |parts| ==> !parts[q].elem.VSource?
    decreases |parts|
  {
    if |parts| > 0 {
      var m := |parts| - 1;
      SourceCountZero(parts[..m]);
      assert forall q :: 0 <= q < m ==> parts[..m][q] == parts[q];
    }
  }

  /** The positions of the voltage sources in the list. */
  ghost function SourcePositions(parts: seq<Component>): set<int> {
    set q | 0 <= q < |parts| && parts[q].elem.VSource?
  }

  /** The count is the number of positions that hold a voltage source. */
  lemma {:induction false} SourceCountCounts(parts: seq<Component>)
    ensures SourceCount(parts) == |SourcePositions(parts)|
    decreases |parts|
  {
    if |parts| > 0 {
      var m := |parts| - 1;
      SourceCountCounts(parts[..m]);
      assert forall q :: 0 <= q < m ==> parts[..m][q] == parts[q];
      if parts[m].elem.VSource? {
        assert SourcePositions(parts) == SourcePositions(parts[..m]) + {m};
        assert m !in SourcePositions(parts[..m]);
      } else {
        assert SourcePositions(parts) == SourcePositions(parts[..m]);
      }
    }
  }

  /** The node voltage behind a connected terminal. */
  function TerminalVoltage(heap: seq<Node>, t: Option<NodeRef>): real
    requires t.Some? && t.value < |heap|
  {
    heap[t.value].voltage
  }

  /**
   * Ohm's law read-out of a resistor: `(V1 - V2) / R`, positive when current
   * flows from terminal 1 to terminal 2, and 0 when a terminal is missing.
   */
  function ResistorCurrent(heap: seq<Node>, p: Component): (i: real)
    requires p.elem.Resistor? && p.elem.resistance != 0.0 && Wired(heap, p)
    ensures p.node1.None? || p.node2.None? ==> i == 0.0
    ensures p.node1.Some? && p.node2.Some? ==>
      i * p.elem.resistance == TerminalVoltage(heap, p.node1) - TerminalVoltage(heap, p.node2)
  {
    if p.node1.None? || p.node2.None? then 0.0
    else (TerminalVoltage(heap, p.node1) - TerminalVoltage(heap, p.node2)) / p.elem.resistance
  }

  /**
   * The stored current of a capacitor, an inductor or a voltage source:
   * for the elements `SetCurrent` can write, writing back what was read
   * changes nothing.
   */
  function StoredCurrent(e: Element): (i: real)
    requires !e.Resistor?
    ensures e.Capacitor? || e.VSource? ==> SetCurrent(e, i) == e
  {
    e.current
  }

  /** Overwrites the stored current of a capacitor or a voltage source. */
  function SetCurrent(e: Element, x: real): (e': Element)
    requires e.Capacitor? || e.VSource?
    ensures e'.Capacitor? == e.Capacitor? && e'.VSource? == e.VSource?
    ensures e'.current == x
    ensures e'.(current := e.current) == e
  {
    if e.Capacitor? then Capacitor(e.capacitance, e.voltage, x) else VSource(e.wave, x)
  }

  /**
   * The capacitor's post-solve update: with both terminals connected the
   * stored voltage becomes `V1 - V2`; otherwise nothing changes.
   */
  function UpdateCapacitor(heap: seq<Node>, p: Component): (p': Component)
    requires p.elem.Capacitor? && Wired(heap, p)
    ensures p'.node1 == p.node1 && p'.node2 == p.node2 && p'.elem.Capacitor?
    ensures p'.elem.capacitance == p.elem.capacitance && p'.elem.current == p.elem.current
    ensures p.node1.Some? && p.node2.Some? ==>
      p'.elem.voltage == TerminalVoltage(heap, p.node1) - TerminalVoltage(heap, p.node2)
    ensures p.node1.None? || p.node2.None? ==> p' == p
  {
    if p.node1.Some? && p.node2.Some? then
      var v := TerminalVoltage(heap, p.node1) - TerminalVoltage(heap, p.node2);
      p.(elem := Capacitor(p.elem.capacitance, v, p.elem.current))
    else p
  }

  /** The fixed time constant the inductor update divides by, in place of the step size. */
  const InductorUpdateStep: real := 0.000001

  /** The stored current times the inductance is the voltage drop times the fixed update constant. */
  predicate InductorLaw(current: real, inductance: real, drop: real) {
    current * inductance == drop * InductorUpdateStep
  }

  /**
   * The inductor's post-solve update, as the C++ code writes it: with both
   * terminals connected the stored current becomes
   * `(V1 - V2) / (L / 0.000001)`, whatever the step size was; otherwise
   * nothing changes.
   */
  function UpdateInductor(heap: seq<Node>, p: Component): (p': Component)
    requires p.elem.Inductor? && p.elem.inductance != 0.0 && Wired(heap, p)
    ensures p'.node1 == p.node1 && p'.node2 == p.node2 && p'.elem.Inductor?
    ensures p'.elem.inductance == p.elem.inductance
    ensures p.node1.Some? && p.node2.Some? ==>
      InductorLaw(p'.elem.current, p.elem.inductance, TerminalVoltage(heap, p.node1) - TerminalVoltage(heap, p.node2))
    ensures p.node1.None? || p.node2.None? ==> p' == p
  {
    if p.node1.Some? && p.node2.Some? then
      var v := TerminalVoltage(heap, p.node1) - TerminalVoltage(heap, p.node2);
      p.(elem := Inductor(p.elem.inductance, v / (p.elem.inductance / InductorUpdateStep)))
    else p
  }

  /**
   * What the post-solve update does to one component, read against the
   * arena `heap` of new node voltages: the wiring is kept; a capacitor
   * keeps its capacitance and current and, with both terminals connected,
   * stores the voltage across it; an inductor keeps its inductance and,
   * with both terminals connected, stores a current obeying `InductorLaw`;
   * a part with a missing terminal, and any other element, is unchanged.
   */
  ghost predicate ReactiveUpdated(heap: seq<Node>, p: Component, p': Component)
    requires Wired(heap, p)
  {
    && p'.node1 == p.node1 && p'.node2 == p.node2
    && (p.elem.Capacitor? ==>
          && p'.elem.Capacitor?
          && p'.elem.capacitance == p.elem.capacitance && p'.elem.current == p.elem.current
          && (p.node1.Some? && p.node2.Some? ==>
                p'.elem.voltage == TerminalVoltage(heap, p.node1) - TerminalVoltage(heap, p.node2)))
    && (p.elem.Inductor? ==>
          && p'.elem.Inductor? && p'.elem.inductance == p.elem.inductance
          && (p.node1.Some? && p.node2.Some? ==>
                InductorLaw(p'.elem.current, p.elem.inductance, TerminalVoltage(heap, p.node1) - TerminalVoltage(heap, p.node2))))
    && (p.node1.None? || p.node2.None? || (!p.elem.Capacitor? && !p.elem.Inductor?) ==> p' == p)
  }

  /** The reactive-state update of one component after a solve; other elements are left alone. */
  function UpdateState(heap: seq<Node>, p: Component): (p': Component)
    requires Wired(heap, p) && PhysicalElement(p.elem)
    ensures ReactiveUpdated(heap, p, p')
  {
    if p.elem.Capacitor? then UpdateCapacitor(heap, p)
    else if p.elem.Inductor? then UpdateInductor(heap, p)
    else p
  }
}
