/**
 * Assembly of the MNA system: one stamp signature over the closed element
 * variant, the ordered passes (resistors, capacitors, inductors, then
 * voltage sources with a running index), and what the assembled system
 * holds in the constraint row of each voltage source.
 */
module Assembly {
  import opened Dense
  import opened Nodes
  import opened Components
  import opened Stamps
  import opened Circuits

  /** The part can be stamped into a system of `n` unknowns. */
  predicate Stampable(heap: seq<Node>, p: Component, n: nat) {
    && Wired(heap, p)
    && Index(heap, p.node1) < n
    && Index(heap, p.node2) < n
    && PhysicalElement(p.elem)
  }

  /** Every part's terminals refer to the arena and its parameters are physical. */
  predicate WellFormed(heap: seq<Node>, parts: seq<Component>) {
    forall q :: 0 <= q < |parts| ==> Wired(heap, parts[q]) && PhysicalElement(parts[q].elem)
  }

  /**
   * What a part adds to `G(r, c)`: the branch pattern with conductance
   * `1/R`, `C/dt` or `dt/L` (nothing for a reactive part when `dt <= 0`),
   * or a source's branch-current coupling at its reserved index.
   */
  function ContribG(heap: seq<Node>, p: Component, dt: real, vsIndex: int, r: int, c: int): real
    requires Wired(heap, p) && PhysicalElement(p.elem)
  {
    var i := Index(heap, p.node1);
    var j := Index(heap, p.node2);
    match p.elem
    case Resistor(res) => PatternDelta(1.0 / res, i, j, r, c)
    case Capacitor(cap, _, _) => if dt > 0.0 then PatternDelta(cap / dt, i, j, r, c) else 0.0
    case Inductor(ind, _) => if dt > 0.0 then PatternDelta(dt / ind, i, j, r, c) else 0.0
    case VSource(_, _) => SourceDelta(i, j, vsIndex, r, c)
  }

  /**
   * What a part adds to `I(r)`: nothing for a resistor, `(C/dt) * vprev`
   * into terminal 1 for a capacitor, the previous current out of terminal 1
   * for an inductor, the source voltage at `time` in a source's reserved row.
   */
  function ContribI(heap: seq<Node>, p: Component, dt: real, vsIndex: int, time: real, r: int): real
    requires Wired(heap, p) && PhysicalElement(p.elem)
  {
    var i := Index(heap, p.node1);
    var j := Index(heap, p.node2);
    match p.elem
    case Resistor(_) => 0.0
    case Capacitor(cap, v, _) => if dt > 0.0 then CurrentDelta(cap / dt * v, i, j, r) else 0.0
    case Inductor(_, cur) => if dt > 0.0 then -CurrentDelta(cur, i, j, r) else 0.0
    case VSource(w, _) => Pick(r == vsIndex, GetVoltage(w, time))
  }

  /**
   * `s'` is `s` plus the part's contribution, entry by entry: the
   * contract every stamp meets.
   */
  ghost predicate Stamped(heap: seq<Node>, p: Component, s: System, s': System, dt: real, vsIndex: int, time: real)
    requires WellShaped(s) && Wired(heap, p) && PhysicalElement(p.elem)
  {
    && WellShaped(s') && Dim(s') == Dim(s)
    && (forall r, c :: 0 <= r < Dim(s) && 0 <= c < Dim(s) ==>
          s'.G[r][c] == s.G[r][c] + ContribG(heap, p, dt, vsIndex, r, c))
    && (forall r :: 0 <= r < Dim(s) ==> s'.I[r] == s.I[r] + ContribI(heap, p, dt, vsIndex, time, r))
  }

  /**
   * The stamp of one part with the step's `(G, I, dt, vsIndex, time)`: the
   * system gains the part's contribution, which does not depend on what
   * the system already holds.
   */
  function Stamp(heap: seq<Node>, p: Component, s: System, dt: real, vsIndex: int, time: real): (s': System)
    requires WellShaped(s) && Stampable(heap, p, Dim(s))
    requires p.elem.VSource? ==> 0 <= vsIndex < Dim(s)
    ensures WellShaped(s') && Dim(s') == Dim(s)
    ensures Stamped(heap, p, s, s', dt, vsIndex, time)
  {
    if p.elem.Resistor? then ResistorStamp(heap, p, s, dt, vsIndex, time)
    else if p.elem.Capacitor? then CapacitorStamp(heap, p, s, dt, vsIndex, time)
    else if p.elem.Inductor? then InductorStamp(heap, p, s, dt, vsIndex, time)
    else SourceStamp(heap, p, s, dt, vsIndex, time)
  }

  function ResistorStamp(heap: seq<Node>, p: Component, s: System, dt: real, vsIndex: int, time: real): (s': System)
    requires WellShaped(s) && Stampable(heap, p, Dim(s)) && p.elem.Resistor?
    ensures Stamped(heap, p, s, s', dt, vsIndex, time)
  {
    ContribResistor(heap, p, dt, vsIndex, time);
    StampResistor(s, p.elem.resistance, Index(heap, p.node1), Index(heap, p.node2))
  }

  function CapacitorStamp(heap: seq<Node>, p: Component, s: System, dt: real, vsIndex: int, time: real): (s': System)
    requires WellShaped(s) && Stampable(heap, p, Dim(s)) && p.elem.Capacitor?
    ensures Stamped(heap, p, s, s', dt, vsIndex, time)
  {
    var s' := StampCapacitor(s, p.elem.capacitance, p.elem.voltage, dt, Index(heap, p.node1), Index(heap, p.node2));
    if dt > 0.0 then ContribCapacitor(heap, p, dt, vsIndex, time); s'
    else ContribReactiveIdle(heap, p, dt, vsIndex, time); s'
  }

  function InductorStamp(heap: seq<Node>, p: Component, s: System, dt: real, vsIndex: int, time: real): (s': System)
    requires WellShaped(s) && Stampable(heap, p, Dim(s)) && p.elem.Inductor?
    ensures Stamped(heap, p, s, s', dt, vsIndex, time)
  {
    var s' := StampInductor(s, p.elem.inductance, p.elem.current, dt, Index(heap, p.node1), Index(heap, p.node2));
    if dt > 0.0 then ContribInductor(heap, p, dt, vsIndex, time); s'
    else ContribReactiveIdle(heap, p, dt, vsIndex, time); s'
  }

  function SourceStamp(heap: seq<Node>, p: Component, s: System, dt: real, vsIndex: int, time: real): (s': System)
    requires WellShaped(s) && Stampable(heap, p, Dim(s)) && p.elem.VSource? && 0 <= vsIndex < Dim(s)
    ensures Stamped(heap, p, s, s', dt, vsIndex, time)
  {
    ContribSource(heap, p, dt, vsIndex, time);
    StampSource(s, GetVoltage(p.elem.wave, time), Index(heap, p.node1), Index(heap, p.node2), vsIndex)
  }

  /** A resistor's contribution, written out. */
  lemma ContribResistor(heap: seq<Node>, p: Component, dt: real, vsIndex: int, time: real)
    requires Wired(heap, p) && PhysicalElement(p.elem) && p.elem.Resistor?
    ensures var i := Index(heap, p.node1);
      var j := Index(heap, p.node2);
      && (forall r, c :: ContribG(heap, p, dt, vsIndex, r, c) == PatternDelta(1.0 / p.elem.resistance, i, j, r, c))
      && (forall r :: ContribI(heap, p, dt, vsIndex, time, r) == 0.0)
  {
  }

  /** A capacitor's contribution, written out for a positive step. */
  lemma ContribCapacitor(heap: seq<Node>, p: Component, dt: real, vsIndex: int, time: real)
    requires Wired(heap, p) && p.elem.Capacitor? && dt > 0.0
    ensures var i := Index(heap, p.node1);
      var j := Index(heap, p.node2);
      && (forall r, c :: ContribG(heap, p, dt, vsIndex, r, c) == PatternDelta(p.elem.capacitance / dt, i, j, r, c))
      && (forall r :: ContribI(heap, p, dt, vsIndex, time, r) == CurrentDelta(p.elem.capacitance / dt * p.elem.voltage, i, j, r))
  {
  }

  /** An inductor's contribution, written out for a positive step. */
  lemma ContribInductor(heap: seq<Node>, p: Component, dt: real, vsIndex: int, time: real)
    requires Wired(heap, p) && PhysicalElement(p.elem) && p.elem.Inductor? && dt > 0.0
    ensures var i := Index(heap, p.node1);
      var j := Index(heap, p.node2);
      && (forall r, c :: ContribG(heap, p, dt, vsIndex, r, c) == PatternDelta(dt / p.elem.inductance, i, j, r, c))
      && (forall r :: ContribI(heap, p, dt, vsIndex, time, r) == -CurrentDelta(p.elem.current, i, j, r))
  {
  }

  /** A reactive part contributes nothing without a positive step. */
  lemma ContribReactiveIdle(heap: seq<Node>, p: Component, dt: real, vsIndex: int, time: real)
    requires Wired(heap, p) && PhysicalElement(p.elem) && (p.elem.Capacitor? || p.elem.Inductor?) && dt <= 0.0
    ensures forall r, c :: ContribG(heap, p, dt, vsIndex, r, c) == 0.0
    ensures forall r :: ContribI(heap, p, dt, vsIndex, time, r) == 0.0
  {
  }

  /** The contribution of a voltage source, written out. */
  lemma ContribSource(heap: seq<Node>, p: Component, dt: real, vsIndex: int, time: real)
    requires Wired(heap, p) && p.elem.VSource?
    ensures var i := Index(heap, p.node1);
      var j := Index(heap, p.node2);
      && (forall r, c :: ContribG(heap, p, dt, vsIndex, r, c) == SourceDelta(i, j, vsIndex, r, c))
      && forall r :: ContribI(heap, p, dt, vsIndex, time, r) == Pick(r == vsIndex, GetVoltage(p.elem.wave, time))
  {
  }

  /** Stamps are purely additive: any two parts stamped in either order give the same system. */
  lemma StampsCommute(heap: seq<Node>, s: System, p1: Component, k1: int, p2: Component, k2: int, dt: real, time: real)
    requires WellShaped(s) && Stampable(heap, p1, Dim(s)) && Stampable(heap, p2, Dim(s))
    requires p1.elem.VSource? ==> 0 <= k1 < Dim(s)
    requires p2.elem.VSource? ==> 0 <= k2 < Dim(s)
    ensures Stamp(heap, p2, Stamp(heap, p1, s, dt, k1, time), dt, k2, time)
         == Stamp(heap, p1, Stamp(heap, p2, s, dt, k2, time), dt, k1, time)
  {
    SameSystem(Stamp(heap, p2, Stamp(heap, p1, s, dt, k1, time), dt, k2, time),
               Stamp(heap, p1, Stamp(heap, p2, s, dt, k2, time), dt, k1, time));
  }

  /** The passes over the non-source parts, in the order the orchestrator runs them. */
  datatype Pass = ResistorPass | CapacitorPass | InductorPass

  predicate InPass(e: Element, pass: Pass) {
    match pass
    case ResistorPass => e.Resistor?
    case CapacitorPass => e.Capacitor?
    case InductorPass => e.Inductor?
  }

  /** Stamps, in registration order, every part the pass selects. */
  function StampPassive(heap: seq<Node>, s: System, parts: seq<Component>, pass: Pass, dt: real, time: real): (s': System)
    requires WellShaped(s) && Fits(heap, parts, Dim(s)) && Physical(parts)
    ensures WellShaped(s') && Dim(s') == Dim(s)
    decreases |parts|
  {
    if |parts| == 0 then s
    else
      var m := |parts| - 1;
      var prev := StampPassive(heap, s, parts[..m], pass, dt, time);
      if InPass(parts[m].elem, pass) then Stamp(heap, parts[m], prev, dt, -1, time) else prev
  }

  /**
   * Stamps the voltage sources in registration order, the k-th one with
   * reserved index `base + k`.
   */
  function StampSources(heap: seq<Node>, s: System, parts: seq<Component>, base: nat, dt: real, time: real): (s': System)
    requires WellShaped(s) && Fits(heap, parts, Dim(s)) && base + SourceCount(parts) <= Dim(s)
    ensures WellShaped(s') && Dim(s') == Dim(s)
    decreases |parts|
  {
    if |parts| == 0 then s
    else
      var m := |parts| - 1;
      var prev := StampSources(heap, s, parts[..m], base, dt, time);
      if parts[m].elem.VSource? then SourceStamp(heap, parts[m], prev, dt, base + SourceCount(parts[..m]), time)
      else prev
  }

  /** A passive pass whose terminals all lie below `lim` leaves every row from `lim` on untouched. */
  lemma {:induction false} PassiveFrame(heap: seq<Node>, s: System, parts: seq<Component>, pass: Pass, dt: real, time: real, lim: int)
    requires WellShaped(s) && Fits(heap, parts, lim) && lim <= Dim(s) && Physical(parts)
    ensures RowsKeptFrom(s, StampPassive(heap, s, parts, pass, dt, time), lim)
    decreases |parts|
  {
    if |parts| > 0 {
      var m := |parts| - 1;
      FitsWithin(heap, parts, lim, Dim(s), m);
      PhysicalPrefix(parts, m);
      PassiveFrame(heap, s, parts[..m], pass, dt, time, lim);
      PassiveFrameStep(heap, s, parts, pass, dt, time, lim);
    }
  }

  /** Rows from `lim` on are the same in `s` and `s'`. */
  predicate RowsKeptFrom(s: System, s': System, lim: int)
    requires WellShaped(s) && WellShaped(s') && Dim(s') == Dim(s)
  {
    && (forall r, c :: 0 <= r < Dim(s) && lim <= r && 0 <= c < Dim(s) ==> s'.G[r][c] == s.G[r][c])
    && (forall r :: 0 <= r < Dim(s) && lim <= r ==> s'.I[r] == s.I[r])
  }

  /** The induction's step: the last part keeps the rows from `lim` on, as the shorter pass does. */
  lemma PassiveFrameStep(heap: seq<Node>, s: System, parts: seq<Component>, pass: Pass, dt: real, time: real, lim: int)
    requires WellShaped(s) && Fits(heap, parts, lim) && lim <= Dim(s) && Physical(parts) && |parts| > 0
    requires Fits(heap, parts[..|parts| - 1], Dim(s)) && Physical(parts[..|parts| - 1])
    requires RowsKeptFrom(s, StampPassive(heap, s, parts[..|parts| - 1], pass, dt, time), lim)
    ensures RowsKeptFrom(s, StampPassive(heap, s, parts, pass, dt, time), lim)
  {
    var m := |parts| - 1;
    var prev := StampPassive(heap, s, parts[..m], pass, dt, time);
    if InPass(parts[m].elem, pass) {
      StampPassiveLastIn(heap, s, parts, pass, dt, time);
      PassiveStampFrame(heap, parts[m], prev, dt, time, lim);
      RowsKeptFromTrans(s, prev, Stamp(heap, parts[m], prev, dt, -1, time), lim);
    } else {
      StampPassiveLastOut(heap, s, parts, pass, dt, time);
    }
  }

  /** Keeping the rows from `lim` on composes. */
  lemma RowsKeptFromTrans(s: System, s1: System, s2: System, lim: int)
    requires WellShaped(s) && WellShaped(s1) && WellShaped(s2) && Dim(s1) == Dim(s) && Dim(s2) == Dim(s)
    requires RowsKeptFrom(s, s1, lim) && RowsKeptFrom(s1, s2, lim)
    ensures RowsKeptFrom(s, s2, lim)
  {
  }

  /** A passive pass over a list whose last part is in the pass ends with that part's stamp. */
  lemma StampPassiveLastIn(heap: seq<Node>, s: System, parts: seq<Component>, pass: Pass, dt: real, time: real)
    requires WellShaped(s) && Fits(heap, parts, Dim(s)) && Physical(parts) && |parts| > 0
    requires Fits(heap, parts[..|parts| - 1], Dim(s)) && Physical(parts[..|parts| - 1])
    requires InPass(parts[|parts| - 1].elem, pass)
    ensures var m := |parts| - 1;
      StampPassive(heap, s, parts, pass, dt, time)
        == Stamp(heap, parts[m], StampPassive(heap, s, parts[..m], pass, dt, time), dt, -1, time)
  {
  }

  /** A passive pass passes over a last part that is not in it. */
  lemma StampPassiveLastOut(heap: seq<Node>, s: System, parts: seq<Component>, pass: Pass, dt: real, time: real)
    requires WellShaped(s) && Fits(heap, parts, Dim(s)) && Physical(parts) && |parts| > 0
    requires Fits(heap, parts[..|parts| - 1], Dim(s)) && Physical(parts[..|parts| - 1])
    requires !InPass(parts[|parts| - 1].elem, pass)
    ensures StampPassive(heap, s, parts, pass, dt, time) == StampPassive(heap, s, parts[..|parts| - 1], pass, dt, time)
  {
  }

  /** A passive stamp whose terminals lie below `lim` leaves every row from `lim` on untouched. */
  lemma PassiveStampFrame(heap: seq<Node>, p: Component, s: System, dt: real, time: real, lim: int)
    requires WellShaped(s) && Stampable(heap, p, Dim(s)) && !p.elem.VSource?
    requires Index(heap, p.node1) < lim && Index(heap, p.node2) < lim
    ensures RowsKeptFrom(s, Stamp(heap, p, s, dt, -1, time), lim)
  {
    var s' := Stamp(heap, p, s, dt, -1, time);
    ContribBeyond(heap, p, dt, time, lim);
    assert Stamped(heap, p, s, s', dt, -1, time);
  }

  /** A passive part adds nothing to the rows at or beyond a bound above both its terminals. */
  lemma ContribBeyond(heap: seq<Node>, p: Component, dt: real, time: real, lim: int)
    requires Wired(heap, p) && PhysicalElement(p.elem) && !p.elem.VSource?
    requires Index(heap, p.node1) < lim && Index(heap, p.node2) < lim
    ensures forall r, c :: lim <= r ==> ContribG(heap, p, dt, -1, r, c) == 0.0
    ensures forall r :: lim <= r ==> ContribI(heap, p, dt, -1, time, r) == 0.0
  {
  }

  /**
   * The source pass leaves every row from `base + SourceCount(parts)` on
   * untouched when all terminals lie below `base`.
   */
  lemma {:induction false} SourcesFrame(heap: seq<Node>, s: System, parts: seq<Component>, base: nat, dt: real, time: real)
    requires WellShaped(s) && Fits(heap, parts, base) && base + SourceCount(parts) <= Dim(s)
    ensures var s' := StampSources(heap, s, parts, base, dt, time);
      && (forall r, c :: 0 <= r < Dim(s) && base + SourceCount(parts) <= r && 0 <= c < Dim(s) ==> s'.G[r][c] == s.G[r][c])
      && (forall r :: 0 <= r < Dim(s) && base + SourceCount(parts) <= r ==> s'.I[r] == s.I[r])
    decreases |parts|
  {
    if |parts| > 0 {
      var m := |parts| - 1;
      SourcesFrame(heap, s, parts[..m], base, dt, time);
    }
  }

  /**
   * Row `k` of `s'` is row `k` of `s` plus a source constraint: `+1` at
   * column `i`, `-1` at column `j` (none for a negative index), and `v`
   * added to `I(k)`.
   */
  predicate RowGains(s: System, s': System, k: nat, i: int, j: int, v: real)
    requires WellShaped(s) && WellShaped(s') && Dim(s') == Dim(s) && k < Dim(s)
  {
    && s'.I[k] == s.I[k] + v
    && forall c :: 0 <= c < Dim(s) ==>
         s'.G[k][c] == s.G[k][c] + ((if c == i then 1.0 else 0.0) - (if c == j then 1.0 else 0.0))
  }

  /** Row `k` of `s'` equals row `k` of `s`, in `G` and in `I`. */
  predicate RowKept(s: System, s': System, k: nat)
    requires WellShaped(s) && WellShaped(s') && Dim(s') == Dim(s) && k < Dim(s)
  {
    && s'.I[k] == s.I[k]
    && forall c :: 0 <= c < Dim(s) ==> s'.G[k][c] == s.G[k][c]
  }

  /** A row kept and then gaining a constraint has gained that constraint, and so has one that gains it and is then kept. */
  lemma RowGainsKept(s: System, s1: System, s2: System, k: nat, i: int, j: int, v: real)
    requires WellShaped(s) && WellShaped(s1) && WellShaped(s2) && Dim(s1) == Dim(s) && Dim(s2) == Dim(s) && k < Dim(s)
    ensures RowKept(s, s1, k) && RowGains(s1, s2, k, i, j, v) ==> RowGains(s, s2, k, i, j, v)
    ensures RowGains(s, s1, k, i, j, v) && RowKept(s1, s2, k) ==> RowGains(s, s2, k, i, j, v)
  {
  }

  /**
   * After the source pass, the row reserved for the source at position `q`
   * has gained exactly `+1` at its terminal 1 and `-1` at its terminal 2,
   * and its entry of `I` exactly the source voltage at `time`: no other
   * source writes that row.
   */
  lemma {:induction false} SourceRow(heap: seq<Node>, s: System, parts: seq<Component>, base: nat, dt: real, time: real, q: nat)
    requires WellShaped(s) && Fits(heap, parts, base) && base + SourceCount(parts) <= Dim(s)
    requires q < |parts| && parts[q].elem.VSource?
    ensures base + SourceCount(parts[..q]) < Dim(s)
    ensures RowGains(s, StampSources(heap, s, parts, base, dt, time), base + SourceCount(parts[..q]),
                     Index(heap, parts[q].node1), Index(heap, parts[q].node2), GetVoltage(parts[q].elem.wave, time))
    decreases |parts|
  {
    var m := |parts| - 1;
    if q == m {
      SourceRowLast(heap, s, parts, base, dt, time);
    } else {
      FitsWithin(heap, parts, base, Dim(s), m);
      SourceRow(heap, s, parts[..m], base, dt, time, q);
      SourceRowStep(heap, s, parts, base, dt, time, q);
    }
  }

  /** The induction's step: a row the shorter list already gains is kept by the last stamp. */
  lemma SourceRowStep(heap: seq<Node>, s: System, parts: seq<Component>, base: nat, dt: real, time: real, q: nat)
    requires WellShaped(s) && Fits(heap, parts, base) && base + SourceCount(parts) <= Dim(s)
    requires q < |parts| - 1 && parts[q].elem.VSource?
    requires Fits(heap, parts[..|parts| - 1], base) && base + SourceCount(parts[..|parts| - 1]) <= Dim(s)
    requires var pre := parts[..|parts| - 1];
      && base + SourceCount(pre[..q]) < Dim(s)
      && RowGains(s, StampSources(heap, s, pre, base, dt, time), base + SourceCount(pre[..q]),
                  Index(heap, pre[q].node1), Index(heap, pre[q].node2), GetVoltage(pre[q].elem.wave, time))
    ensures base + SourceCount(parts[..q]) < Dim(s)
    ensures RowGains(s, StampSources(heap, s, parts, base, dt, time), base + SourceCount(parts[..q]),
                     Index(heap, parts[q].node1), Index(heap, parts[q].node2), GetVoltage(parts[q].elem.wave, time))
  {
    var m := |parts| - 1;
    assert parts[..m][q] == parts[q];
    assert parts[..m][..q] == parts[..q];
    SourceCountPrefix(parts, q, m);
    var p := parts[q];
    LastStampKeepsGains(heap, s, parts, base, dt, time, base + SourceCount(parts[..q]),
                        Index(heap, p.node1), Index(heap, p.node2), GetVoltage(p.elem.wave, time));
  }

  /** The induction's base: the row of the last part of the list, when it is a source. */
  lemma SourceRowLast(heap: seq<Node>, s: System, parts: seq<Component>, base: nat, dt: real, time: real)
    requires WellShaped(s) && Fits(heap, parts, base) && base + SourceCount(parts) <= Dim(s)
    requires |parts| > 0 && parts[|parts| - 1].elem.VSource?
    ensures var m := |parts| - 1;
      && base + SourceCount(parts[..m]) < Dim(s)
      && RowGains(s, StampSources(heap, s, parts, base, dt, time), base + SourceCount(parts[..m]),
                  Index(heap, parts[m].node1), Index(heap, parts[m].node2), GetVoltage(parts[m].elem.wave, time))
  {
    var m := |parts| - 1;
    SourceCountPrefix(parts, m, |parts|);
    assert parts[..|parts|] == parts;
    FitsWithin(heap, parts, base, Dim(s), m);
    var k := base + SourceCount(parts[..m]);
    var prev := StampSources(heap, s, parts[..m], base, dt, time);
    SourcesFrameRow(heap, s, parts[..m], base, dt, time, k);
    LastSourceGains(heap, s, parts, base, dt, time);
    RowGainsKept(s, prev, StampSources(heap, s, parts, base, dt, time), k,
                 Index(heap, parts[m].node1), Index(heap, parts[m].node2), GetVoltage(parts[m].elem.wave, time));
  }

  /** The source pass keeps every row from `base + SourceCount(parts)` on. */
  lemma SourcesFrameRow(heap: seq<Node>, s: System, parts: seq<Component>, base: nat, dt: real, time: real, k: nat)
    requires WellShaped(s) && Fits(heap, parts, base) && base + SourceCount(parts) <= k < Dim(s)
    ensures RowKept(s, StampSources(heap, s, parts, base, dt, time), k)
  {
    SourcesFrame(heap, s, parts, base, dt, time);
  }

  /** A source last in the list adds its constraint to its own reserved row. */
  lemma LastSourceGains(heap: seq<Node>, s: System, parts: seq<Component>, base: nat, dt: real, time: real)
    requires WellShaped(s) && Fits(heap, parts, base) && base + SourceCount(parts) <= Dim(s)
    requires |parts| > 0 && parts[|parts| - 1].elem.VSource?
    requires Fits(heap, parts[..|parts| - 1], base) && base + SourceCount(parts[..|parts| - 1]) < Dim(s)
    ensures var m := |parts| - 1;
      RowGains(StampSources(heap, s, parts[..m], base, dt, time), StampSources(heap, s, parts, base, dt, time),
               base + SourceCount(parts[..m]), Index(heap, parts[m].node1), Index(heap, parts[m].node2),
               GetVoltage(parts[m].elem.wave, time))
  {
    var m := |parts| - 1;
    var prev := StampSources(heap, s, parts[..m], base, dt, time);
    var k := base + SourceCount(parts[..m]);
    StampSourcesLastSource(heap, s, parts, base, dt, time);
    SourceStampRow(heap, parts[m], prev, dt, k, time);
  }

  /** The source pass over a list ending in a source is that source's stamp on the pass over the rest. */
  lemma StampSourcesLastSource(heap: seq<Node>, s: System, parts: seq<Component>, base: nat, dt: real, time: real)
    requires WellShaped(s) && Fits(heap, parts, base) && base + SourceCount(parts) <= Dim(s)
    requires |parts| > 0 && parts[|parts| - 1].elem.VSource?
    requires Fits(heap, parts[..|parts| - 1], base) && base + SourceCount(parts[..|parts| - 1]) < Dim(s)
    ensures var m := |parts| - 1;
      StampSources(heap, s, parts, base, dt, time)
        == SourceStamp(heap, parts[m], StampSources(heap, s, parts[..m], base, dt, time), dt, base + SourceCount(parts[..m]), time)
  {
  }

  /** The induction's step: the last part's stamp keeps what an earlier source's row has gained. */
  lemma LastStampKeepsGains(heap: seq<Node>, s: System, parts: seq<Component>, base: nat, dt: real, time: real,
                            k: nat, i: int, j: int, v: real)
    requires WellShaped(s) && Fits(heap, parts, base) && base + SourceCount(parts) <= Dim(s) && |parts| > 0
    requires Fits(heap, parts[..|parts| - 1], base) && base + SourceCount(parts[..|parts| - 1]) <= Dim(s)
    requires base <= k < base + SourceCount(parts[..|parts| - 1])
    requires RowGains(s, StampSources(heap, s, parts[..|parts| - 1], base, dt, time), k, i, j, v)
    ensures RowGains(s, StampSources(heap, s, parts, base, dt, time), k, i, j, v)
  {
    LastSourceSparesRow(heap, s, parts, base, dt, time, k);
    RowGainsKept(s, StampSources(heap, s, parts[..|parts| - 1], base, dt, time), StampSources(heap, s, parts, base, dt, time), k, i, j, v);
  }

  /**
   * The last part's stamp leaves alone every row from `base` up to, but
   * not including, the last part's own reserved index.
   */
  lemma LastSourceSparesRow(heap: seq<Node>, s: System, parts: seq<Component>, base: nat, dt: real, time: real, k: nat)
    requires WellShaped(s) && Fits(heap, parts, base) && base + SourceCount(parts) <= Dim(s) && |parts| > 0
    requires Fits(heap, parts[..|parts| - 1], base) && base + SourceCount(parts[..|parts| - 1]) <= Dim(s)
    requires base <= k < base + SourceCount(parts[..|parts| - 1])
    ensures RowKept(StampSources(heap, s, parts[..|parts| - 1], base, dt, time), StampSources(heap, s, parts, base, dt, time), k)
  {
    var m := |parts| - 1;
    var prev := StampSources(heap, s, parts[..m], base, dt, time);
    if !parts[m].elem.VSource? {
      StampSourcesLastPassive(heap, s, parts, base, dt, time);
    } else {
      StampSourcesLastSource(heap, s, parts, base, dt, time);
      SourceSparesRow(heap, parts[m], prev, dt, base + SourceCount(parts[..m]), time, k);
    }
  }

  /** The source pass passes over a last part that is not a source. */
  lemma StampSourcesLastPassive(heap: seq<Node>, s: System, parts: seq<Component>, base: nat, dt: real, time: real)
    requires WellShaped(s) && Fits(heap, parts, base) && base + SourceCount(parts) <= Dim(s)
    requires |parts| > 0 && !parts[|parts| - 1].elem.VSource?
    requires Fits(heap, parts[..|parts| - 1], base) && base + SourceCount(parts[..|parts| - 1]) <= Dim(s)
    ensures StampSources(heap, s, parts, base, dt, time) == StampSources(heap, s, parts[..|parts| - 1], base, dt, time)
  {
  }

  /**
   * A source stamped with reserved index `k`, whose terminals lie below
   * `k`, adds its constraint pattern to row `k` and its voltage to `I(k)`.
   */
  lemma SourceStampRow(heap: seq<Node>, p: Component, s: System, dt: real, k: nat, time: real)
    requires WellShaped(s) && Stampable(heap, p, Dim(s)) && p.elem.VSource? && k < Dim(s)
    requires Index(heap, p.node1) < k && Index(heap, p.node2) < k
    ensures RowGains(s, SourceStamp(heap, p, s, dt, k, time), k, Index(heap, p.node1), Index(heap, p.node2), GetVoltage(p.elem.wave, time))
  {
    ContribSource(heap, p, dt, k, time);
  }

  /**
   * A source stamped with reserved index `k'` leaves alone every other row
   * `k` that lies above both its terminals.
   */
  lemma SourceSparesRow(heap: seq<Node>, p: Component, s: System, dt: real, k': int, time: real, k: nat)
    requires WellShaped(s) && Stampable(heap, p, Dim(s)) && p.elem.VSource? && 0 <= k' < Dim(s)
    requires k < Dim(s) && k != k' && Index(heap, p.node1) < k && Index(heap, p.node2) < k
    ensures RowKept(s, SourceStamp(heap, p, s, dt, k', time), k)
  {
    ContribSource(heap, p, dt, k', time);
  }

  /** The three passive passes of a step, in order, starting from the zero system. */
  function PassiveSystem(c: Circuit, dt: real): (sys: System)
    requires Valid(c) && Physical(c.parts)
    ensures WellShaped(sys) && Dim(sys) == Size(c)
    ensures WellFormed(c.heap, c.parts)
    ensures forall r, col :: 0 <= r < Size(c) && 0 <= col < Size(c) ==>
      sys.G[r][col] == PassG(c.heap, c.parts, ResistorPass, dt, r, col) + PassG(c.heap, c.parts, CapacitorPass, dt, r, col)
                     + PassG(c.heap, c.parts, InductorPass, dt, r, col)
    ensures forall r :: 0 <= r < Size(c) ==>
      sys.I[r] == PassI(c.heap, c.parts, ResistorPass, dt, c.time, r) + PassI(c.heap, c.parts, CapacitorPass, dt, c.time, r)
                + PassI(c.heap, c.parts, InductorPass, dt, c.time, r)
  {
    TerminalsBelowBase(c);
    FitsWithin(c.heap, c.parts, Base(c), Size(c), |c.parts|);
    var s0 := Zero(Size(c));
    var s1 := StampPassive(c.heap, s0, c.parts, ResistorPass, dt, c.time);
    var s2 := StampPassive(c.heap, s1, c.parts, CapacitorPass, dt, c.time);
    StampPassiveSum(c.heap, s0, c.parts, ResistorPass, dt, c.time);
    StampPassiveSum(c.heap, s1, c.parts, CapacitorPass, dt, c.time);
    StampPassiveSum(c.heap, s2, c.parts, InductorPass, dt, c.time);
    StampPassive(c.heap, s2, c.parts, InductorPass, dt, c.time)
  }

  /** The passive passes leave the branch-current rows zero. */
  lemma PassiveRowsBeyondBase(c: Circuit, dt: real)
    requires Valid(c) && Physical(c.parts)
    ensures var sys := PassiveSystem(c, dt);
      && (forall r, col :: Base(c) <= r < Size(c) && 0 <= col < Size(c) ==> sys.G[r][col] == 0.0)
      && (forall r :: Base(c) <= r < Size(c) ==> sys.I[r] == 0.0)
  {
    TerminalsBelowBase(c);
    var s0 := Zero(Size(c));
    var s1 := StampPassive(c.heap, s0, c.parts, ResistorPass, dt, c.time);
    var s2 := StampPassive(c.heap, s1, c.parts, CapacitorPass, dt, c.time);
    PassiveFrame(c.heap, s0, c.parts, ResistorPass, dt, c.time, Base(c));
    PassiveFrame(c.heap, s1, c.parts, CapacitorPass, dt, c.time, Base(c));
    PassiveFrame(c.heap, s2, c.parts, InductorPass, dt, c.time, Base(c));
    var s3 := StampPassive(c.heap, s2, c.parts, InductorPass, dt, c.time);
    assert PassiveSystem(c, dt) == s3;
    forall r, col | Base(c) <= r < Size(c) && 0 <= col < Size(c)
      ensures s3.G[r][col] == 0.0
    {
      assert s3.G[r][col] == s2.G[r][col] == s1.G[r][col] == s0.G[r][col];
    }
    forall r | Base(c) <= r < Size(c)
      ensures s3.I[r] == 0.0
    {
      assert s3.I[r] == s2.I[r] == s1.I[r] == s0.I[r];
    }
  }

  /**
   * The system of one step: resistors, capacitors, inductors, then the
   * sources evaluated at the circuit's clock.
   */
  function Assemble(c: Circuit, dt: real): (sys: System)
    requires Valid(c) && Physical(c.parts)
    ensures WellShaped(sys) && Dim(sys) == Size(c)
  {
    TerminalsBelowBase(c);
    StampSources(c.heap, PassiveSystem(c, dt), c.parts, Base(c), dt, c.time)
  }

  /**
   * In the assembled system, the row reserved for the source at position
   * `q` is its constraint equation `V(i) - V(j) = v(t)`: `+1` at terminal
   * 1's unknown, `-1` at terminal 2's, zero elsewhere, and the source
   * voltage at the circuit's clock on the right-hand side.
   */
  lemma AssembledSourceRow(c: Circuit, dt: real, q: nat)
    requires Valid(c) && Physical(c.parts)
    requires q < |c.parts| && c.parts[q].elem.VSource?
    ensures var sys := Assemble(c, dt);
      var k := SourceIndex(c, q);
      && k < Dim(sys)
      && sys.I[k] == GetVoltage(c.parts[q].elem.wave, c.time)
      && TwoPoint(sys.G[k], Index(c.heap, c.parts[q].node1), Index(c.heap, c.parts[q].node2), 1.0)
  {
    TerminalsBelowBase(c);
    var s3 := PassiveSystem(c, dt);
    var k := SourceIndex(c, q);
    assert k == Base(c) + SourceCount(c.parts[..q]);
    PassiveRowZero(c, dt, k);
    SourceRowOnZero(c.heap, s3, c.parts, Base(c), dt, c.time, q);
    assert Assemble(c, dt) == StampSources(c.heap, s3, c.parts, Base(c), dt, c.time);
  }

  /** The source pass turns a zero source row into that source's constraint. */
  lemma SourceRowOnZero(heap: seq<Node>, s: System, parts: seq<Component>, base: nat, dt: real, time: real, q: nat)
    requires WellShaped(s) && Fits(heap, parts, base) && base + SourceCount(parts) <= Dim(s)
    requires q < |parts| && parts[q].elem.VSource?
    requires base + SourceCount(parts[..q]) < Dim(s) && RowZero(s, base + SourceCount(parts[..q]))
    ensures var s' := StampSources(heap, s, parts, base, dt, time);
      && s'.I[base + SourceCount(parts[..q])] == GetVoltage(parts[q].elem.wave, time)
      && TwoPoint(s'.G[base + SourceCount(parts[..q])], Index(heap, parts[q].node1), Index(heap, parts[q].node2), 1.0)
  {
    var k := base + SourceCount(parts[..q]);
    SourceRow(heap, s, parts, base, dt, time, q);
    GainsOnZero(s, StampSources(heap, s, parts, base, dt, time), k, Index(heap, parts[q].node1), Index(heap, parts[q].node2),
                GetVoltage(parts[q].elem.wave, time));
  }

  /** A branch-current row of the passive passes' system is a zero row. */
  lemma PassiveRowZero(c: Circuit, dt: real, k: nat)
    requires Valid(c) && Physical(c.parts) && Base(c) <= k < Size(c)
    ensures RowZero(PassiveSystem(c, dt), k)
  {
    PassiveRowsBeyondBase(c, dt);
  }

  /** Row `k` of `s` is all zeros, right-hand side included. */
  predicate RowZero(s: System, k: nat)
    requires WellShaped(s) && k < Dim(s)
  {
    && s.I[k] == 0.0
    && forall c :: 0 <= c < Dim(s) ==> s.G[k][c] == 0.0
  }

  /** A zero row that gains a source's constraint is that constraint. */
  lemma GainsOnZero(s: System, s': System, k: nat, i: int, j: int, v: real)
    requires WellShaped(s) && WellShaped(s') && Dim(s') == Dim(s) && k < Dim(s)
    requires RowZero(s, k) && RowGains(s, s', k, i, j, v)
    ensures s'.I[k] == v && TwoPoint(s'.G[k], i, j, 1.0)
  {
  }

  /**
   * The reference definition of the assembled system: every part's own
   * contribution, summed over the parts in registration order, the k-th
   * voltage source taking reserved index `base + k`. This is what `G(r, c)`
   * holds once every part has been stamped into a zero system.
   */
  function AllG(heap: seq<Node>, parts: seq<Component>, base: nat, dt: real, r: int, c: int): real
    requires WellFormed(heap, parts)
    decreases |parts|
  {
    if |parts| == 0 then 0.0
    else
      var m := |parts| - 1;
      AllG(heap, parts[..m], base, dt, r, c) + ContribG(heap, parts[m], dt, base + SourceCount(parts[..m]), r, c)
  }

  /** The reference definition of `I(r)`: every part's contribution, summed in registration order. */
  function AllI(heap: seq<Node>, parts: seq<Component>, base: nat, dt: real, time: real, r: int): real
    requires WellFormed(heap, parts)
    decreases |parts|
  {
    if |parts| == 0 then 0.0
    else
      var m := |parts| - 1;
      AllI(heap, parts[..m], base, dt, time, r) + ContribI(heap, parts[m], dt, base + SourceCount(parts[..m]), time, r)
  }

  /** What the parts a passive pass selects add, together, to `G(r, c)`. */
  function PassG(heap: seq<Node>, parts: seq<Component>, pass: Pass, dt: real, r: int, c: int): real
    requires WellFormed(heap, parts)
    decreases |parts|
  {
    if |parts| == 0 then 0.0
    else
      var m := |parts| - 1;
      PassG(heap, parts[..m], pass, dt, r, c)
        + (if InPass(parts[m].elem, pass) then ContribG(heap, parts[m], dt, -1, r, c) else 0.0)
  }

  /** What the parts a passive pass selects add, together, to `I(r)`. */
  function PassI(heap: seq<Node>, parts: seq<Component>, pass: Pass, dt: real, time: real, r: int): real
    requires WellFormed(heap, parts)
    decreases |parts|
  {
    if |parts| == 0 then 0.0
    else
      var m := |parts| - 1;
      PassI(heap, parts[..m], pass, dt, time, r)
        + (if InPass(parts[m].elem, pass) then ContribI(heap, parts[m], dt, -1, time, r) else 0.0)
  }

  /** What the voltage sources add, together, to `G(r, c)`, the k-th with reserved index `base + k`. */
  function SourcesG(heap: seq<Node>, parts: seq<Component>, base: nat, dt: real, r: int, c: int): real
    requires WellFormed(heap, parts)
    decreases |parts|
  {
    if |parts| == 0 then 0.0
    else
      var m := |parts| - 1;
      SourcesG(heap, parts[..m], base, dt, r, c)
        + (if parts[m].elem.VSource? then ContribG(heap, parts[m], dt, base + SourceCount(parts[..m]), r, c) else 0.0)
  }

  /** What the voltage sources add, together, to `I(r)`. */
  function SourcesI(heap: seq<Node>, parts: seq<Component>, base: nat, dt: real, time: real, r: int): real
    requires WellFormed(heap, parts)
    decreases |parts|
  {
    if |parts| == 0 then 0.0
    else
      var m := |parts| - 1;
      SourcesI(heap, parts[..m], base, dt, time, r)
        + (if parts[m].elem.VSource? then ContribI(heap, parts[m], dt, base + SourceCount(parts[..m]), time, r) else 0.0)
  }

  /**
   * Splitting the parts into the three passive passes and the source pass
   * loses and repeats nothing: every part lands in exactly one of them, so
   * the four sums add up to the sum over all parts.
   */
  lemma {:induction false} PassesPartition(heap: seq<Node>, parts: seq<Component>, base: nat, dt: real, time: real, r: int, c: int)
    requires WellFormed(heap, parts)
    ensures AllG(heap, parts, base, dt, r, c)
         == PassG(heap, parts, ResistorPass, dt, r, c) + PassG(heap, parts, CapacitorPass, dt, r, c)
          + PassG(heap, parts, InductorPass, dt, r, c) + SourcesG(heap, parts, base, dt, r, c)
    ensures AllI(heap, parts, base, dt, time, r)
         == PassI(heap, parts, ResistorPass, dt, time, r) + PassI(heap, parts, CapacitorPass, dt, time, r)
          + PassI(heap, parts, InductorPass, dt, time, r) + SourcesI(heap, parts, base, dt, time, r)
    decreases |parts|
  {
    if |parts| > 0 {
      PassesPartition(heap, parts[..|parts| - 1], base, dt, time, r, c);
    }
  }

  /** `s'` is `s` plus, entry by entry, the sums of the parts a passive pass selects. */
  predicate PassAdds(heap: seq<Node>, s: System, s': System, parts: seq<Component>, pass: Pass, dt: real, time: real)
    requires WellShaped(s) && WellShaped(s') && Dim(s') == Dim(s) && WellFormed(heap, parts)
  {
    && (forall r, c :: 0 <= r < Dim(s) && 0 <= c < Dim(s) ==> s'.G[r][c] == s.G[r][c] + PassG(heap, parts, pass, dt, r, c))
    && (forall r :: 0 <= r < Dim(s) ==> s'.I[r] == s.I[r] + PassI(heap, parts, pass, dt, time, r))
  }

  /** A passive pass adds to every entry exactly the sum of the contributions of the parts it selects. */
  lemma {:induction false} StampPassiveSum(heap: seq<Node>, s: System, parts: seq<Component>, pass: Pass, dt: real, time: real)
    requires WellShaped(s) && Fits(heap, parts, Dim(s)) && Physical(parts)
    ensures WellFormed(heap, parts)
    ensures PassAdds(heap, s, StampPassive(heap, s, parts, pass, dt, time), parts, pass, dt, time)
    decreases |parts|
  {
    if |parts| > 0 {
      var m := |parts| - 1;
      FitsWithin(heap, parts, Dim(s), Dim(s), m);
      PhysicalPrefix(parts, m);
      StampPassiveSum(heap, s, parts[..m], pass, dt, time);
      PassSumStep(heap, s, parts, pass, dt, time);
    }
  }

  /** The induction's step: the last part's stamp adds its contribution to the shorter pass's sums. */
  lemma PassSumStep(heap: seq<Node>, s: System, parts: seq<Component>, pass: Pass, dt: real, time: real)
    requires WellShaped(s) && Fits(heap, parts, Dim(s)) && Physical(parts) && |parts| > 0
    requires Fits(heap, parts[..|parts| - 1], Dim(s)) && Physical(parts[..|parts| - 1])
    requires WellFormed(heap, parts[..|parts| - 1])
    requires PassAdds(heap, s, StampPassive(heap, s, parts[..|parts| - 1], pass, dt, time), parts[..|parts| - 1], pass, dt, time)
    ensures WellFormed(heap, parts)
    ensures PassAdds(heap, s, StampPassive(heap, s, parts, pass, dt, time), parts, pass, dt, time)
  {
    if InPass(parts[|parts| - 1].elem, pass) {
      PassSumStepIn(heap, s, parts, pass, dt, time);
    } else {
      PassSumStepOut(heap, s, parts, pass, dt, time);
    }
  }

  /** A last part the pass selects adds its contribution to every entry. */
  lemma PassSumStepIn(heap: seq<Node>, s: System, parts: seq<Component>, pass: Pass, dt: real, time: real)
    requires WellShaped(s) && Fits(heap, parts, Dim(s)) && Physical(parts) && |parts| > 0
    requires Fits(heap, parts[..|parts| - 1], Dim(s)) && Physical(parts[..|parts| - 1])
    requires WellFormed(heap, parts[..|parts| - 1])
    requires PassAdds(heap, s, StampPassive(heap, s, parts[..|parts| - 1], pass, dt, time), parts[..|parts| - 1], pass, dt, time)
    requires InPass(parts[|parts| - 1].elem, pass)
    ensures WellFormed(heap, parts)
    ensures PassAdds(heap, s, StampPassive(heap, s, parts, pass, dt, time), parts, pass, dt, time)
  {
    var m := |parts| - 1;
    var prev := StampPassive(heap, s, parts[..m], pass, dt, time);
    StampPassiveLastIn(heap, s, parts, pass, dt, time);
    var cur := Stamp(heap, parts[m], prev, dt, -1, time);
    assert Stamped(heap, parts[m], prev, cur, dt, -1, time);
    forall r, col | 0 <= r < Dim(s) && 0 <= col < Dim(s)
      ensures cur.G[r][col] == s.G[r][col] + PassG(heap, parts, pass, dt, r, col)
    {
      assert cur.G[r][col] == prev.G[r][col] + ContribG(heap, parts[m], dt, -1, r, col);
    }
    forall r | 0 <= r < Dim(s)
      ensures cur.I[r] == s.I[r] + PassI(heap, parts, pass, dt, time, r)
    {
      assert cur.I[r] == prev.I[r] + ContribI(heap, parts[m], dt, -1, time, r);
    }
  }

  /** A last part the pass skips leaves every entry and every sum as they were. */
  lemma PassSumStepOut(heap: seq<Node>, s: System, parts: seq<Component>, pass: Pass, dt: real, time: real)
    requires WellShaped(s) && Fits(heap, parts, Dim(s)) && Physical(parts) && |parts| > 0
    requires Fits(heap, parts[..|parts| - 1], Dim(s)) && Physical(parts[..|parts| - 1])
    requires WellFormed(heap, parts[..|parts| - 1])
    requires PassAdds(heap, s, StampPassive(heap, s, parts[..|parts| - 1], pass, dt, time), parts[..|parts| - 1], pass, dt, time)
    requires !InPass(parts[|parts| - 1].elem, pass)
    ensures WellFormed(heap, parts)
    ensures PassAdds(heap, s, StampPassive(heap, s, parts, pass, dt, time), parts, pass, dt, time)
  {
    StampPassiveLastOut(heap, s, parts, pass, dt, time);
  }

  /** `s'` is `s` plus, entry by entry, the sums of the voltage sources' contributions. */
  predicate SourcesAdd(heap: seq<Node>, s: System, s': System, parts: seq<Component>, base: nat, dt: real, time: real)
    requires WellShaped(s) && WellShaped(s') && Dim(s') == Dim(s) && WellFormed(heap, parts)
  {
    && (forall r, c :: 0 <= r < Dim(s) && 0 <= c < Dim(s) ==> s'.G[r][c] == s.G[r][c] + SourcesG(heap, parts, base, dt, r, c))
    && (forall r :: 0 <= r < Dim(s) ==> s'.I[r] == s.I[r] + SourcesI(heap, parts, base, dt, time, r))
  }

  /** The source pass adds to every entry exactly the sum of the sources' contributions. */
  lemma {:induction false} StampSourcesSum(heap: seq<Node>, s: System, parts: seq<Component>, base: nat, dt: real, time: real)
    requires WellShaped(s) && Fits(heap, parts, base) && base + SourceCount(parts) <= Dim(s) && Physical(parts)
    ensures WellFormed(heap, parts)
    ensures SourcesAdd(heap, s, StampSources(heap, s, parts, base, dt, time), parts, base, dt, time)
    decreases |parts|
  {
    if |parts| > 0 {
      var m := |parts| - 1;
      FitsWithin(heap, parts, base, Dim(s), m);
      PhysicalPrefix(parts, m);
      SourceCountPrefix(parts, m, |parts|);
      assert parts[..|parts|] == parts;
      StampSourcesSum(heap, s, parts[..m], base, dt, time);
      SourcesSumStep(heap, s, parts, base, dt, time);
    }
  }

  /** The induction's step: a last source adds its contribution at its reserved index. */
  lemma SourcesSumStep(heap: seq<Node>, s: System, parts: seq<Component>, base: nat, dt: real, time: real)
    requires WellShaped(s) && Fits(heap, parts, base) && base + SourceCount(parts) <= Dim(s) && Physical(parts) && |parts| > 0
    requires Fits(heap, parts[..|parts| - 1], base) && Physical(parts[..|parts| - 1])
    requires base + SourceCount(parts[..|parts| - 1]) + (if parts[|parts| - 1].elem.VSource? then 1 else 0) <= base + SourceCount(parts)
    requires WellFormed(heap, parts[..|parts| - 1])
    requires SourcesAdd(heap, s, StampSources(heap, s, parts[..|parts| - 1], base, dt, time), parts[..|parts| - 1], base, dt, time)
    ensures WellFormed(heap, parts)
    ensures SourcesAdd(heap, s, StampSources(heap, s, parts, base, dt, time), parts, base, dt, time)
  {
    if parts[|parts| - 1].elem.VSource? {
      SourcesSumStepSource(heap, s, parts, base, dt, time);
    } else {
      SourcesSumStepPassive(heap, s, parts, base, dt, time);
    }
  }

  /** A last voltage source adds its contribution, with the next reserved index, to every entry. */
  lemma SourcesSumStepSource(heap: seq<Node>, s: System, parts: seq<Component>, base: nat, dt: real, time: real)
    requires WellShaped(s) && Fits(heap, parts, base) && base + SourceCount(parts) <= Dim(s) && Physical(parts) && |parts| > 0
    requires Fits(heap, parts[..|parts| - 1], base) && Physical(parts[..|parts| - 1])
    requires base + SourceCount(parts[..|parts| - 1]) + (if parts[|parts| - 1].elem.VSource? then 1 else 0) <= base + SourceCount(parts)
    requires WellFormed(heap, parts[..|parts| - 1])
    requires SourcesAdd(heap, s, StampSources(heap, s, parts[..|parts| - 1], base, dt, time), parts[..|parts| - 1], base, dt, time)
    requires parts[|parts| - 1].elem.VSource?
    ensures WellFormed(heap, parts)
    ensures SourcesAdd(heap, s, StampSources(heap, s, parts, base, dt, time), parts, base, dt, time)
  {
    var m := |parts| - 1;
    var prev := StampSources(heap, s, parts[..m], base, dt, time);
    var k := base + SourceCount(parts[..m]);
    StampSourcesLastSource(heap, s, parts, base, dt, time);
    assert Stamped(heap, parts[m], prev, SourceStamp(heap, parts[m], prev, dt, k, time), dt, k, time);
  }

  /** A last passive part leaves the source pass's entries and sums as they were. */
  lemma SourcesSumStepPassive(heap: seq<Node>, s: System, parts: seq<Component>, base: nat, dt: real, time: real)
    requires WellShaped(s) && Fits(heap, parts, base) && base + SourceCount(parts) <= Dim(s) && Physical(parts) && |parts| > 0
    requires Fits(heap, parts[..|parts| - 1], base) && Physical(parts[..|parts| - 1])
    requires base + SourceCount(parts[..|parts| - 1]) + (if parts[|parts| - 1].elem.VSource? then 1 else 0) <= base + SourceCount(parts)
    requires WellFormed(heap, parts[..|parts| - 1])
    requires SourcesAdd(heap, s, StampSources(heap, s, parts[..|parts| - 1], base, dt, time), parts[..|parts| - 1], base, dt, time)
    requires !parts[|parts| - 1].elem.VSource?
    ensures WellFormed(heap, parts)
    ensures SourcesAdd(heap, s, StampSources(heap, s, parts, base, dt, time), parts, base, dt, time)
  {
    StampSourcesLastPassive(heap, s, parts, base, dt, time);
  }

  /**
   * The assembled system is the reference sum: every entry of `G` and `I`
   * holds exactly what the registered parts contribute to it, each source
   * at its reserved index, whatever order the passes visit them in.
   */
  lemma AssembledEntries(c: Circuit, dt: real)
    requires Valid(c) && Physical(c.parts)
    ensures WellFormed(c.heap, c.parts)
    ensures var sys := Assemble(c, dt);
      && (forall r, col :: 0 <= r < Size(c) && 0 <= col < Size(c) ==> sys.G[r][col] == AllG(c.heap, c.parts, Base(c), dt, r, col))
      && (forall r :: 0 <= r < Size(c) ==> sys.I[r] == AllI(c.heap, c.parts, Base(c), dt, c.time, r))
  {
    TerminalsBelowBase(c);
    FitsWithin(c.heap, c.parts, Base(c), Size(c), |c.parts|);
    var s3 := PassiveSystem(c, dt);
    StampSourcesSum(c.heap, s3, c.parts, Base(c), dt, c.time);
    var s4 := Assemble(c, dt);
    assert s4 == StampSources(c.heap, s3, c.parts, Base(c), dt, c.time);
    forall r, col | 0 <= r < Size(c) && 0 <= col < Size(c)
      ensures s4.G[r][col] == AllG(c.heap, c.parts, Base(c), dt, r, col)
    {
      PassesPartition(c.heap, c.parts, Base(c), dt, c.time, r, col);
    }
    forall r | 0 <= r < Size(c)
      ensures s4.I[r] == AllI(c.heap, c.parts, Base(c), dt, c.time, r)
    {
      PassesPartition(c.heap, c.parts, Base(c), dt, c.time, r, 0);
    }
  }
}
