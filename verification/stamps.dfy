/**
 * The per-element stamps of Modified Nodal Analysis. Every stamp adds to the
 * conductance matrix `G` and excitation vector `I` an amount that depends on
 * the element and its terminal indices only, never on what is already
 * there; the contracts state each stamp's effect as such an additive
 * contribution, and the lemmas derive the pattern's properties from it.
 * A terminal index is a row/column, or negative for "ground: no entry".
 */
module Stamps {
  import opened Dense

  /** The system under assembly: conductance matrix `G` and excitation vector `I`. */
  datatype System = System(G: Matrix, I: Vector)

  /** The number of unknowns. */
  function Dim(s: System): nat {
    |s.I|
  }

  /** `G` is square with one row per entry of `I`. */
  predicate WellShaped(s: System) {
    IsSquare(s.G, |s.I|)
  }

  /** The zero-filled system assembly starts from. */
  function Zero(n: nat): (s: System)
    ensures WellShaped(s) && Dim(s) == n
    ensures forall r, c :: 0 <= r < n && 0 <= c < n ==> s.G[r][c] == 0.0
    ensures forall r :: 0 <= r < n ==> s.I[r] == 0.0
  {
    System(ZeroMatrix(n), ZeroVector(n))
  }

  function Pick(b: bool, x: real): real {
    if b then x else 0.0
  }

  /** `G(r, c) += x`. */
  function AddG(s: System, r: nat, c: nat, x: real): (s': System)
    requires WellShaped(s) && r < Dim(s) && c < Dim(s)
    ensures WellShaped(s') && s'.I == s.I
    ensures forall a, b :: 0 <= a < Dim(s) && 0 <= b < Dim(s) ==>
      s'.G[a][b] == s.G[a][b] + Pick(a == r && b == c, x)
  {
    s.(G := s.G[r := s.G[r][c := s.G[r][c] + x]])
  }

  /** `I(r) += x`. */
  function AddI(s: System, r: nat, x: real): (s': System)
    requires WellShaped(s) && r < Dim(s)
    ensures WellShaped(s') && s'.G == s.G && Dim(s') == Dim(s)
    ensures forall a :: 0 <= a < Dim(s) ==> s'.I[a] == s.I[a] + Pick(a == r, x)
  {
    s.(I := s.I[r := s.I[r] + x])
  }

  /** `G(r, c) += x` when `b` holds (a terminal that is not ground); nothing otherwise. */
  function AddGIf(s: System, b: bool, r: int, c: int, x: real): (s': System)
    requires WellShaped(s) && (b ==> 0 <= r < Dim(s) && 0 <= c < Dim(s))
    ensures WellShaped(s') && s'.I == s.I
    ensures forall a, d :: 0 <= a < Dim(s) && 0 <= d < Dim(s) ==>
      s'.G[a][d] == s.G[a][d] + Pick(b && a == r && d == c, x)
  {
    if b then AddG(s, r, c, x) else s
  }

  /** `I(r) += x` when `b` holds; nothing otherwise. */
  function AddIIf(s: System, b: bool, r: int, x: real): (s': System)
    requires WellShaped(s) && (b ==> 0 <= r < Dim(s))
    ensures WellShaped(s') && s'.G == s.G && Dim(s') == Dim(s)
    ensures forall a :: 0 <= a < Dim(s) ==> s'.I[a] == s.I[a] + Pick(b && a == r, x)
  {
    if b then AddI(s, r, x) else s
  }

  /**
   * The conductance pattern of a two-terminal branch of conductance `g`
   * between indices `i` and `j`: `+g` on the diagonal of each non-ground
   * terminal, `-g` on the two off-diagonal entries when both are non-ground.
   */
  function PatternDelta(g: real, i: int, j: int, r: int, c: int): real {
    Pick(i >= 0 && r == i && c == i, g) + Pick(j >= 0 && r == j && c == j, g)
    - Pick(i >= 0 && j >= 0 && r == i && c == j, g) - Pick(i >= 0 && j >= 0 && r == j && c == i, g)
  }

  /** A current `x` injected into terminal `i` and drawn out of terminal `j`. */
  function CurrentDelta(x: real, i: int, j: int, r: int): real {
    Pick(i >= 0 && r == i, x) - Pick(j >= 0 && r == j, x)
  }

  /**
   * The branch-current coupling of a voltage source with reserved index
   * `k`: `+1` at `(i, k)` and `(k, i)`, `-1` at `(j, k)` and `(k, j)`.
   */
  function SourceDelta(i: int, j: int, k: int, r: int, c: int): real {
    Pick(i >= 0 && r == i && c == k, 1.0) - Pick(j >= 0 && r == j && c == k, 1.0)
    + Pick(i >= 0 && r == k && c == i, 1.0) - Pick(j >= 0 && r == k && c == j, 1.0)
  }

  /** Stamps conductance `g` between terminal indices `i` and `j`, leaving `I` alone. */
  function StampConductance(s: System, g: real, i: int, j: int): (s': System)
    requires WellShaped(s) && i < Dim(s) && j < Dim(s)
    ensures WellShaped(s') && s'.I == s.I
    ensures forall r, c :: 0 <= r < Dim(s) && 0 <= c < Dim(s) ==>
      s'.G[r][c] == s.G[r][c] + PatternDelta(g, i, j, r, c)
  {
    var s1 := AddGIf(s, i >= 0, i, i, g);
    var s2 := AddGIf(s1, j >= 0, j, j, g);
    var s3 := AddGIf(s2, i >= 0 && j >= 0, i, j, -g);
    AddGIf(s3, i >= 0 && j >= 0, j, i, -g)
  }

  /** A current `x` into terminal `i` and out of terminal `j`: `I(i) += x`, `I(j) -= x`. */
  function InjectCurrent(s: System, x: real, i: int, j: int): (s': System)
    requires WellShaped(s) && i < Dim(s) && j < Dim(s)
    ensures WellShaped(s') && s'.G == s.G && Dim(s') == Dim(s)
    ensures forall r :: 0 <= r < Dim(s) ==> s'.I[r] == s.I[r] + CurrentDelta(x, i, j, r)
  {
    var s1 := AddIIf(s, i >= 0, i, x);
    AddIIf(s1, j >= 0, j, -x)
  }

  /**
   * A companion model: conductance `g` in the branch pattern, then a
   * current `x` into terminal `i` and out of terminal `j`.
   */
  function Companion(s: System, g: real, x: real, i: int, j: int): (s': System)
    requires WellShaped(s) && i < Dim(s) && j < Dim(s)
    ensures WellShaped(s') && Dim(s') == Dim(s)
    ensures forall r, c :: 0 <= r < Dim(s) && 0 <= c < Dim(s) ==>
      s'.G[r][c] == s.G[r][c] + PatternDelta(g, i, j, r, c)
    ensures forall r :: 0 <= r < Dim(s) ==> s'.I[r] == s.I[r] + CurrentDelta(x, i, j, r)
  {
    InjectCurrent(StampConductance(s, g, i, j), x, i, j)
  }

  /** The resistor stamp: conductance `1/R` in the branch pattern; no excitation. */
  function StampResistor(s: System, resistance: real, i: int, j: int): (s': System)
    requires WellShaped(s) && i < Dim(s) && j < Dim(s) && resistance != 0.0
    ensures WellShaped(s') && s'.I == s.I
    ensures forall r, c :: 0 <= r < Dim(s) && 0 <= c < Dim(s) ==>
      s'.G[r][c] == s.G[r][c] + PatternDelta(1.0 / resistance, i, j, r, c)
  {
    StampConductance(s, 1.0 / resistance, i, j)
  }

  /**
   * The capacitor's backward-Euler companion model for step `dt`: a
   * conductance `C/dt` in parallel with a source `(C/dt) * vprev` driving
   * current into terminal 1; nothing at all when `dt <= 0`.
   */
  function StampCapacitor(s: System, capacitance: real, vprev: real, dt: real, i: int, j: int): (s': System)
    requires WellShaped(s) && i < Dim(s) && j < Dim(s)
    ensures WellShaped(s') && Dim(s') == Dim(s)
    ensures dt <= 0.0 ==> s' == s
    ensures dt > 0.0 ==> forall r, c :: 0 <= r < Dim(s) && 0 <= c < Dim(s) ==>
      s'.G[r][c] == s.G[r][c] + PatternDelta(capacitance / dt, i, j, r, c)
    ensures dt > 0.0 ==> forall r :: 0 <= r < Dim(s) ==>
      s'.I[r] == s.I[r] + CurrentDelta(capacitance / dt * vprev, i, j, r)
  {
    if dt <= 0.0 then s
    else
      var geq := capacitance / dt;
      var ieq := geq * vprev;
      Companion(s, geq, ieq, i, j)
  }

  /**
   * The inductor's companion model as the C++ code computes it: resistance
   * `Req = L/dt`, voltage `Veq = Req * iprev`, stamped as conductance
   * `1/Req` and a current `Veq/Req` drawn out of terminal 1 and injected
   * into terminal 2; nothing at all when `dt <= 0`. The contract states the
   * effect in closed form: conductance `dt/L` and the previous current.
   */
  function StampInductor(s: System, inductance: real, iprev: real, dt: real, i: int, j: int): (s': System)
    requires WellShaped(s) && i < Dim(s) && j < Dim(s)
    requires dt > 0.0 ==> inductance != 0.0
    ensures WellShaped(s') && Dim(s') == Dim(s)
    ensures dt <= 0.0 ==> s' == s
    ensures dt > 0.0 ==> forall r, c :: 0 <= r < Dim(s) && 0 <= c < Dim(s) ==>
      s'.G[r][c] == s.G[r][c] + PatternDelta(dt / inductance, i, j, r, c)
    ensures dt > 0.0 ==> forall r :: 0 <= r < Dim(s) ==>
      s'.I[r] == s.I[r] - CurrentDelta(iprev, i, j, r)
  {
    if dt <= 0.0 then s
    else
      var (g, ieq) := InductorCompanion(inductance, iprev, dt);
      Companion(s, g, -ieq, i, j)
  }

  /**
   * The inductor's companion values as the C++ code computes them:
   * `Req = L/dt`, `Veq = Req * iprev`, conductance `1/Req` and current
   * `Veq/Req`, which are `dt/L` and `iprev`.
   */
  function InductorCompanion(inductance: real, iprev: real, dt: real): (v: (real, real))
    requires inductance != 0.0 && dt > 0.0
    ensures v.0 == dt / inductance && v.1 == iprev
  {
    var req := inductance / dt;
    var veq := req * iprev;
    CompanionAlgebra(inductance, iprev, dt);
    (1.0 / req, veq / req)
  }

  /** `1 / (L/dt) == dt/L` and `((L/dt) * i) / (L/dt) == i`. */
  lemma CompanionAlgebra(inductance: real, iprev: real, dt: real)
    requires inductance != 0.0 && dt > 0.0
    ensures 1.0 / (inductance / dt) == dt / inductance
    ensures (inductance / dt * iprev) / (inductance / dt) == iprev
  {
    var req := inductance / dt;
    assert req * dt == inductance;
    assert req != 0.0;
    assert (dt / inductance) * req == 1.0;
  }

  /**
   * The voltage-source stamp with reserved index `k`: the branch current
   * enters the KCL rows of both terminals, the constraint row `k` reads
   * `V(i) - V(j)`, and `I(k)` receives the source voltage `v`.
   */
  function StampSource(s: System, v: real, i: int, j: int, k: int): (s': System)
    requires WellShaped(s) && i < Dim(s) && j < Dim(s) && 0 <= k < Dim(s)
    ensures WellShaped(s') && Dim(s') == Dim(s)
    ensures forall r, c :: 0 <= r < Dim(s) && 0 <= c < Dim(s) ==>
      s'.G[r][c] == s.G[r][c] + SourceDelta(i, j, k, r, c)
    ensures forall r :: 0 <= r < Dim(s) ==> s'.I[r] == s.I[r] + Pick(r == k, v)
  {
    var s2 := SourceColumn(s, i, j, k);
    var s4 := SourceConstraint(s2, i, j, k);
    AddI(s4, k, v)
  }

  /** The branch current in the KCL rows: `+1` at `(i, k)`, `-1` at `(j, k)`. */
  function SourceColumn(s: System, i: int, j: int, k: int): (s': System)
    requires WellShaped(s) && i < Dim(s) && j < Dim(s) && 0 <= k < Dim(s)
    ensures WellShaped(s') && s'.I == s.I
    ensures forall r, c :: 0 <= r < Dim(s) && 0 <= c < Dim(s) ==>
      s'.G[r][c] == s.G[r][c] + Pick(i >= 0 && r == i && c == k, 1.0) - Pick(j >= 0 && r == j && c == k, 1.0)
  {
    var s1 := AddGIf(s, i >= 0, i, k, 1.0);
    AddGIf(s1, j >= 0, j, k, -1.0)
  }

  /** The constraint row `k` reads `V(i) - V(j)`: `+1` at `(k, i)`, `-1` at `(k, j)`. */
  function SourceConstraint(s: System, i: int, j: int, k: int): (s': System)
    requires WellShaped(s) && i < Dim(s) && j < Dim(s) && 0 <= k < Dim(s)
    ensures WellShaped(s') && s'.I == s.I
    ensures forall r, c :: 0 <= r < Dim(s) && 0 <= c < Dim(s) ==>
      s'.G[r][c] == s.G[r][c] + Pick(i >= 0 && r == k && c == i, 1.0) - Pick(j >= 0 && r == k && c == j, 1.0)
  {
    var s3 := AddGIf(s, i >= 0, k, i, 1.0);
    AddGIf(s3, j >= 0, k, j, -1.0)
  }

  /** Two well-shaped systems of one size with equal entries are equal. */
  lemma SameSystem(a: System, b: System)
    requires WellShaped(a) && WellShaped(b) && Dim(a) == Dim(b)
    requires forall r, c :: 0 <= r < Dim(a) && 0 <= c < Dim(a) ==> a.G[r][c] == b.G[r][c]
    requires forall r :: 0 <= r < Dim(a) ==> a.I[r] == b.I[r]
    ensures a == b
  {
    forall r | 0 <= r < Dim(a)
      ensures a.G[r] == b.G[r]
    {
      assert |a.G[r]| == |b.G[r]|;
    }
    assert a.G == b.G;
    assert a.I == b.I;
  }
}
