/**
 * Properties of the individual stamps: which entries each one changes and
 * by how much, which it leaves alone, symmetry, balance of the KCL rows,
 * and independence of the order in which two stamps are applied.
 */
module StampLaws {
  import opened Dense
  import opened Stamps

  /** Each non-ground terminal of a resistor gains `1/R` on its diagonal. */
  lemma ResistorDiagonal(s: System, resistance: real, i: int, j: int)
    requires WellShaped(s) && i < Dim(s) && j < Dim(s) && resistance != 0.0 && i != j
    ensures i >= 0 ==> StampResistor(s, resistance, i, j).G[i][i] == s.G[i][i] + 1.0 / resistance
    ensures j >= 0 ==> StampResistor(s, resistance, i, j).G[j][j] == s.G[j][j] + 1.0 / resistance
  {
  }

  /**
   * A resistor with both terminals on one node nets zero on that node's
   * diagonal: the two `+1/R` and the two `-1/R` cancel.
   */
  lemma ResistorSelfLoop(s: System, resistance: real, i: int)
    requires WellShaped(s) && i < Dim(s) && resistance != 0.0
    ensures i >= 0 ==> StampResistor(s, resistance, i, i).G[i][i] == s.G[i][i]
  {
  }

  /**
   * The off-diagonal entries `(i, j)` and `(j, i)` lose `1/R` when both
   * terminals are non-ground; with a ground terminal no off-diagonal entry
   * changes.
   */
  lemma ResistorOffDiagonal(s: System, resistance: real, i: int, j: int)
    requires WellShaped(s) && i < Dim(s) && j < Dim(s) && resistance != 0.0 && i != j
    ensures var s' := StampResistor(s, resistance, i, j);
      i >= 0 && j >= 0 ==>
        s'.G[i][j] == s.G[i][j] - 1.0 / resistance && s'.G[j][i] == s.G[j][i] - 1.0 / resistance
    ensures var s' := StampResistor(s, resistance, i, j);
      i < 0 || j < 0 ==>
        forall r, c :: 0 <= r < Dim(s) && 0 <= c < Dim(s) && r != c ==> s'.G[r][c] == s.G[r][c]
  {
  }

  /**
   * The resistor stamp leaves `I` alone and touches only the entries whose
   * row and column are both terminal indices.
   */
  lemma ResistorFrame(s: System, resistance: real, i: int, j: int)
    requires WellShaped(s) && i < Dim(s) && j < Dim(s) && resistance != 0.0
    ensures StampResistor(s, resistance, i, j).I == s.I
    ensures forall r, c :: 0 <= r < Dim(s) && 0 <= c < Dim(s) && ((r != i && r != j) || (c != i && c != j)) ==>
      StampResistor(s, resistance, i, j).G[r][c] == s.G[r][c]
  {
  }

  /** The delta row of the branch pattern at row `r`, as a vector. */
  function PatternRow(g: real, i: int, j: int, r: int, n: nat): (d: Vector)
    ensures |d| == n
  {
    seq(n, c => PatternDelta(g, i, j, r, c))
  }

  /**
   * The branch pattern's contribution is symmetric, and when both terminals
   * are non-ground every row of it sums to zero: current leaving one node
   * enters the other.
   */
  lemma ConductanceSymmetricBalanced(s: System, g: real, i: int, j: int)
    requires WellShaped(s) && i < Dim(s) && j < Dim(s)
    ensures var s' := StampConductance(s, g, i, j);
      forall r, c :: 0 <= r < Dim(s) && 0 <= c < Dim(s) ==> s'.G[r][c] - s.G[r][c] == s'.G[c][r] - s.G[c][r]
    ensures var s' := StampConductance(s, g, i, j);
      i >= 0 && j >= 0 ==> forall r :: 0 <= r < Dim(s) ==> Sum(s'.G[r]) == Sum(s.G[r])
  {
    var s' := StampConductance(s, g, i, j);
    var n := Dim(s);
    if i >= 0 && j >= 0 {
      forall r | 0 <= r < n
        ensures Sum(s'.G[r]) == Sum(s.G[r])
      {
        var d := PatternRow(g, i, j, r, n);
        if r == i {
          assert TwoPoint(d, i, j, g);
          DotTwoPoint(d, Ones(n), i, j, g);
        } else if r == j {
          assert TwoPoint(d, j, i, g);
          DotTwoPoint(d, Ones(n), j, i, g);
        } else {
          assert TwoPoint(d, -1, -1, g);
          DotTwoPoint(d, Ones(n), -1, -1, g);
        }
        DotAdd(s.G[r], d, s'.G[r], Ones(n));
      }
    }
  }

  /** The resistor's contribution is symmetric and, away from ground, balanced row by row. */
  lemma ResistorSymmetricBalanced(s: System, resistance: real, i: int, j: int)
    requires WellShaped(s) && i < Dim(s) && j < Dim(s) && resistance != 0.0
    ensures var s' := StampResistor(s, resistance, i, j);
      forall r, c :: 0 <= r < Dim(s) && 0 <= c < Dim(s) ==> s'.G[r][c] - s.G[r][c] == s'.G[c][r] - s.G[c][r]
    ensures var s' := StampResistor(s, resistance, i, j);
      i >= 0 && j >= 0 ==> forall r :: 0 <= r < Dim(s) ==> Sum(s'.G[r]) == Sum(s.G[r])
  {
    ConductanceSymmetricBalanced(s, 1.0 / resistance, i, j);
  }

  /** Stamping two resistors gives the same system in either order. */
  lemma ResistorStampsCommute(s: System, r1: real, i1: int, j1: int, r2: real, i2: int, j2: int)
    requires WellShaped(s) && r1 != 0.0 && r2 != 0.0
    requires i1 < Dim(s) && j1 < Dim(s) && i2 < Dim(s) && j2 < Dim(s)
    ensures StampResistor(StampResistor(s, r1, i1, j1), r2, i2, j2)
         == StampResistor(StampResistor(s, r2, i2, j2), r1, i1, j1)
  {
    var a := StampResistor(StampResistor(s, r1, i1, j1), r2, i2, j2);
    var b := StampResistor(StampResistor(s, r2, i2, j2), r1, i1, j1);
    SameSystem(a, b);
  }

  /**
   * The capacitor companion model for `dt > 0` and distinct terminals:
   * `C/dt` on each non-ground diagonal, `-C/dt` off the diagonal between
   * two non-ground terminals, `(C/dt) * vprev` into terminal 1's entry of
   * `I` and out of terminal 2's, and no other entry of `I` changes.
   */
  lemma CapacitorEntries(s: System, capacitance: real, vprev: real, dt: real, i: int, j: int)
    requires WellShaped(s) && i < Dim(s) && j < Dim(s) && dt > 0.0 && i != j
    ensures var s' := StampCapacitor(s, capacitance, vprev, dt, i, j);
      && (i >= 0 ==> s'.G[i][i] == s.G[i][i] + capacitance / dt)
      && (j >= 0 ==> s'.G[j][j] == s.G[j][j] + capacitance / dt)
      && (i >= 0 && j >= 0 ==> s'.G[i][j] == s.G[i][j] - capacitance / dt && s'.G[j][i] == s.G[j][i] - capacitance / dt)
      && (i >= 0 ==> s'.I[i] == s.I[i] + capacitance / dt * vprev)
      && (j >= 0 ==> s'.I[j] == s.I[j] - capacitance / dt * vprev)
      && (forall r :: 0 <= r < Dim(s) && r != i && r != j ==> s'.I[r] == s.I[r])
  {
  }

  /** A capacitor whose stored voltage is 0, as after construction, injects no current. */
  lemma FreshCapacitorNoExcitation(s: System, capacitance: real, dt: real, i: int, j: int)
    requires WellShaped(s) && i < Dim(s) && j < Dim(s)
    ensures StampCapacitor(s, capacitance, 0.0, dt, i, j).I == s.I
  {
    var s' := StampCapacitor(s, capacitance, 0.0, dt, i, j);
    assert forall r :: 0 <= r < Dim(s) ==> s'.I[r] == s.I[r];
  }

  /**
   * The inductor companion model for `dt > 0` and distinct terminals:
   * `dt/L` in the branch pattern, and the previous step's current drawn
   * out of terminal 1's entry of `I` and into terminal 2's.
   */
  lemma InductorEntries(s: System, inductance: real, iprev: real, dt: real, i: int, j: int)
    requires WellShaped(s) && i < Dim(s) && j < Dim(s) && dt > 0.0 && inductance != 0.0 && i != j
    ensures var s' := StampInductor(s, inductance, iprev, dt, i, j);
      && (i >= 0 ==> s'.G[i][i] == s.G[i][i] + dt / inductance)
      && (j >= 0 ==> s'.G[j][j] == s.G[j][j] + dt / inductance)
      && (i >= 0 && j >= 0 ==> s'.G[i][j] == s.G[i][j] - dt / inductance && s'.G[j][i] == s.G[j][i] - dt / inductance)
      && (i >= 0 ==> s'.I[i] == s.I[i] - iprev)
      && (j >= 0 ==> s'.I[j] == s.I[j] + iprev)
      && (forall r :: 0 <= r < Dim(s) && r != i && r != j ==> s'.I[r] == s.I[r])
  {
  }

  /** An inductor whose stored current is 0, as after construction, injects no current. */
  lemma FreshInductorNoExcitation(s: System, inductance: real, dt: real, i: int, j: int)
    requires WellShaped(s) && i < Dim(s) && j < Dim(s) && (dt > 0.0 ==> inductance != 0.0)
    ensures StampInductor(s, inductance, 0.0, dt, i, j).I == s.I
  {
    var s' := StampInductor(s, inductance, 0.0, dt, i, j);
    assert forall r :: 0 <= r < Dim(s) ==> s'.I[r] == s.I[r];
  }

  /**
   * The voltage-source stamp with terminals distinct from each other and
   * from the reserved index `k`: `+1` at `(i, k)` and `(k, i)`, `-1` at
   * `(j, k)` and `(k, j)` for the non-ground terminals, and the source
   * voltage added to `I(k)`.
   */
  lemma SourceEntries(s: System, v: real, i: int, j: int, k: int)
    requires WellShaped(s) && i < Dim(s) && j < Dim(s) && 0 <= k < Dim(s)
    requires i != j && i != k && j != k
    ensures var s' := StampSource(s, v, i, j, k);
      && (i >= 0 ==> s'.G[i][k] == s.G[i][k] + 1.0 && s'.G[k][i] == s.G[k][i] + 1.0)
      && (j >= 0 ==> s'.G[j][k] == s.G[j][k] - 1.0 && s'.G[k][j] == s.G[k][j] - 1.0)
      && s'.I[k] == s.I[k] + v
  {
  }

  /**
   * With both terminal indices below the reserved index, as the orchestrator
   * arranges, the source stamp leaves `G(k, k)`, every entry of `I` other
   * than `I(k)`, and every entry outside row `k` and column `k` unchanged;
   * its matrix contribution is symmetric.
   */
  lemma SourceFrame(s: System, v: real, i: int, j: int, k: int)
    requires WellShaped(s) && i < k && j < k && 0 <= k < Dim(s)
    ensures var s' := StampSource(s, v, i, j, k);
      && s'.G[k][k] == s.G[k][k]
      && (forall r :: 0 <= r < Dim(s) && r != k ==> s'.I[r] == s.I[r])
      && (forall r, c :: 0 <= r < Dim(s) && 0 <= c < Dim(s) && r != k && c != k ==> s'.G[r][c] == s.G[r][c])
      && (forall r, c :: 0 <= r < Dim(s) && 0 <= c < Dim(s) ==> s'.G[r][c] - s.G[r][c] == s'.G[c][r] - s.G[c][r])
  {
  }
}
