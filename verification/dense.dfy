/**
 * Dense real matrices and vectors, the storage of the MNA system, with the
 * two sums the properties of the model need: the inner product of a matrix
 * row with a vector, and a row sum.
 */
module Dense {

  type Matrix = seq<seq<real>>
  type Vector = seq<real>

  /** `G` has `n` rows of `n` entries each. */
  predicate IsSquare(G: Matrix, n: nat) {
    |G| == n && forall r :: 0 <= r < n ==> |G[r]| == n
  }

  function ZeroMatrix(n: nat): (G: Matrix)
    ensures IsSquare(G, n)
    ensures forall r, c :: 0 <= r < n && 0 <= c < n ==> G[r][c] == 0.0
  {
    seq(n, _ => seq(n, _ => 0.0))
  }

  function ZeroVector(n: nat): (v: Vector)
    ensures |v| == n
    ensures forall r :: 0 <= r < n ==> v[r] == 0.0
  {
    seq(n, _ => 0.0)
  }

  function Ones(n: nat): (v: Vector)
    ensures |v| == n
    ensures forall r :: 0 <= r < n ==> v[r] == 1.0
  {
    seq(n, _ => 1.0)
  }

  /** The inner product, accumulated from the first entry to the last. */
  function Dot(a: Vector, b: Vector): real
    requires |a| == |b|
    decreases |a|
  {
    if |a| == 0 then 0.0 else Dot(a[..|a| - 1], b[..|b| - 1]) + a[|a| - 1] * b[|b| - 1]
  }

  /** The sum of the entries of a row. */
  function Sum(a: Vector): real {
    Dot(a, Ones(|a|))
  }

  /**
   * The row holds `x` at column `i`, `-x` at column `j` and zero elsewhere
   * (the two cancel when `i == j`); a negative column stands for "no entry".
   */
  ghost predicate TwoPoint(d: Vector, i: int, j: int, x: real) {
    forall c :: 0 <= c < |d| ==> d[c] == (if c == i then x else 0.0) - (if c == j then x else 0.0)
  }

  lemma {:induction false} DotTwoPointPrefix(d: Vector, v: Vector, i: int, j: int, x: real, m: nat)
    requires |d| == |v| && m <= |d| && TwoPoint(d, i, j, x)
    ensures Dot(d[..m], v[..m])
         == (if 0 <= i < m then x * v[i] else 0.0) - (if 0 <= j < m then x * v[j] else 0.0)
    decreases m
  {
    if m > 0 {
      DotTwoPointPrefix(d, v, i, j, x, m - 1);
      assert d[..m][..m - 1] == d[..m - 1];
      assert v[..m][..m - 1] == v[..m - 1];
    }
  }

  /** Pairing a two-point row with a vector picks out `x * (v[i] - v[j])`. */
  lemma DotTwoPoint(d: Vector, v: Vector, i: int, j: int, x: real)
    requires |d| == |v| && i < |d| && j < |d| && TwoPoint(d, i, j, x)
    ensures Dot(d, v) == (if i >= 0 then x * v[i] else 0.0) - (if j >= 0 then x * v[j] else 0.0)
  {
    DotTwoPointPrefix(d, v, i, j, x, |d|);
    assert d[..|d|] == d;
    assert v[..|v|] == v;
  }

  /**
   * A row with `1` at column `i` and `-1` at column `j` that the vector
   * satisfies with right-hand side `rhs` fixes the difference of the two
   * entries (a negative column reads as 0).
   */
  lemma TwoPointEquation(d: Vector, v: Vector, i: int, j: int, rhs: real)
    requires |d| == |v| && i < |d| && j < |d| && TwoPoint(d, i, j, 1.0)
    requires Dot(d, v) == rhs
    ensures (if i >= 0 then v[i] else 0.0) - (if j >= 0 then v[j] else 0.0) == rhs
  {
    DotTwoPoint(d, v, i, j, 1.0);
  }

  /** The inner product is additive in its first argument. */
  lemma {:induction false} DotAdd(a: Vector, e: Vector, b: Vector, v: Vector)
    requires |a| == |e| == |b| == |v|
    requires forall c :: 0 <= c < |b| ==> b[c] == a[c] + e[c]
    ensures Dot(b, v) == Dot(a, v) + Dot(e, v)
    decreases |b|
  {
    if |b| > 0 {
      var m := |b| - 1;
      DotAdd(a[..m], e[..m], b[..m], v[..m]);
    }
  }
}
