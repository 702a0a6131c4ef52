/**
 Dense real vectors and square matrices, with the two operations the
 stamping needs: adding to one entry, and the product of a row with a vector.
 */
module LinAlg {

  type Vector = seq<real>
  type Matrix = seq<seq<real>>

  predicate IsSquare(y: Matrix, n: nat) {
    |y| == n && forall i :: 0 <= i < n ==> |y[i]| == n
  }

  predicate Symmetric(y: Matrix)
    requires IsSquare(y, |y|)
  {
    forall i, j :: 0 <= i < |y| && 0 <= j < |y| ==> y[i][j] == y[j][i]
  }

  function Zeros(n: nat): (v: Vector)
    ensures |v| == n
    ensures forall i :: 0 <= i < n ==> v[i] == 0.0
  {
    seq(n, _ => 0.0)
  }

  function ZeroMatrix(n: nat): (y: Matrix)
    ensures IsSquare(y, n)
    ensures forall i, j :: 0 <= i < n && 0 <= j < n ==> y[i][j] == 0.0
  {
    seq(n, _ => Zeros(n))
  }

  /** `y` with `d` added to entry (i, j) and every other entry kept. */
  function AddAt(y: Matrix, i: nat, j: nat, d: real): (r: Matrix)
    requires IsSquare(y, |y|) && i < |y| && j < |y|
    ensures IsSquare(r, |y|)
  {
    y[i := y[i][j := y[i][j] + d]]
  }

  /** Entry (p, q) of AddAt(y, i, j, d), one entry at a time. */
  lemma AddAtEntry(y: Matrix, i: nat, j: nat, d: real, p: nat, q: nat)
    requires IsSquare(y, |y|) && i < |y| && j < |y| && p < |y| && q < |y|
    ensures AddAt(y, i, j, d)[p][q] == y[p][q] + (if p == i && q == j then d else 0.0)
  {
  }

  /** The sum of u[k] * v[k] over the first m positions, accumulated from the first on. */
  function DotTo(u: Vector, v: Vector, m: nat): real
    requires m <= |u| == |v|
    decreases m
  {
    if m == 0 then 0.0 else DotTo(u, v, m - 1) + u[m - 1] * v[m - 1]
  }

  /** The dot product of two vectors of equal length. */
  function Dot(u: Vector, v: Vector): real
    requires |u| == |v|
  {
    DotTo(u, v, |u|)
  }

  /** `v` solves y·v = rhs. */
  predicate Solves(y: Matrix, v: Vector, rhs: Vector)
    requires IsSquare(y, |v|)
  {
    |rhs| == |y| && forall i :: 0 <= i < |y| ==> Dot(y[i], v) == rhs[i]
  }

  /** Adding d to one coordinate of u below m adds d times the matching coordinate of v. */
  lemma {:induction false} DotToAddAt(u: Vector, v: Vector, j: nat, d: real, m: nat)
    requires m <= |u| == |v| && j < |u|
    ensures DotTo(u[j := u[j] + d], v, m) == DotTo(u, v, m) + (if j < m then d * v[j] else 0.0)
    decreases m
  {
    if m > 0 {
      DotToAddAt(u, v, j, d, m - 1);
      if j == m - 1 {
        assert (u[j] + d) * v[j] == u[j] * v[j] + d * v[j];
      }
    }
  }

  /** Adding d to one coordinate of u adds d times the matching coordinate of v to the dot product. */
  lemma DotAddAt(u: Vector, v: Vector, j: nat, d: real)
    requires |u| == |v| && j < |u|
    ensures Dot(u[j := u[j] + d], v) == Dot(u, v) + d * v[j]
  {
    DotToAddAt(u, v, j, d, |u|);
  }

  /** The zero vector has dot product zero with every vector. */
  lemma {:induction false} DotToZero(u: Vector, v: Vector, m: nat)
    requires m <= |u| == |v| && forall i :: 0 <= i < |u| ==> u[i] == 0.0
    ensures DotTo(u, v, m) == 0.0
    decreases m
  {
    if m > 0 {
      DotToZero(u, v, m - 1);
    }
  }

  /** A row of `AddAt(y, i, j, d)` times v changes only in row i, and there by d * v[j]. */
  lemma AddAtRow(y: Matrix, i: nat, j: nat, d: real, v: Vector, k: nat)
    requires IsSquare(y, |v|) && i < |v| && j < |v| && k < |v|
    ensures Dot(AddAt(y, i, j, d)[k], v) == Dot(y[k], v) + (if k == i then d * v[j] else 0.0)
  {
    if k == i {
      DotAddAt(y[i], v, j, d);
    }
  }
}
