/**
 * Exact real vectors and matrices, standing in for casadi's `mtimes`,
 * `+`, `-` and scalar products on column vectors.
 */
module LinearAlgebra {

  type Vec = seq<real>
  type Mat = seq<seq<real>>

  /** `m` has `rows` rows of `cols` entries each. */
  predicate IsMatrix(m: Mat, rows: nat, cols: nat) {
    |m| == rows && forall i :: 0 <= i < |m| ==> |m[i]| == cols
  }

  function Dot(a: Vec, b: Vec): real
    requires |a| == |b|
  {
    if |a| == 0 then 0.0 else a[0] * b[0] + Dot(a[1..], b[1..])
  }

  /** `ca.mtimes(m, v)` for a matrix and a column vector. */
  function MatVec(m: Mat, v: Vec): (r: Vec)
    requires forall i :: 0 <= i < |m| ==> |m[i]| == |v|
    ensures |r| == |m|
    ensures forall i :: 0 <= i < |m| ==> r[i] == Dot(m[i], v)
  {
    seq(|m|, i requires 0 <= i < |m| => Dot(m[i], v))
  }

  function Add(a: Vec, b: Vec): (r: Vec)
    requires |a| == |b|
    ensures |r| == |a|
    ensures forall i :: 0 <= i < |a| ==> r[i] == a[i] + b[i]
  {
    seq(|a|, i requires 0 <= i < |a| => a[i] + b[i])
  }

  function Sub(a: Vec, b: Vec): (r: Vec)
    requires |a| == |b|
    ensures |r| == |a|
    ensures forall i :: 0 <= i < |a| ==> r[i] == a[i] - b[i]
  {
    seq(|a|, i requires 0 <= i < |a| => a[i] - b[i])
  }

  function ScaleVec(s: real, a: Vec): (r: Vec)
    ensures |r| == |a|
    ensures forall i :: 0 <= i < |a| ==> r[i] == s * a[i]
  {
    seq(|a|, i requires 0 <= i < |a| => s * a[i])
  }

  function Scale(s: real, m: Mat): (r: Mat)
    ensures |r| == |m|
    ensures forall i :: 0 <= i < |m| ==> r[i] == ScaleVec(s, m[i])
  {
    seq(|m|, i requires 0 <= i < |m| => ScaleVec(s, m[i]))
  }

  /** Row `i` of the `n` by `n` diagonal matrix with `d` on the diagonal. */
  function DiagonalRow(n: nat, i: nat, d: real): (r: Vec)
    ensures |r| == n
  {
    seq(n, j requires 0 <= j < n => if j == i then d else 0.0)
  }

  function Diagonal(n: nat, d: real): (r: Mat)
    ensures IsMatrix(r, n, n)
  {
    seq(n, i requires 0 <= i < n => DiagonalRow(n, i, d))
  }

  function Identity(n: nat): (r: Mat)
    ensures IsMatrix(r, n, n)
  {
    Diagonal(n, 1.0)
  }

  function NegIdentity(n: nat): (r: Mat)
    ensures IsMatrix(r, n, n)
  {
    Diagonal(n, -1.0)
  }

  function Zero(rows: nat, cols: nat): (r: Mat)
    ensures IsMatrix(r, rows, cols)
  {
    seq(rows, i requires 0 <= i < rows => seq(cols, j requires 0 <= j < cols => 0.0))
  }

  function Zeros(n: nat): (r: Vec)
    ensures |r| == n && forall i :: 0 <= i < n ==> r[i] == 0.0
  {
    seq(n, i requires 0 <= i < n => 0.0)
  }

  /** A row that is zero everywhere except at `i` picks out `a[i] * v[i]`. */
  lemma {:induction false} DotSingle(a: Vec, v: Vec, i: nat)
    requires |a| == |v| && i < |a|
    requires forall j :: 0 <= j < |a| && j != i ==> a[j] == 0.0
    ensures Dot(a, v) == a[i] * v[i]
  {
    if i == 0 {
      DotZero(a[1..], v[1..]);
    } else {
      DotSingle(a[1..], v[1..], i - 1);
    }
  }

  lemma {:induction false} DotZero(a: Vec, v: Vec)
    requires |a| == |v|
    requires forall j :: 0 <= j < |a| ==> a[j] == 0.0
    ensures Dot(a, v) == 0.0
  {
    if |a| > 0 {
      DotZero(a[1..], v[1..]);
    }
  }

  /** Scaling a row scales its scalar product. */
  lemma {:induction false} DotScale(s: real, a: Vec, v: Vec)
    requires |a| == |v|
    ensures Dot(ScaleVec(s, a), v) == s * Dot(a, v)
  {
    if |a| > 0 {
      var sa := ScaleVec(s, a);
      assert forall k :: 0 <= k < |a| - 1 ==> sa[1..][k] == ScaleVec(s, a[1..])[k];
      assert sa[1..] == ScaleVec(s, a[1..]);
      DotScale(s, a[1..], v[1..]);
      assert sa[0] * v[0] == s * (a[0] * v[0]);
    }
  }

  lemma MatVecDiagonal(n: nat, d: real, v: Vec)
    requires |v| == n
    ensures MatVec(Diagonal(n, d), v) == ScaleVec(d, v)
  {
    var m := Diagonal(n, d);
    forall i | 0 <= i < n
      ensures MatVec(m, v)[i] == d * v[i]
    {
      DotSingle(m[i], v, i);
    }
  }

  /** `I·v == v`. */
  lemma MatVecIdentity(v: Vec)
    ensures MatVec(Identity(|v|), v) == v
  {
    MatVecDiagonal(|v|, 1.0, v);
  }

  /** `(-I)·v == -1 * v`. */
  lemma MatVecNegIdentity(v: Vec)
    ensures MatVec(NegIdentity(|v|), v) == ScaleVec(-1.0, v)
  {
    MatVecDiagonal(|v|, -1.0, v);
  }

  /** `0·v` is the zero vector, whatever the number of rows. */
  lemma MatVecZero(rows: nat, v: Vec)
    ensures MatVec(Zero(rows, |v|), v) == Zeros(rows)
  {
    forall i | 0 <= i < rows
      ensures MatVec(Zero(rows, |v|), v)[i] == 0.0
    {
      DotZero(Zero(rows, |v|)[i], v);
    }
  }

  /** `(s·A)·v == s·(A·v)`. */
  lemma MatVecScale(s: real, m: Mat, v: Vec)
    requires forall i :: 0 <= i < |m| ==> |m[i]| == |v|
    ensures MatVec(Scale(s, m), v) == ScaleVec(s, MatVec(m, v))
  {
    forall i | 0 <= i < |m|
      ensures MatVec(Scale(s, m), v)[i] == s * MatVec(m, v)[i]
    {
      DotScale(s, m[i], v);
    }
  }

  /** Any multiple of the zero matrix is the zero matrix. */
  lemma ScaleZero(s: real, rows: nat, cols: nat)
    ensures Scale(s, Zero(rows, cols)) == Zero(rows, cols)
  {
    forall i | 0 <= i < rows
      ensures Scale(s, Zero(rows, cols))[i] == Zero(rows, cols)[i]
    {
      assert forall j :: 0 <= j < cols ==> ScaleVec(s, Zero(rows, cols)[i])[j] == 0.0;
    }
  }
}
