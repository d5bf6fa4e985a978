/** Dense real matrices as row sequences, with the few numpy operations
    the priors use: np.diag in both directions, transpose and the
    matrix product. Arithmetic is exact (Dafny `real`). */
module Matrices {

  type Matrix = seq<seq<real>>

  ghost predicate IsSquare(m: Matrix, n: nat)
  {
    |m| == n && forall i :: 0 <= i < n ==> |m[i]| == n
  }

  ghost predicate IsDiagonal(m: Matrix)
    requires IsSquare(m, |m|)
  {
    forall i, j :: 0 <= i < |m| && 0 <= j < |m| && i != j ==> m[i][j] == 0.0
  }

  /** np.diag of a vector: the square matrix with `v` on its diagonal. */
  function Diag(v: seq<real>): (m: Matrix)
    ensures IsSquare(m, |v|) && IsDiagonal(m)
    ensures forall i :: 0 <= i < |v| ==> m[i][i] == v[i]
  {
    seq(|v|, i requires 0 <= i < |v| => seq(|v|, j => if i == j then v[i] else 0.0))
  }

  /** np.diag of a square matrix: its diagonal. */
  function DiagOf(m: Matrix): (d: seq<real>)
    requires IsSquare(m, |m|)
    ensures |d| == |m|
    ensures forall i :: 0 <= i < |m| ==> d[i] == m[i][i]
  {
    seq(|m|, i requires 0 <= i < |m| => m[i][i])
  }

  function Transpose(m: Matrix): (t: Matrix)
    requires IsSquare(m, |m|)
    ensures IsSquare(t, |m|)
    ensures forall i, j :: 0 <= i < |m| && 0 <= j < |m| ==> t[i][j] == m[j][i]
  {
    seq(|m|, i requires 0 <= i < |m| => seq(|m|, j requires 0 <= j < |m| => m[j][i]))
  }

  function Identity(n: nat): (m: Matrix)
    ensures IsSquare(m, n) && IsDiagonal(m)
    ensures forall i :: 0 <= i < n ==> m[i][i] == 1.0
  {
    Diag(seq(n, _ => 1.0))
  }

  function Dot(u: seq<real>, v: seq<real>): real
    requires |u| == |v|
  {
    if u == [] then 0.0 else Dot(u[..|u| - 1], v[..|v| - 1]) + u[|u| - 1] * v[|v| - 1]
  }

  function Column(m: Matrix, j: nat): (c: seq<real>)
    requires IsSquare(m, |m|) && j < |m|
  {
    seq(|m|, k requires 0 <= k < |m| => m[k][j])
  }

  /** The matrix product of two square matrices of the same size. */
  function MatMul(a: Matrix, b: Matrix): (c: Matrix)
    requires IsSquare(a, |a|) && IsSquare(b, |a|)
    ensures IsSquare(c, |a|)
  {
    seq(|a|, i requires 0 <= i < |a| =>
      seq(|a|, j requires 0 <= j < |a| => Dot(a[i], Column(b, j))))
  }

  /** A transposed diagonal matrix is itself. */
  lemma {:induction false} TransposeDiagonal(m: Matrix)
    requires IsSquare(m, |m|) && IsDiagonal(m)
    ensures Transpose(m) == m
  {
    var t := Transpose(m);
    forall i | 0 <= i < |m|
      ensures t[i] == m[i]
    {
      forall j | 0 <= j < |m|
        ensures t[i][j] == m[i][j]
      {
        if i != j {
          assert t[i][j] == m[j][i] == 0.0;
        }
      }
    }
  }

  /** The two meanings of np.diag are inverse to each other. */
  lemma {:induction false} DiagRoundTrip(v: seq<real>)
    ensures DiagOf(Diag(v)) == v
  {
  }

  /** A dot product against a vector that is zero off index k. */
  lemma {:induction false} DotSingle(u: seq<real>, v: seq<real>, k: nat)
    requires |u| == |v| && k < |u|
    requires forall i :: 0 <= i < |u| && i != k ==> u[i] == 0.0
    ensures Dot(u, v) == u[k] * v[k]
  {
    var last := |u| - 1;
    if k < last {
      DotSingle(u[..last], v[..last], k);
    } else {
      DotZero(u[..last], v[..last]);
    }
  }

  lemma {:induction false} DotZero(u: seq<real>, v: seq<real>)
    requires |u| == |v|
    requires forall i :: 0 <= i < |u| ==> u[i] == 0.0
    ensures Dot(u, v) == 0.0
  {
    if u != [] {
      DotZero(u[..|u| - 1], v[..|v| - 1]);
    }
  }

  /** Diagonal matrices whose diagonals multiply to one are inverse:
      Diag(w) * Diag(v) is the identity. */
  lemma {:induction false} DiagInverse(w: seq<real>, v: seq<real>)
    requires |w| == |v|
    requires forall i :: 0 <= i < |v| ==> w[i] * v[i] == 1.0
    ensures MatMul(Diag(w), Diag(v)) == Identity(|v|)
  {
    var n := |v|;
    var a, b := Diag(w), Diag(v);
    var c, id := MatMul(a, b), Identity(n);
    forall i | 0 <= i < n
      ensures c[i] == id[i]
    {
      forall j | 0 <= j < n
        ensures c[i][j] == id[i][j]
      {
        DotSingle(a[i], Column(b, j), i);
        if i == j {
          assert c[i][j] == w[i] * v[i];
        } else {
          assert Column(b, j)[i] == 0.0;
          assert c[i][j] == w[i] * 0.0;
        }
      }
    }
  }

  /** Elementwise 1 / v, as `1/np.diag(S0)`. */
  function Reciprocals(v: seq<real>): (r: seq<real>)
    requires forall i :: 0 <= i < |v| ==> v[i] != 0.0
    ensures |r| == |v|
    ensures forall i :: 0 <= i < |v| ==> r[i] * v[i] == 1.0
  {
    seq(|v|, i requires 0 <= i < |v| => 1.0 / v[i])
  }

  /** Elementwise m / v, as `m0/np.diag(S0)`. */
  function Quotients(m: seq<real>, v: seq<real>): (r: seq<real>)
    requires |m| == |v|
    requires forall i :: 0 <= i < |v| ==> v[i] != 0.0
    ensures |r| == |m|
    ensures forall i :: 0 <= i < |m| ==> r[i] * v[i] == m[i]
  {
    seq(|m|, i requires 0 <= i < |m| => m[i] / v[i])
  }

  /** The natural parameters of a diagonal moment matrix S = diag(v).T:
      S is diag(v), and Q = diag(1 / diag(S)).T is diagonal and
      satisfies Q * S = I. */
  lemma {:induction false} DiagonalNatural(v: seq<real>)
    requires forall i :: 0 <= i < |v| ==> v[i] != 0.0
    ensures Transpose(Diag(v)) == Diag(v)
    ensures DiagOf(Transpose(Diag(v))) == v
    ensures Transpose(Diag(Reciprocals(v))) == Diag(Reciprocals(v))
    ensures MatMul(Diag(Reciprocals(v)), Diag(v)) == Identity(|v|)
  {
    TransposeDiagonal(Diag(v));
    DiagRoundTrip(v);
    TransposeDiagonal(Diag(Reciprocals(v)));
    DiagInverse(Reciprocals(v), v);
  }

  /** Natural parameters of a diagonal normal prior, computed as numpy
      does from its moments: S = diag(v).T, Q = diag(1 / diag(S)).T and
      r = m / diag(S). S carries v on its diagonal, Q is diagonal with
      Q[i][i] * S[i][i] == 1 (so Q * S = I) and r[i] * S[i][i] == m[i]. */
  lemma {:induction false} NaturalFromMoments(v: seq<real>, m: seq<real>)
    requires |m| == |v|
    requires forall i :: 0 <= i < |v| ==> v[i] != 0.0
    ensures IsSquare(Transpose(Diag(v)), |v|) && DiagOf(Transpose(Diag(v))) == v
    ensures var S := Transpose(Diag(v));
      var Q := Transpose(Diag(Reciprocals(DiagOf(S))));
      var r := Quotients(m, DiagOf(S));
      && IsDiagonal(S) && IsSquare(Q, |v|) && IsDiagonal(Q) && |r| == |v|
      && (forall i :: 0 <= i < |v| ==> S[i][i] == v[i])
      && (forall i :: 0 <= i < |v| ==> Q[i][i] * S[i][i] == 1.0 && r[i] * S[i][i] == m[i])
      && MatMul(Q, S) == Identity(|v|)
  {
    DiagonalNatural(v);
  }
}
