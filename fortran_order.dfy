/** Multi-indices of an array shape in Fortran order (first index
    fastest), as `np.nditer(..., order='F')` visits an array created
    with `order='F'`. An array of a shape is kept as a flat sequence of
    Product(shape) elements; element idx sits at position Flatten(idx). */
module FortranOrder {

  /** Number of elements of an array of the given shape; 1 for a scalar. */
  function Product(shape: seq<nat>): nat
  {
    if shape == [] then 1 else shape[0] * Product(shape[1..])
  }

  ghost predicate InBounds(idx: seq<nat>, shape: seq<nat>)
  {
    |idx| == |shape| && forall k :: 0 <= k < |idx| ==> idx[k] < shape[k]
  }

  lemma {:induction false} DivBound(f: nat, n: nat, p: nat)
    requires f < n * p
    ensures 0 < n && f / n < p
  {
    if f / n >= p {
      MulMonotone(n, p, f / n);
      assert false;
    }
  }

  lemma {:induction false} MulMonotone(n: nat, a: int, b: int)
    requires a <= b
    ensures n * a <= n * b
  {
  }

  lemma {:induction false} FlattenStep(i: nat, n: nat, g: nat, p: nat)
    requires i < n && g < p
    ensures i + n * g < n * p
  {
    MulMonotone(n, g, p - 1);
    assert n * (p - 1) == n * p - n;
  }

  /** Position of multi-index idx in Fortran order. */
  function Flatten(idx: seq<nat>, shape: seq<nat>): (f: nat)
    requires InBounds(idx, shape)
    ensures f < Product(shape)
  {
    if idx == [] then 0
    else
      var g := Flatten(idx[1..], shape[1..]);
      FlattenStep(idx[0], shape[0], g, Product(shape[1..]));
      idx[0] + shape[0] * g
  }

  /** Multi-index at position f in Fortran order. */
  function Unflatten(f: nat, shape: seq<nat>): (idx: seq<nat>)
    requires f < Product(shape)
    ensures InBounds(idx, shape)
    decreases shape
  {
    if shape == [] then []
    else
      var n, rest := shape[0], shape[1..];
      DivBound(f, n, Product(rest));
      [f % n] + Unflatten(f / n, rest)
  }

  lemma {:induction false} FlattenUnflatten(f: nat, shape: seq<nat>)
    requires f < Product(shape)
    ensures Flatten(Unflatten(f, shape), shape) == f
    decreases shape
  {
    if shape != [] {
      DivBound(f, shape[0], Product(shape[1..]));
      FlattenUnflatten(f / shape[0], shape[1..]);
      assert Unflatten(f, shape)[1..] == Unflatten(f / shape[0], shape[1..]);
    }
  }

  lemma {:induction false} UnflattenFlatten(idx: seq<nat>, shape: seq<nat>)
    requires InBounds(idx, shape)
    ensures Unflatten(Flatten(idx, shape), shape) == idx
  {
    if idx != [] {
      var n, g := shape[0], Flatten(idx[1..], shape[1..]);
      UnflattenFlatten(idx[1..], shape[1..]);
      var f := idx[0] + n * g;
      assert f % n == idx[0] && f / n == g by {
        DivModUnique(f, n, g, idx[0]);
      }
      assert idx == [idx[0]] + idx[1..];
    }
  }

  lemma {:induction false} DivModUnique(f: nat, n: nat, q: nat, r: nat)
    requires r < n && f == r + n * q
    ensures f % n == r && f / n == q
  {
    var q0, r0 := f / n, f % n;
    var k: int := q - q0;
    assert n * k == r0 - r by {
      Distribute(n, q, q0);
    }
    if k >= 1 {
      MulMonotone(n, 1, k);
    } else if k <= -1 {
      MulMonotone(n, 1, -k);
      Negate(n, k);
    }
  }

  lemma {:induction false} Distribute(n: int, a: int, b: int)
    ensures n * (a - b) == n * a - n * b
  {
  }

  lemma {:induction false} Negate(n: int, k: int)
    ensures n * -k == -(n * k)
  {
  }

  /** The multi-index after idx: the first index steps, carrying into
      the next one when it reaches its bound. The last multi-index of
      the shape wraps to the first. */
  function Next(idx: seq<nat>, shape: seq<nat>): (next: seq<nat>)
    requires InBounds(idx, shape)
    ensures |next| == |idx|
  {
    if idx == [] then []
    else if idx[0] + 1 < shape[0] then [idx[0] + 1] + idx[1..]
    else [0] + Next(idx[1..], shape[1..])
  }

  /** Stepping visits the positions in order: Fortran order. */
  lemma {:induction false} NextUnflatten(f: nat, shape: seq<nat>)
    requires f + 1 < Product(shape)
    ensures Next(Unflatten(f, shape), shape) == Unflatten(f + 1, shape)
    decreases shape
  {
    var n, rest := shape[0], shape[1..];
    DivBound(f, n, Product(rest));
    if f % n + 1 < n {
      StepWithoutCarry(f, shape);
    } else {
      var q := StepWithCarry(f, shape);
      NextUnflatten(q, rest);
    }
  }

  lemma {:induction false} StepWithoutCarry(f: nat, shape: seq<nat>)
    requires f + 1 < Product(shape) && shape != [] && 0 < shape[0]
    requires f % shape[0] + 1 < shape[0]
    ensures Next(Unflatten(f, shape), shape) == Unflatten(f + 1, shape)
  {
    var n, rest := shape[0], shape[1..];
    DivBound(f, n, Product(rest));
    var q, r := f / n, f % n;
    DivModUnique(f + 1, n, q, r + 1);
    var u := Unflatten(f, shape);
    assert u[1..] == Unflatten(q, rest);
  }

  /** When the first index is at its bound, the step carries: the
      first index returns to 0 and the rest steps from position q. */
  lemma {:induction false} StepWithCarry(f: nat, shape: seq<nat>) returns (q: nat)
    requires f + 1 < Product(shape) && shape != [] && 0 < shape[0]
    requires f % shape[0] + 1 == shape[0]
    ensures q + 1 < Product(shape[1..])
    ensures Unflatten(f, shape) == [f % shape[0]] + Unflatten(q, shape[1..])
    ensures Unflatten(f + 1, shape) == [0] + Unflatten(q + 1, shape[1..])
  {
    var n, rest := shape[0], shape[1..];
    DivBound(f + 1, n, Product(rest));
    q := f / n;
    DivModUnique(f + 1, n, q + 1, 0);
  }

  /** The multi-index of all zeros, where iteration starts. */
  function Zeros(k: nat): (z: seq<nat>)
    ensures |z| == k && forall i :: 0 <= i < k ==> z[i] == 0
  {
    seq(k, _ => 0)
  }

  lemma {:induction false} UnflattenZero(shape: seq<nat>)
    requires 0 < Product(shape)
    ensures Unflatten(0, shape) == Zeros(|shape|)
  {
    if shape != [] {
      DivBound(0, shape[0], Product(shape[1..]));
      UnflattenZero(shape[1..]);
    }
  }

  /** Every multi-index of the shape is visited, at exactly one position. */
  lemma {:induction false} VisitedOnce(idx: seq<nat>, shape: seq<nat>)
    requires InBounds(idx, shape)
    ensures Flatten(idx, shape) < Product(shape) && Unflatten(Flatten(idx, shape), shape) == idx
    ensures forall f :: 0 <= f < Product(shape) && Unflatten(f, shape) == idx ==> f == Flatten(idx, shape)
  {
    UnflattenFlatten(idx, shape);
    forall f | 0 <= f < Product(shape) && Unflatten(f, shape) == idx
      ensures f == Flatten(idx, shape)
    {
      FlattenUnflatten(f, shape);
    }
  }
}
