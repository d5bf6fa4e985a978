/** The output-placement step of invert_normal_params: where the inverted
    matrix and vector are computed. Each output is the input itself
    ('in_place'), a fresh copy (None), or a caller's buffer that receives
    the input's values. The numerical inversion that follows works on
    the placed outputs and is not part of this model. */
module NormalParams {
  import opened Wrappers

  /** Where an output goes: the input itself, a new array, or a buffer. */
  datatype Target<T> = InPlace | Fresh | Into(buffer: T)

  /** `np.copyto` into a buffer of another shape raises ValueError. */
  datatype PlacementError = MatrixShapeMismatch | VectorShapeMismatch

  /** The placed outputs; `vector` is null exactly when no b was given. */
  datatype Placed = Placed(matrix: array2<real>, vector: array?<real>)

  /** The values of a matrix, row by row. */
  ghost function Entries(A: array2<real>): (rows: seq<seq<real>>)
    reads A
    ensures |rows| == A.Length0
    ensures forall i :: 0 <= i < A.Length0 ==> |rows[i]| == A.Length1
    ensures forall i, j :: 0 <= i < A.Length0 && 0 <= j < A.Length1 ==> rows[i][j] == A[i, j]
  {
    seq(A.Length0, i requires 0 <= i < A.Length0 reads A =>
      seq(A.Length1, j requires 0 <= j < A.Length1 reads A => A[i, j]))
  }

  predicate SameShape(A: array2<real>, B: array2<real>)
  {
    A.Length0 == B.Length0 && A.Length1 == B.Length1
  }

  /** Two matrices of one shape with equal entries have equal values. */
  lemma {:induction false} EntriesEqual(A: array2<real>, B: array2<real>)
    requires SameShape(A, B)
    requires forall i, j :: 0 <= i < A.Length0 && 0 <= j < A.Length1 ==> A[i, j] == B[i, j]
    ensures Entries(A) == Entries(B)
  {
    var ea, eb := Entries(A), Entries(B);
    forall i | 0 <= i < A.Length0
      ensures ea[i] == eb[i]
    {
    }
  }

  /** `A.copy(order='F')`: a new matrix with A's entries. */
  method CopyMatrix(A: array2<real>) returns (C: array2<real>)
    ensures fresh(C) && SameShape(A, C) && Entries(C) == Entries(A)
  {
    C := new real[A.Length0, A.Length1];
    forall i, j | 0 <= i < A.Length0 && 0 <= j < A.Length1 {
      C[i, j] := A[i, j];
    }
    EntriesEqual(A, C);
  }

  /** `np.copyto(B, A)`: B receives A's entries. B may be A itself. */
  method CopyMatrixInto(B: array2<real>, A: array2<real>)
    requires SameShape(A, B)
    modifies B
    ensures Entries(B) == old(Entries(A)) && Entries(A) == old(Entries(A))
  {
    ghost var before := Entries(A);
    forall i, j | 0 <= i < A.Length0 && 0 <= j < A.Length1 {
      B[i, j] := A[i, j];
    }
    EntriesEqual(A, B);
    assert Entries(B) == before by {
      var eb := Entries(B);
      forall i | 0 <= i < A.Length0
        ensures eb[i] == before[i]
      {
      }
    }
  }

  /** The first half of the prologue: out_A. A buffer of another shape
      is refused before anything is written. */
  method PlaceMatrix(A: array2<real>, outA: Target<array2<real>>) returns (r: Result<array2<real>, PlacementError>)
    modifies if outA.Into? then {outA.buffer} else {}
    ensures r.Failure? <==> outA.Into? && !SameShape(A, outA.buffer)
    ensures r.Failure? ==> r.error == MatrixShapeMismatch && unchanged(outA.buffer)
    ensures r.Success? ==> Entries(r.value) == old(Entries(A)) && Entries(A) == old(Entries(A))
    ensures r.Success? && outA.InPlace? ==> r.value == A
    ensures r.Success? && outA.Fresh? ==> fresh(r.value)
    ensures r.Success? && outA.Into? ==> r.value == outA.buffer
  {
    match outA
    case InPlace =>
      r := Success(A);
    case Fresh =>
      var C := CopyMatrix(A);
      r := Success(C);
    case Into(B) =>
      if !SameShape(A, B) {
        return Failure(MatrixShapeMismatch);
      }
      CopyMatrixInto(B, A);
      r := Success(B);
  }

  /** The second half of the prologue: out_b. Without b there is no
      vector output, and a buffer given for it is left alone. */
  method PlaceVector(b: array?<real>, outB: Target<array<real>>) returns (r: Result<array?<real>, PlacementError>)
    modifies if b != null && outB.Into? then {outB.buffer} else {}
    ensures r.Failure? <==> b != null && outB.Into? && outB.buffer.Length != b.Length
    ensures r.Failure? ==> r.error == VectorShapeMismatch && unchanged(outB.buffer)
    ensures r.Success? ==> (r.value == null <==> b == null)
    ensures r.Success? && b != null ==> r.value[..] == old(b[..]) && b[..] == old(b[..])
    ensures r.Success? && b != null && outB.InPlace? ==> r.value == b
    ensures r.Success? && b != null && outB.Fresh? ==> fresh(r.value)
    ensures r.Success? && b != null && outB.Into? ==> r.value == outB.buffer
  {
    if b == null {
      return Success(null);
    }
    match outB
    case InPlace =>
      r := Success(b);
    case Fresh =>
      var c := new real[b.Length](i requires 0 <= i < b.Length reads b => b[i]);
      r := Success(c);
    case Into(buf) =>
      if buf.Length != b.Length {
        return Failure(VectorShapeMismatch);
      }
      forall i | 0 <= i < b.Length {
        buf[i] := b[i];
      }
      r := Success(buf);
  }

  /** The prologue of invert_normal_params: out_A is placed, then out_b.
      Whatever the targets, the placed outputs hold the input values and
      the inputs keep them; out_b is null exactly when b is. A vector
      buffer of the wrong size is refused after out_A has been placed. */
  method PlaceOutputs(A: array2<real>, b: array?<real>, outA: Target<array2<real>>, outB: Target<array<real>>)
    returns (r: Result<Placed, PlacementError>)
    modifies if outA.Into? then {outA.buffer} else {}
    modifies if b != null && outB.Into? then {outB.buffer} else {}
    ensures r.Failure? <==>
      (outA.Into? && !SameShape(A, outA.buffer))
      || (b != null && outB.Into? && outB.buffer.Length != b.Length)
    ensures r.Failure? ==>
      r.error == (if outA.Into? && !SameShape(A, outA.buffer) then MatrixShapeMismatch else VectorShapeMismatch)
    ensures r.Failure? && r.error == MatrixShapeMismatch ==>
      outA.Into? && unchanged(outA.buffer) && (outB.Into? ==> unchanged(outB.buffer)) && Entries(A) == old(Entries(A))
    ensures r.Failure? && r.error == VectorShapeMismatch ==>
      outB.Into? && unchanged(outB.buffer) && Entries(A) == old(Entries(A))
      && (outA.Into? ==> Entries(outA.buffer) == old(Entries(A)))
    ensures r.Success? ==> Entries(r.value.matrix) == old(Entries(A)) && Entries(A) == old(Entries(A))
    ensures r.Success? ==> (r.value.vector == null <==> b == null)
    ensures r.Success? && b != null ==> r.value.vector[..] == old(b[..]) && b[..] == old(b[..])
    ensures r.Success? && outA.InPlace? ==> r.value.matrix == A
    ensures r.Success? && outA.Fresh? ==> fresh(r.value.matrix)
    ensures r.Success? && outA.Into? ==> r.value.matrix == outA.buffer
    ensures r.Success? && b != null && outB.InPlace? ==> r.value.vector == b
    ensures r.Success? && b != null && outB.Fresh? ==> fresh(r.value.vector)
    ensures r.Success? && b != null && outB.Into? ==> r.value.vector == outB.buffer
  {
    var m := PlaceMatrix(A, outA);
    if m.Failure? {
      return Failure(m.error);
    }
    var v := PlaceVector(b, outB);
    if v.Failure? {
      return Failure(v.error);
    }
    r := Success(Placed(m.value, v.value));
  }
}
