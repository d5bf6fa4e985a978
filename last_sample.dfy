/** get_last_sample: copies the last draw of every chain and every model
    parameter out of a PyStan fit into one dict of arrays per chain.
    Each output array is kept flat in Fortran order (FortranOrder), as
    `np.empty(shape, order='F')` lays it out. */
module LastSample {
  import opened Wrappers
  import opened Text
  import opened FortranOrder

  /** The parts of a PyStan fit that are read: `sim['chains']`,
      `model_pars`, `par_dims`, and per chain the map from trace name to
      trace (`sim['samples'][c]['chains']`). */
  datatype Fit = Fit(
    chains: nat,
    modelPars: seq<string>,
    parDims: seq<seq<nat>>,
    traces: seq<map<string, seq<real>>>)

  /** What PyStan guarantees of a fit: one shape per parameter, one trace
      map per chain, and distinct parameter names. */
  ghost predicate ValidFit(fit: Fit)
  {
    && |fit.parDims| == |fit.modelPars|
    && |fit.traces| == fit.chains
    && forall i, k :: 0 <= i < k < |fit.modelPars| ==> fit.modelPars[i] != fit.modelPars[k]
  }

  /** The trace of element d of a vector parameter: `'{}[{}]'.format(p, d)`. */
  function VectorName(p: string, d: nat): string
  {
    p + "[" + Decimal(d) + "]"
  }

  function Decimals(idx: seq<nat>): (ds: seq<string>)
    ensures |ds| == |idx| && forall k :: 0 <= k < |idx| ==> ds[k] == Decimal(idx[k])
  {
    seq(|idx|, k requires 0 <= k < |idx| => Decimal(idx[k]))
  }

  /** The trace of element idx of a parameter with |idx| axes: p, "[", the
      indices separated by ",", then "]". */
  function FieldName(p: string, idx: seq<nat>): string
    requires |idx| >= 1
  {
    p + "[" + Join(Decimals(idx), ',') + "]"
  }

  /** A field name is p and a bracketed part, and splitting the bracketed
      part at the commas gives the indices' decimals back. */
  lemma {:induction false} FieldNameReadsBack(p: string, idx: seq<nat>)
    requires |idx| >= 1
    ensures var name := FieldName(p, idx);
      && |p| + 2 <= |name| && name[..|p| + 1] == p + "[" && name[|name| - 1] == ']'
      && Split(name[|p| + 1..|name| - 1], ',') == Decimals(idx)
  {
    var inner := Join(Decimals(idx), ',');
    Bracketed(p, inner);
    DecimalsCommaFree(idx);
    SplitJoin(Decimals(idx), ',');
  }

  lemma {:induction false} Bracketed(p: string, inner: string)
    ensures var s := p + "[" + inner + "]";
      && |s| == |p| + 2 + |inner| && s[..|p| + 1] == p + "[" && s[|s| - 1] == ']'
      && s[|p| + 1..|s| - 1] == inner
  {
    var s := p + "[" + inner + "]";
    assert s[..|p| + 1] == p + "[";
    assert s[|p| + 1..|s| - 1] == inner;
  }

  /** The trace read for flat position f of parameter p: p itself for a
      scalar, VectorName for a vector, FieldName of the Fortran-order
      multi-index otherwise. */
  function TraceName(p: string, shape: seq<nat>, f: nat): string
    requires f < Product(shape)
  {
    if |shape| == 0 then p
    else if |shape| == 1 then VectorName(p, f)
    else FieldName(p, Unflatten(f, shape))
  }

  /** The vector naming is the one-axis case of the field naming. */
  lemma {:induction false} FieldNameOfOne(p: string, d: nat)
    ensures VectorName(p, d) == FieldName(p, [d])
  {
    assert Decimals([d]) == [Decimal(d)];
  }

  /** Every element of an array parameter, vector or not, is read from
      the field name of its Fortran-order multi-index; a scalar from the
      parameter's own name. */
  lemma {:induction false} TraceNameIsFieldName(p: string, shape: seq<nat>, f: nat)
    requires f < Product(shape)
    ensures |shape| == 0 ==> TraceName(p, shape, f) == p
    ensures |shape| >= 1 ==> TraceName(p, shape, f) == FieldName(p, Unflatten(f, shape))
  {
    if |shape| == 1 {
      assert Unflatten(f, shape) == [f];
      FieldNameOfOne(p, f);
    }
  }

  lemma {:induction false} DecimalsCommaFree(idx: seq<nat>)
    ensures forall k :: 0 <= k < |Decimals(idx)| ==> ',' !in Decimals(idx)[k]
  {
  }

  /** Different multi-indices name different traces. */
  lemma {:induction false} FieldNameInjective(p: string, i1: seq<nat>, i2: seq<nat>)
    requires |i1| >= 1 && |i2| >= 1
    requires FieldName(p, i1) == FieldName(p, i2)
    ensures i1 == i2
  {
    FieldNameReadsBack(p, i1);
    FieldNameReadsBack(p, i2);
    var d1, d2 := Decimals(i1), Decimals(i2);
    assert d1 == d2;
    forall k | 0 <= k < |i1|
      ensures i1[k] == i2[k]
    {
      DecimalInjective(i1[k], i2[k]);
    }
  }

  /** Distinct positions of a parameter with at least one axis read
      distinct traces, so every trace is read for one element only. */
  lemma {:induction false} TraceNamesDistinct(p: string, shape: seq<nat>, f: nat, g: nat)
    requires |shape| >= 1 && f < Product(shape) && g < Product(shape) && f != g
    ensures TraceName(p, shape, f) != TraceName(p, shape, g)
  {
    FlattenUnflatten(f, shape);
    FlattenUnflatten(g, shape);
    TraceNameIsFieldName(p, shape, f);
    TraceNameIsFieldName(p, shape, g);
    if FieldName(p, Unflatten(f, shape)) == FieldName(p, Unflatten(g, shape)) {
      FieldNameInjective(p, Unflatten(f, shape), Unflatten(g, shape));
    }
  }

  /** `trace[name][-1]` succeeds: the trace exists and is not empty. */
  predicate Readable(traces: map<string, seq<real>>, name: string)
  {
    name in traces && |traces[name]| > 0
  }

  function LastOf(traces: map<string, seq<real>>, name: string): real
    requires Readable(traces, name)
  {
    traces[name][|traces[name]| - 1]
  }

  /** A parameter can be extracted from one chain: every trace it reads is
      readable, and it is not a multi-axis parameter with no elements
      (nditer refuses zero-sized arrays). */
  ghost predicate ParamReadable(traces: map<string, seq<real>>, p: string, shape: seq<nat>)
  {
    && (|shape| >= 2 ==> Product(shape) > 0)
    && forall f :: 0 <= f < Product(shape) ==> Readable(traces, TraceName(p, shape, f))
  }

  /** The flat contents extracted for a parameter. */
  ghost function LastValues(traces: map<string, seq<real>>, p: string, shape: seq<nat>): seq<real>
    requires ParamReadable(traces, p, shape)
  {
    seq(Product(shape), f requires 0 <= f < Product(shape) => LastOf(traces, TraceName(p, shape, f)))
  }

  /** The exceptions the extraction raises: KeyError for a missing trace,
      IndexError for an empty one, ValueError from nditer. */
  datatype SampleError =
    | MissingTrace(name: string)
    | EmptyTrace(name: string)
    | ZeroSizedIteration(param: string)

  /** The exception `trace[name][-1]` raises when the trace cannot be
      read: KeyError for a name not in the chain, IndexError otherwise. */
  function TraceError(traces: map<string, seq<real>>, name: string): (e: SampleError)
    ensures e.MissingTrace? <==> name !in traces
    ensures !e.ZeroSizedIteration? && e.name == name
  {
    if name in traces then EmptyTrace(name) else MissingTrace(name)
  }

  /** f is the first flat position of p whose trace cannot be read. */
  ghost predicate FirstUnreadable(traces: map<string, seq<real>>, p: string, shape: seq<nat>, f: nat)
  {
    && f < Product(shape)
    && (forall g :: 0 <= g < f ==> Readable(traces, TraceName(p, shape, g)))
    && !Readable(traces, TraceName(p, shape, f))
  }

  /** e is the exception extracting p from one chain raises: nditer's
      ValueError for a multi-axis parameter with no elements, otherwise
      the lookup error of the first unreadable trace, positions being
      visited in Fortran order. */
  ghost predicate Raised(traces: map<string, seq<real>>, p: string, shape: seq<nat>, e: SampleError)
  {
    if |shape| >= 2 && Product(shape) == 0 then e == ZeroSizedIteration(p)
    else exists f: nat :: FirstUnreadable(traces, p, shape, f) && e == TraceError(traces, TraceName(p, shape, f))
  }

  /** An unreadable position has a first one at or before it. */
  lemma {:induction false} ExistsFirstUnreadable(traces: map<string, seq<real>>, p: string, shape: seq<nat>, f: nat)
    requires f < Product(shape) && !Readable(traces, TraceName(p, shape, f))
    ensures exists f0: nat :: f0 <= f && FirstUnreadable(traces, p, shape, f0)
    decreases f
  {
    if forall g :: 0 <= g < f ==> Readable(traces, TraceName(p, shape, g)) {
      assert FirstUnreadable(traces, p, shape, f);
    } else {
      var g :| 0 <= g < f && !Readable(traces, TraceName(p, shape, g));
      ExistsFirstUnreadable(traces, p, shape, g);
    }
  }

  /** A raised error means the parameter cannot be extracted. */
  lemma {:induction false} RaisedUnreadable(traces: map<string, seq<real>>, p: string, shape: seq<nat>, e: SampleError)
    requires Raised(traces, p, shape, e)
    ensures !ParamReadable(traces, p, shape)
  {
    if !(|shape| >= 2 && Product(shape) == 0) {
      var f: nat :| FirstUnreadable(traces, p, shape, f) && e == TraceError(traces, TraceName(p, shape, f));
    }
  }

  /** Extraction of a parameter fails exactly when some error is raised
      for it. */
  lemma {:induction false} RaisedExactlyWhenUnreadable(traces: map<string, seq<real>>, p: string, shape: seq<nat>)
    ensures !ParamReadable(traces, p, shape) <==> exists e :: Raised(traces, p, shape, e)
  {
    if exists e :: Raised(traces, p, shape, e) {
      var e :| Raised(traces, p, shape, e);
      RaisedUnreadable(traces, p, shape, e);
    }
    if !ParamReadable(traces, p, shape) {
      if |shape| >= 2 && Product(shape) == 0 {
        assert Raised(traces, p, shape, ZeroSizedIteration(p));
      } else {
        var f :| 0 <= f < Product(shape) && !Readable(traces, TraceName(p, shape, f));
        ExistsFirstUnreadable(traces, p, shape, f);
        var f0: nat :| f0 <= f && FirstUnreadable(traces, p, shape, f0);
        assert Raised(traces, p, shape, TraceError(traces, TraceName(p, shape, f0)));
      }
    }
  }

  /** The raised error is determined by the chain's traces. */
  lemma {:induction false} RaisedUnique(traces: map<string, seq<real>>, p: string, shape: seq<nat>, e1: SampleError, e2: SampleError)
    requires Raised(traces, p, shape, e1) && Raised(traces, p, shape, e2)
    ensures e1 == e2
  {
    if !(|shape| >= 2 && Product(shape) == 0) {
      var f1: nat :| FirstUnreadable(traces, p, shape, f1) && e1 == TraceError(traces, TraceName(p, shape, f1));
      var f2: nat :| FirstUnreadable(traces, p, shape, f2) && e2 == TraceError(traces, TraceName(p, shape, f2));
      if f1 < f2 {
        assert Readable(traces, TraceName(p, shape, f1));
      } else if f2 < f1 {
        assert Readable(traces, TraceName(p, shape, f2));
      }
    }
  }

  /** Looks one trace up and takes its last element. */
  method ReadLast(traces: map<string, seq<real>>, name: string) returns (r: Result<real, SampleError>)
    ensures r.Success? <==> Readable(traces, name)
    ensures r.Success? ==> r.value == LastOf(traces, name)
    ensures r.Failure? ==> r.error == TraceError(traces, name)
  {
    if name !in traces {
      return Failure(MissingTrace(name));
    }
    var trace := traces[name];
    if |trace| == 0 {
      return Failure(EmptyTrace(name));
    }
    return Success(trace[|trace| - 1]);
  }

  /** Fills the array of parameter p of one chain: the scalar branch, the
      vector loop, or the nditer loop. On an error the exception
      propagates, the positions before the failing one having been
      written. */
  method FillParameter(a: array<real>, traces: map<string, seq<real>>, p: string, shape: seq<nat>)
    returns (err: Option<SampleError>)
    requires a.Length == Product(shape)
    modifies a
    ensures Extracted(a[..], old(a[..]), traces, p, shape, err)
  {
    if |shape| == 0 {
      err := FillScalar(a, traces, p, shape);
    } else if |shape| == 1 {
      err := FillVector(a, traces, p, shape);
    } else {
      err := FillField(a, traces, p, shape);
    }
  }

  /** `out[c][p][()] = trace[p][-1]`. */
  method FillScalar(a: array<real>, traces: map<string, seq<real>>, p: string, shape: seq<nat>)
    returns (err: Option<SampleError>)
    requires |shape| == 0 && a.Length == Product(shape)
    modifies a
    ensures Extracted(a[..], old(a[..]), traces, p, shape, err)
  {
    ghost var names, before := TraceNames(p, shape), a[..];
    assert names[0] == p;
    var v := ReadLast(traces, p);
    if v.Failure? {
      StoppedExtracted(a[..], before, traces, p, shape, 0, v.error);
      return Some(v.error);
    }
    Store(a, 0, v.value, traces, names, before);
    AllFilled(a[..], traces, p, shape);
    return None;
  }

  /** `for d in xrange(n): out[c][p][d] = trace['p[d]'][-1]`. */
  method FillVector(a: array<real>, traces: map<string, seq<real>>, p: string, shape: seq<nat>)
    returns (err: Option<SampleError>)
    requires |shape| == 1 && a.Length == Product(shape)
    modifies a
    ensures Extracted(a[..], old(a[..]), traces, p, shape, err)
  {
    ghost var names, before := TraceNames(p, shape), a[..];
    assert Product(shape) == shape[0];
    for d := 0 to shape[0]
      invariant FilledUpTo(a[..], traces, names, d) && SameFrom(a[..], before, d)
    {
      var name := VectorName(p, d);
      assert name == names[d];
      var v := ReadLast(traces, name);
      if v.Failure? {
        StoppedExtracted(a[..], before, traces, p, shape, d, v.error);
        return Some(v.error);
      }
      Store(a, d, v.value, traces, names, before);
    }
    AllFilled(a[..], traces, p, shape);
    return None;
  }

  /** The traces read for parameter p, by flat position. */
  ghost function TraceNames(p: string, shape: seq<nat>): (names: seq<string>)
    ensures |names| == Product(shape)
    ensures forall g :: 0 <= g < |names| ==> names[g] == TraceName(p, shape, g)
  {
    seq(Product(shape), g requires 0 <= g < Product(shape) => TraceName(p, shape, g))
  }

  /** Every position before f holds the last draw of its trace. */
  ghost predicate FilledUpTo(a: seq<real>, traces: map<string, seq<real>>, names: seq<string>, f: nat)
  {
    f <= |a| && f <= |names|
    && forall g :: 0 <= g < f ==> Readable(traces, names[g]) && a[g] == LastOf(traces, names[g])
  }

  /** The extraction stopped at position f: the positions before it hold
      their last draws, the trace at f cannot be read and e is its error,
      and from f on the contents are those of `before`. */
  ghost predicate StoppedAt(a: seq<real>, before: seq<real>, traces: map<string, seq<real>>, names: seq<string>, f: nat, e: SampleError)
  {
    && |a| == |before| && f < |a| && f < |names|
    && FilledUpTo(a, traces, names, f)
    && !Readable(traces, names[f]) && e == TraceError(traces, names[f])
    && SameFrom(a, before, f)
  }

  /** From position f on, a holds what `before` holds. */
  ghost predicate SameFrom(a: seq<real>, before: seq<real>, f: nat)
  {
    |a| == |before| && forall g :: f <= g < |a| ==> a[g] == before[g]
  }

  /** Writes the last draw of the trace at position f. */
  method Store(a: array<real>, f: nat, v: real, traces: map<string, seq<real>>,
               ghost names: seq<string>, ghost before: seq<real>)
    requires f < a.Length && f < |names| && FilledUpTo(a[..], traces, names, f)
    requires Readable(traces, names[f]) && v == LastOf(traces, names[f])
    requires SameFrom(a[..], before, f)
    modifies a
    ensures FilledUpTo(a[..], traces, names, f + 1) && SameFrom(a[..], before, f + 1)
  {
    a[f] := v;
  }

  /** The nditer branch: a zero-sized array is refused, otherwise the
      elements are filled in Fortran order. */
  method FillField(a: array<real>, traces: map<string, seq<real>>, p: string, shape: seq<nat>)
    returns (err: Option<SampleError>)
    requires |shape| >= 2 && a.Length == Product(shape)
    modifies a
    ensures Extracted(a[..], old(a[..]), traces, p, shape, err)
  {
    if a.Length == 0 {
      return Some(ZeroSizedIteration(p));
    }
    err := IterateFortran(a, traces, p, shape);
  }

  /** The nditer loop: the multi-index starts at all zeros and steps in
      Fortran order until the iterator is finished; each step writes the
      element at that multi-index, so the first unreadable trace in
      Fortran order is the one that stops it. */
  method IterateFortran(a: array<real>, traces: map<string, seq<real>>, p: string, shape: seq<nat>)
    returns (err: Option<SampleError>)
    requires |shape| >= 2 && 0 < a.Length == Product(shape)
    modifies a
    ensures Extracted(a[..], old(a[..]), traces, p, shape, err)
  {
    ghost var names, before := TraceNames(p, shape), a[..];
    UnflattenZero(shape);
    var idx := Zeros(|shape|);
    var f := 0;
    var finished := false;
    while !finished
      invariant 0 <= f <= a.Length
      invariant finished <==> f == a.Length
      invariant !finished ==> idx == Unflatten(f, shape)
      invariant FilledUpTo(a[..], traces, names, f) && SameFrom(a[..], before, f)
      decreases a.Length - f
    {
      var name := FieldName(p, idx);
      assert name == names[f];
      var v := ReadLast(traces, name);
      if v.Failure? {
        StoppedExtracted(a[..], before, traces, p, shape, f, v.error);
        return Some(v.error);
      }
      var pos := Flatten(idx, shape);
      assert pos == f by {
        FlattenUnflatten(f, shape);
      }
      Store(a, pos, v.value, traces, names, before);
      if f + 1 == a.Length {
        finished := true;
      } else {
        NextUnflatten(f, shape);
        idx := Next(idx, shape);
      }
      f := f + 1;
    }
    AllFilled(a[..], traces, p, shape);
    return None;
  }

  /** Once every position is filled, the parameter was readable and the
      array holds its last values. */
  lemma {:induction false} AllFilled(a: seq<real>, traces: map<string, seq<real>>, p: string, shape: seq<nat>)
    requires |a| == Product(shape) && (|shape| >= 2 ==> |a| > 0)
    requires FilledUpTo(a, traces, TraceNames(p, shape), |a|)
    ensures ParamReadable(traces, p, shape) && a == LastValues(traces, p, shape)
  {
    var names := TraceNames(p, shape);
    forall f | 0 <= f < Product(shape)
      ensures Readable(traces, TraceName(p, shape, f))
    {
      assert names[f] == TraceName(p, shape, f);
    }
  }

  /** An extraction that stopped at f stopped at the first unreadable
      trace, and raised that trace's error. */
  lemma {:induction false} StoppedExtracted(a: seq<real>, before: seq<real>, traces: map<string, seq<real>>, p: string, shape: seq<nat>, f: nat, e: SampleError)
    requires |a| == Product(shape)
    requires StoppedAt(a, before, traces, TraceNames(p, shape), f, e)
    ensures FirstUnreadable(traces, p, shape, f) && Extracted(a, before, traces, p, shape, Some(e))
  {
    var names := TraceNames(p, shape);
    forall g | 0 <= g < f
      ensures Readable(traces, TraceName(p, shape, g))
    {
      assert names[g] == TraceName(p, shape, g);
    }
    assert names[f] == TraceName(p, shape, f);
    assert Raised(traces, p, shape, e);
  }

  /** The outcome of extracting parameter p from one chain into a, which
      held `before`: either every trace was readable and a holds the last
      draws, or the first error was raised, after the positions before the
      failing trace had been written. */
  ghost predicate Extracted(a: seq<real>, before: seq<real>, traces: map<string, seq<real>>, p: string, shape: seq<nat>, err: Option<SampleError>)
  {
    && (err.None? <==> ParamReadable(traces, p, shape))
    && (err.None? ==> a == LastValues(traces, p, shape))
    && (err.Some? ==> Raised(traces, p, shape, err.value))
    && (err.Some? ==> WrittenBeforeFailure(a, before, traces, p, shape, err.value))
  }

  /** After a failure, the positions before the failing trace hold their
      last draws and the others what they held before; a zero-sized
      array has no positions. */
  ghost predicate WrittenBeforeFailure(a: seq<real>, before: seq<real>, traces: map<string, seq<real>>, p: string, shape: seq<nat>, e: SampleError)
  {
    |a| == 0 || exists f: nat :: StoppedAt(a, before, traces, TraceNames(p, shape), f, e)
  }

  function ParamNames(fit: Fit): set<string>
  {
    set i | 0 <= i < |fit.modelPars| :: fit.modelPars[i]
  }

  /** The arrays a dict maps the model parameters to. */
  ghost function Arrays(fit: Fit, d: map<string, array<real>>): set<array<real>>
  {
    set i | 0 <= i < |fit.modelPars| && fit.modelPars[i] in d :: d[fit.modelPars[i]]
  }

  /** A dict of the appropriate content: every parameter, and only those,
      mapped to an array of its size, no two parameters to the same array. */
  ghost predicate DictFits(fit: Fit, d: map<string, array<real>>)
    requires ValidFit(fit)
  {
    && d.Keys == ParamNames(fit)
    && (forall i :: 0 <= i < |fit.modelPars| ==>
          fit.modelPars[i] in d && d[fit.modelPars[i]].Length == Product(fit.parDims[i]))
    && (forall i1, i2 :: 0 <= i1 < i2 < |fit.modelPars| ==> d[fit.modelPars[i1]] != d[fit.modelPars[i2]])
  }

  /** An output list of the appropriate shape and content: one fitting
      dict per chain, no array shared between two chains. */
  ghost predicate OutputFits(fit: Fit, out: seq<map<string, array<real>>>)
    requires ValidFit(fit)
  {
    && |out| == fit.chains
    && (forall c :: 0 <= c < |out| ==> DictFits(fit, out[c]))
    && (forall c1, c2 :: 0 <= c1 < c2 < |out| ==> Arrays(fit, out[c1]) !! Arrays(fit, out[c2]))
  }

  /** Every parameter of one chain can be extracted. */
  ghost predicate ChainReadable(fit: Fit, traces: map<string, seq<real>>)
    requires ValidFit(fit)
  {
    forall i :: 0 <= i < |fit.modelPars| ==> ParamReadable(traces, fit.modelPars[i], fit.parDims[i])
  }

  /** Every array of a dict holds the last draws of its parameter. */
  ghost predicate ChainFilled(fit: Fit, d: map<string, array<real>>, traces: map<string, seq<real>>)
    requires ValidFit(fit) && DictFits(fit, d) && ChainReadable(fit, traces)
    reads Arrays(fit, d)
  {
    forall i :: 0 <= i < |fit.modelPars| ==>
      d[fit.modelPars[i]] in Arrays(fit, d)
      && d[fit.modelPars[i]][..] == LastValues(traces, fit.modelPars[i], fit.parDims[i])
  }

  /** Every parameter of every chain can be extracted. */
  ghost predicate AllReadable(fit: Fit)
    requires ValidFit(fit)
  {
    forall c :: 0 <= c < fit.chains ==> ChainReadable(fit, fit.traces[c])
  }

  /** Parameter i is the first of the chain that cannot be extracted,
      and e is what extracting it raises. */
  ghost predicate FailingParam(fit: Fit, traces: map<string, seq<real>>, i: nat, e: SampleError)
    requires ValidFit(fit)
  {
    && i < |fit.modelPars|
    && (forall k :: 0 <= k < i ==> ParamReadable(traces, fit.modelPars[k], fit.parDims[k]))
    && Raised(traces, fit.modelPars[i], fit.parDims[i], e)
  }

  /** e is the exception extracting one chain raises: the parameters are
      taken in the order of model_pars, so it is the error raised for the
      first one that cannot be extracted. */
  ghost predicate ChainRaised(fit: Fit, traces: map<string, seq<real>>, e: SampleError)
    requires ValidFit(fit)
  {
    exists i: nat :: FailingParam(fit, traces, i, e)
  }

  /** Chain c is the first that cannot be extracted, and e is what
      extracting it raises. */
  ghost predicate FailingChain(fit: Fit, c: nat, e: SampleError)
    requires ValidFit(fit)
  {
    && c < fit.chains
    && (forall c' :: 0 <= c' < c ==> ChainReadable(fit, fit.traces[c']))
    && ChainRaised(fit, fit.traces[c], e)
  }

  /** e is the exception get_last_sample raises: the chains are taken in
      order, so it is the error raised for the first chain that cannot be
      extracted. */
  ghost predicate OutputRaised(fit: Fit, e: SampleError)
    requires ValidFit(fit)
  {
    exists c: nat :: FailingChain(fit, c, e)
  }

  /** A parameter that raises after every earlier one was extracted is
      the first failing one. */
  lemma {:induction false} FirstFailingParam(fit: Fit, traces: map<string, seq<real>>, i: nat, e: SampleError)
    requires ValidFit(fit) && i < |fit.modelPars|
    requires forall k :: 0 <= k < i ==> ParamReadable(traces, fit.modelPars[k], fit.parDims[k])
    requires Raised(traces, fit.modelPars[i], fit.parDims[i], e)
    ensures ChainRaised(fit, traces, e) && !ChainReadable(fit, traces)
  {
    assert FailingParam(fit, traces, i, e);
    FailingParamUnreadable(fit, traces, i, e);
  }

  /** A failing parameter makes its chain unreadable. */
  lemma {:induction false} FailingParamUnreadable(fit: Fit, traces: map<string, seq<real>>, i: nat, e: SampleError)
    requires ValidFit(fit) && FailingParam(fit, traces, i, e)
    ensures !ParamReadable(traces, fit.modelPars[i], fit.parDims[i]) && !ChainReadable(fit, traces)
  {
    RaisedUnreadable(traces, fit.modelPars[i], fit.parDims[i], e);
  }

  /** Only one parameter is the first failing one. */
  lemma {:induction false} FailingParamUnique(fit: Fit, traces: map<string, seq<real>>, i1: nat, e1: SampleError, i2: nat, e2: SampleError)
    requires ValidFit(fit) && FailingParam(fit, traces, i1, e1) && FailingParam(fit, traces, i2, e2)
    ensures i1 == i2 && e1 == e2
  {
    FailingParamUnreadable(fit, traces, i1, e1);
    FailingParamUnreadable(fit, traces, i2, e2);
    if i1 == i2 {
      RaisedUnique(traces, fit.modelPars[i1], fit.parDims[i1], e1, e2);
    }
  }

  /** A chain that raises cannot be extracted. */
  lemma {:induction false} ChainRaisedUnreadable(fit: Fit, traces: map<string, seq<real>>, e: SampleError)
    requires ValidFit(fit) && ChainRaised(fit, traces, e)
    ensures !ChainReadable(fit, traces)
  {
    var i: nat :| FailingParam(fit, traces, i, e);
    FailingParamUnreadable(fit, traces, i, e);
  }

  /** What a chain raises is determined by its traces. */
  lemma {:induction false} ChainRaisedUnique(fit: Fit, traces: map<string, seq<real>>, e1: SampleError, e2: SampleError)
    requires ValidFit(fit) && ChainRaised(fit, traces, e1) && ChainRaised(fit, traces, e2)
    ensures e1 == e2
  {
    var i1: nat :| FailingParam(fit, traces, i1, e1);
    var i2: nat :| FailingParam(fit, traces, i2, e2);
    FailingParamUnique(fit, traces, i1, e1, i2, e2);
  }

  /** Only one chain is the first failing one. */
  lemma {:induction false} FailingChainUnique(fit: Fit, c1: nat, e1: SampleError, c2: nat, e2: SampleError)
    requires ValidFit(fit) && FailingChain(fit, c1, e1) && FailingChain(fit, c2, e2)
    ensures c1 == c2 && e1 == e2
  {
    ChainRaisedUnreadable(fit, fit.traces[c1], e1);
    ChainRaisedUnreadable(fit, fit.traces[c2], e2);
    if c1 == c2 {
      ChainRaisedUnique(fit, fit.traces[c1], e1, e2);
    }
  }

  /** An output that raises cannot be extracted. */
  lemma {:induction false} OutputRaisedUnreadable(fit: Fit, e: SampleError)
    requires ValidFit(fit) && OutputRaised(fit, e)
    ensures !AllReadable(fit)
  {
    var c: nat :| FailingChain(fit, c, e);
    ChainRaisedUnreadable(fit, fit.traces[c], e);
  }

  /** The error get_last_sample raises is determined by the fit. */
  lemma {:induction false} OutputRaisedUnique(fit: Fit, e1: SampleError, e2: SampleError)
    requires ValidFit(fit) && OutputRaised(fit, e1) && OutputRaised(fit, e2)
    ensures e1 == e2
  {
    var c1: nat :| FailingChain(fit, c1, e1);
    var c2: nat :| FailingChain(fit, c2, e2);
    FailingChainUnique(fit, c1, e1, c2, e2);
  }

  /** The dict built for one chain when no output is given: every
      parameter mapped to a new, uninitialised array of its size. */
  method NewDict(fit: Fit) returns (d: map<string, array<real>>)
    requires ValidFit(fit)
    ensures DictFits(fit, d) && fresh(Arrays(fit, d))
  {
    var pars := fit.modelPars;
    d := map[];
    for i := 0 to |pars|
      invariant d.Keys == set k | 0 <= k < i :: pars[k]
      invariant forall k :: 0 <= k < i ==>
        pars[k] in d && d[pars[k]].Length == Product(fit.parDims[k]) && fresh(d[pars[k]])
      invariant forall k1, k2 :: 0 <= k1 < k2 < i ==> d[pars[k1]] != d[pars[k2]]
    {
      var a := new real[Product(fit.parDims[i])];
      d := d[pars[i] := a];
    }
  }

  /** The list built when no output is given: one new dict per chain. */
  method NewOutput(fit: Fit) returns (out: seq<map<string, array<real>>>)
    requires ValidFit(fit)
    ensures OutputFits(fit, out)
    ensures forall c :: 0 <= c < |out| ==> fresh(Arrays(fit, out[c]))
  {
    out := [];
    for c := 0 to fit.chains
      invariant |out| == c
      invariant forall c' :: 0 <= c' < c ==> DictFits(fit, out[c']) && fresh(Arrays(fit, out[c']))
      invariant forall c1, c2 :: 0 <= c1 < c2 < c ==> Arrays(fit, out[c1]) !! Arrays(fit, out[c2])
    {
      var d := NewDict(fit);
      out := out + [d];
    }
  }

  /** The inner loop of get_last_sample: every parameter of one chain in
      turn; the first error propagates. */
  method FillChain(fit: Fit, d: map<string, array<real>>, traces: map<string, seq<real>>)
    returns (err: Option<SampleError>)
    requires ValidFit(fit) && DictFits(fit, d)
    modifies Arrays(fit, d)
    ensures err.None? <==> ChainReadable(fit, traces)
    ensures err.None? ==> ChainFilled(fit, d, traces)
    ensures err.Some? ==> ChainRaised(fit, traces, err.value)
  {
    var pars := fit.modelPars;
    err := None;
    for i := 0 to |pars|
      invariant err.None?
      invariant forall k :: 0 <= k < i ==>
        ParamReadable(traces, pars[k], fit.parDims[k])
        && d[pars[k]][..] == LastValues(traces, pars[k], fit.parDims[k])
    {
      var a := d[pars[i]];
      assert a in Arrays(fit, d);
      err := FillParameter(a, traces, pars[i], fit.parDims[i]);
      if err.Some? {
        FirstFailingParam(fit, traces, i, err.value);
        return;
      }
    }
    forall i | 0 <= i < |pars|
      ensures d[pars[i]] in Arrays(fit, d)
    {
    }
  }

  /** Every array of an output list. */
  ghost function AllArrays(fit: Fit, out: seq<map<string, array<real>>>): set<array<real>>
  {
    set c, i | 0 <= c < |out| && 0 <= i < |fit.modelPars| && fit.modelPars[i] in out[c] :: out[c][fit.modelPars[i]]
  }

  /** The flat contents extracted for every parameter of one chain, in
      the order of the model parameters. */
  ghost function Wanted(fit: Fit, traces: map<string, seq<real>>): (w: seq<seq<real>>)
    requires ValidFit(fit) && ChainReadable(fit, traces)
    ensures |w| == |fit.modelPars|
  {
    seq(|fit.modelPars|, i requires 0 <= i < |fit.modelPars| =>
      LastValues(traces, fit.modelPars[i], fit.parDims[i]))
  }

  /** The arrays of a dict hold the given contents, parameter by parameter. */
  ghost predicate Holds(fit: Fit, d: map<string, array<real>>, want: seq<seq<real>>)
    requires ValidFit(fit) && DictFits(fit, d)
    reads Arrays(fit, d)
  {
    && |want| == |fit.modelPars|
    && forall i :: 0 <= i < |fit.modelPars| ==>
         d[fit.modelPars[i]] in Arrays(fit, d) && d[fit.modelPars[i]][..] == want[i]
  }

  lemma {:induction false} FilledHolds(fit: Fit, d: map<string, array<real>>, traces: map<string, seq<real>>)
    requires ValidFit(fit) && DictFits(fit, d) && ChainReadable(fit, traces)
    ensures ChainFilled(fit, d, traces) <==> Holds(fit, d, Wanted(fit, traces))
  {
  }

  /** The outer loop of get_last_sample: every chain in turn; the first
      error propagates. */
  method FillChains(fit: Fit, res: seq<map<string, array<real>>>) returns (err: Option<SampleError>)
    requires ValidFit(fit) && OutputFits(fit, res)
    modifies AllArrays(fit, res)
    ensures err.None? <==> AllReadable(fit)
    ensures err.None? ==> forall c :: 0 <= c < fit.chains ==> ChainFilled(fit, res[c], fit.traces[c])
    ensures err.Some? ==> OutputRaised(fit, err.value)
  {
    err := None;
    ghost var want: seq<seq<seq<real>>> := [];
    for c := 0 to fit.chains
      invariant err.None? && |want| == c
      invariant forall c' :: 0 <= c' < c ==>
        ChainReadable(fit, fit.traces[c']) && want[c'] == Wanted(fit, fit.traces[c'])
      invariant forall c' :: 0 <= c' < c ==> Holds(fit, res[c'], want[c'])
    {
      assert Arrays(fit, res[c]) <= AllArrays(fit, res);
      err := FillNextChain(fit, res, c, want);
      if err.Some? {
        assert FailingChain(fit, c, err.value);
        return;
      }
      StepReadable(fit, c, want);
      want := want + [Wanted(fit, fit.traces[c])];
    }
    AllHold(fit, res, want);
  }

  lemma {:induction false} StepReadable(fit: Fit, c: nat, want: seq<seq<seq<real>>>)
    requires ValidFit(fit) && c < fit.chains && |want| == c
    requires forall c' :: 0 <= c' < c ==>
      ChainReadable(fit, fit.traces[c']) && want[c'] == Wanted(fit, fit.traces[c'])
    requires ChainReadable(fit, fit.traces[c])
    ensures forall c' :: 0 <= c' <= c ==>
      ChainReadable(fit, fit.traces[c']) && (want + [Wanted(fit, fit.traces[c])])[c'] == Wanted(fit, fit.traces[c'])
  {
    var w := want + [Wanted(fit, fit.traces[c])];
    forall c' | 0 <= c' <= c
      ensures ChainReadable(fit, fit.traces[c']) && w[c'] == Wanted(fit, fit.traces[c'])
    {
      if c' < c {
        assert w[c'] == want[c'];
      }
    }
  }

  /** Arrays holding the wanted contents of every chain are filled. */
  lemma {:induction false} AllHold(fit: Fit, res: seq<map<string, array<real>>>, want: seq<seq<seq<real>>>)
    requires ValidFit(fit) && OutputFits(fit, res) && |want| == fit.chains
    requires forall c :: 0 <= c < fit.chains ==>
      ChainReadable(fit, fit.traces[c]) && want[c] == Wanted(fit, fit.traces[c])
    requires forall c :: 0 <= c < fit.chains ==> Holds(fit, res[c], want[c])
    ensures forall c :: 0 <= c < fit.chains ==> ChainFilled(fit, res[c], fit.traces[c])
  {
    forall c | 0 <= c < fit.chains
      ensures ChainFilled(fit, res[c], fit.traces[c])
    {
      FilledHolds(fit, res[c], fit.traces[c]);
    }
  }

  lemma {:induction false} StepWanted(fit: Fit, res: seq<map<string, array<real>>>, c: nat,
                                      want: seq<seq<seq<real>>>, w: seq<seq<real>>)
    requires ValidFit(fit) && OutputFits(fit, res) && c < fit.chains && |want| == c
    requires forall c' :: 0 <= c' < c ==> Holds(fit, res[c'], want[c'])
    requires Holds(fit, res[c], w)
    ensures forall c' :: 0 <= c' <= c ==> Holds(fit, res[c'], (want + [w])[c'])
  {
    forall c' | 0 <= c' <= c
      ensures Holds(fit, res[c'], (want + [w])[c'])
    {
      if c' < c {
        assert (want + [w])[c'] == want[c'];
      }
    }
  }

  /** One turn of the outer loop: fills chain c and leaves the arrays of
      the chains before it as they were. */
  method FillNextChain(fit: Fit, res: seq<map<string, array<real>>>, c: nat, ghost want: seq<seq<seq<real>>>)
    returns (err: Option<SampleError>)
    requires ValidFit(fit) && OutputFits(fit, res) && c < fit.chains && |want| == c
    requires forall c' :: 0 <= c' < c ==> Holds(fit, res[c'], want[c'])
    modifies Arrays(fit, res[c])
    ensures forall c' :: 0 <= c' < c ==> Holds(fit, res[c'], want[c'])
    ensures err.None? <==> ChainReadable(fit, fit.traces[c])
    ensures err.None? ==> ChainFilled(fit, res[c], fit.traces[c])
    ensures err.None? ==>
      forall c' :: 0 <= c' <= c ==> Holds(fit, res[c'], (want + [Wanted(fit, fit.traces[c])])[c'])
    ensures err.Some? ==> ChainRaised(fit, fit.traces[c], err.value)
  {
    err := FillChain(fit, res[c], fit.traces[c]);
    forall c' | 0 <= c' < c
      ensures Holds(fit, res[c'], want[c'])
    {
      assert old(Holds(fit, res[c'], want[c']));
      forall i | 0 <= i < |fit.modelPars|
        ensures res[c'][fit.modelPars[i]][..] == want[c'][i]
      {
        assert res[c'][fit.modelPars[i]] in Arrays(fit, res[c']);
        assert Arrays(fit, res[c']) !! Arrays(fit, res[c]);
      }
    }
    if err.None? {
      FilledHolds(fit, res[c], fit.traces[c]);
      StepWanted(fit, res, c, want, Wanted(fit, fit.traces[c]));
    }
  }

  /** get_last_sample(fit, out): an empty `out` (None or []) is replaced
      by NewOutput; then every chain is filled in turn. Succeeds exactly
      when every trace it needs is readable, and then every array holds
      the last draws of its traces. */
  method GetLastSample(fit: Fit, out: seq<map<string, array<real>>>)
    returns (r: Result<seq<map<string, array<real>>>, SampleError>)
    requires ValidFit(fit)
    requires out != [] ==> OutputFits(fit, out)
    modifies AllArrays(fit, out)
    ensures r.Success? <==> AllReadable(fit)
    ensures r.Success? ==> OutputFits(fit, r.value) && (out != [] ==> r.value == out)
    ensures r.Success? ==> forall c :: 0 <= c < fit.chains ==> ChainFilled(fit, r.value[c], fit.traces[c])
    ensures r.Failure? ==> OutputRaised(fit, r.error)
    ensures r.Success? && out == [] ==> forall c :: 0 <= c < |r.value| ==> fresh(Arrays(fit, r.value[c]))
  {
    var res := out;
    if out == [] {
      res := NewOutput(fit);
      forall x | x in AllArrays(fit, res)
        ensures fresh(x)
      {
        var c, i :| 0 <= c < |res| && 0 <= i < |fit.modelPars| && fit.modelPars[i] in res[c]
          && x == res[c][fit.modelPars[i]];
        assert x in Arrays(fit, res[c]);
      }
    }
    var err := FillChains(fit, res);
    if err.Some? {
      return Failure(err.value);
    }
    return Success(res);
  }
}
