/** The simulated hierarchical logistic-regression model "m4b": J groups,
    D inputs, local parameters alpha (J) and beta (J x D), and the shared
    parameter vector phi = [mu_a, log sigma_a, mu_b, log sigma_b] of
    length 2D + 2. */
module M4b {
  import opened Wrappers
  import opened GroupLayout
  import opened Matrices
  import opened ParamDefs

  /** The positions of phi: mu_a, log sigma_a, then mu_b[d] and
      log sigma_b[d] for each input d. */
  datatype Slot = MuA | LogSigmaA | MuB(d: nat) | LogSigmaB(d: nat)

  predicate ValidSlot(s: Slot, D: nat)
  {
    match s
    case MuB(d) => d < D
    case LogSigmaB(d) => d < D
    case _ => true
  }

  /** Where a slot sits in phi: index 0, index 1, the block [2, 2+D)
      or the block [2+D, 2D+2). */
  function SlotIndex(s: Slot, D: nat): (i: nat)
    requires ValidSlot(s, D)
    ensures i < 2 * D + 2
  {
    match s
    case MuA => 0
    case LogSigmaA => 1
    case MuB(d) => 2 + d
    case LogSigmaB(d) => 2 + D + d
  }

  /** Which slot index i of phi holds. */
  function SlotAt(i: nat, D: nat): (s: Slot)
    requires i < 2 * D + 2
    ensures ValidSlot(s, D) && SlotIndex(s, D) == i
  {
    if i == 0 then MuA
    else if i == 1 then LogSigmaA
    else if i < 2 + D then MuB(i - 2)
    else LogSigmaB(i - 2 - D)
  }

  /** Every valid slot has exactly one index. */
  lemma {:induction false} SlotRoundTrip(s: Slot, D: nat)
    requires ValidSlot(s, D)
    ensures SlotAt(SlotIndex(s, D), D) == s
  {
  }

  /** The prior configuration: mean and variance of mu_a, log sigma_a,
      each mu_b[d] and each log sigma_b[d]. The model file sets every
      mean to 0 and every variance to 1.5^2. */
  datatype PriorConfig = PriorConfig(
    m0MA: real, v0MA: real, m0SA: real, v0SA: real,
    m0MB: real, v0MB: real, m0SB: real, v0SB: real)
  {
    predicate PositiveVariances()
    {
      v0MA > 0.0 && v0SA > 0.0 && v0MB > 0.0 && v0SB > 0.0
    }

    predicate NonZeroVariances()
    {
      v0MA != 0.0 && v0SA != 0.0 && v0MB != 0.0 && v0SB != 0.0
    }

    function Mean(s: Slot): real
    {
      BlockValue(s, m0MA, m0SA, m0MB, m0SB)
    }

    function Variance(s: Slot): real
    {
      BlockValue(s, v0MA, v0SA, v0MB, v0SB)
    }
  }

  /** The value a block-wise fill puts in slot s: `a` for mu_a, `b` for
      log sigma_a, `mb` for every mu_b and `sb` for every log sigma_b. */
  function BlockValue(s: Slot, a: real, b: real, mb: real, sb: real): real
  {
    match s
    case MuA => a
    case LogSigmaA => b
    case MuB(_) => mb
    case LogSigmaB(_) => sb
  }

  function Abs(x: real): real
  {
    if x < 0.0 then -x else x
  }

  /** np.sum of a row. */
  function RowSum(s: seq<real>): real
  {
    if s == [] then 0.0 else RowSum(s[..|s| - 1]) + s[|s| - 1]
  }

  /** Replacing one entry moves the sum by the difference. */
  lemma {:induction false} RowSumUpdate(s: seq<real>, k: nat, v: real)
    requires k < |s|
    ensures RowSum(s[k := v]) == RowSum(s) - s[k] + v
  {
    var last := |s| - 1;
    if k < last {
      RowSumUpdate(s[..last], k, v);
      assert s[k := v][..last] == s[..last][k := v];
    } else {
      assert s[k := v][..last] == s[..last];
    }
  }

  /** The beta regulation's inputs: mu_b, sigma_b, the threshold and the
      random draws; the model file's threshold B_ABS_MIN_SUM is 1e-4.
      indexDraw(j, t) and normalDraw(j, t) are the t-th replacement
      index and standard-normal value drawn for row j. */
  datatype Regulation = Regulation(
    muB: seq<real>, sigmaB: seq<real>, minAbsSum: real,
    indexDraw: (nat, nat) -> nat, normalDraw: (nat, nat) -> real)

  /** How the replacement loop of one row ends: its sum reached the
      threshold, `randint(D)` failed because D is 0, or the supplied
      draws ran out. */
  datatype RowStatus = Regulated | NoIndexToDraw | OutOfDraws

  datatype RowOutcome = RowOutcome(row: seq<real>, status: RowStatus)

  /** The value the t-th redraw of row j puts at index d: a draw from
      N(mu_b[d], sigma_b[d]). */
  function Redrawn(reg: Regulation, j: nat, t: nat, d: nat): real
    requires d < |reg.muB| && d < |reg.sigmaB|
  {
    reg.muB[d] + reg.normalDraw(j, t) * reg.sigmaB[d]
  }

  /** The replacement loop for row j from attempt t on, with `fuel`
      attempts left: while |sum| is below the threshold, redraw the
      entry at a random index from N(mu_b[index], sigma_b[index]). */
  function RegulateRow(row: seq<real>, reg: Regulation, j: nat, t: nat, fuel: nat): RowOutcome
    requires |reg.muB| == |row| && |reg.sigmaB| == |row|
    decreases fuel
  {
    if Abs(RowSum(row)) >= reg.minAbsSum then RowOutcome(row, Regulated)
    else if |row| == 0 then RowOutcome(row, NoIndexToDraw)
    else if fuel == 0 then RowOutcome(row, OutOfDraws)
    else
      var k := reg.indexDraw(j, t) % |row|;
      RegulateRow(row[k := Redrawn(reg, j, t, k)], reg, j, t + 1, fuel - 1)
  }

  /** The loop keeps the row's length. */
  lemma {:induction false} RegulateRowLength(row: seq<real>, reg: Regulation, j: nat, t: nat, fuel: nat)
    requires |reg.muB| == |row| && |reg.sigmaB| == |row|
    ensures |RegulateRow(row, reg, j, t, fuel).row| == |row|
    decreases fuel
  {
    if Abs(RowSum(row)) < reg.minAbsSum && |row| != 0 && fuel != 0 {
      var k := reg.indexDraw(j, t) % |row|;
      RegulateRowLength(row[k := Redrawn(reg, j, t, k)], reg, j, t + 1, fuel - 1);
    }
  }

  /** The loop leaves a row regulated exactly when the row's sum has
      reached the threshold: it exits only then. */
  lemma {:induction false} RegulateRowStatus(row: seq<real>, reg: Regulation, j: nat, t: nat, fuel: nat)
    requires |reg.muB| == |row| && |reg.sigmaB| == |row|
    ensures var r := RegulateRow(row, reg, j, t, fuel);
      r.status == Regulated <==> Abs(RowSum(r.row)) >= reg.minAbsSum
    decreases fuel
  {
    if Abs(RowSum(row)) < reg.minAbsSum && |row| != 0 && fuel != 0 {
      var k := reg.indexDraw(j, t) % |row|;
      RegulateRowStatus(row[k := Redrawn(reg, j, t, k)], reg, j, t + 1, fuel - 1);
    }
  }

  /** A row that is already regulated is left alone, and only an empty
      row has no index to draw from. */
  lemma {:induction false} RegulateRowUntouched(row: seq<real>, reg: Regulation, j: nat, t: nat, fuel: nat)
    requires |reg.muB| == |row| && |reg.sigmaB| == |row|
    ensures Abs(RowSum(row)) >= reg.minAbsSum ==> RegulateRow(row, reg, j, t, fuel) == RowOutcome(row, Regulated)
    ensures RegulateRow(row, reg, j, t, fuel).status == NoIndexToDraw ==> |row| == 0
    decreases fuel
  {
    if Abs(RowSum(row)) < reg.minAbsSum && |row| != 0 && fuel != 0 {
      var k := reg.indexDraw(j, t) % |row|;
      RegulateRowUntouched(row[k := Redrawn(reg, j, t, k)], reg, j, t + 1, fuel - 1);
    }
  }

  /** Each entry of the regulated row is the original entry or a value
      redrawn for that index at one of the attempts t .. t + fuel - 1. */
  lemma {:induction false} RegulateRowEntries(row: seq<real>, reg: Regulation, j: nat, t: nat, fuel: nat, d: nat)
    requires |reg.muB| == |row| && |reg.sigmaB| == |row|
    requires d < |row|
    ensures |RegulateRow(row, reg, j, t, fuel).row| == |row|
    ensures var v := RegulateRow(row, reg, j, t, fuel).row[d];
      v == row[d] || exists u :: t <= u < t + fuel && v == Redrawn(reg, j, u, d)
    decreases fuel
  {
    RegulateRowLength(row, reg, j, t, fuel);
    if Abs(RowSum(row)) < reg.minAbsSum && |row| != 0 && fuel != 0 {
      var k := reg.indexDraw(j, t) % |row|;
      var next := row[k := Redrawn(reg, j, t, k)];
      RegulateRowEntries(next, reg, j, t + 1, fuel - 1, d);
      assert RegulateRow(row, reg, j, t, fuel) == RegulateRow(next, reg, j, t + 1, fuel - 1);
    }
  }

  /** Row j of a J x D array. */
  function Row(a: array2<real>, j: nat): (r: seq<real>)
    reads a
    requires j < a.Length0
    ensures |r| == a.Length1
    ensures forall d :: 0 <= d < a.Length1 ==> r[d] == a[j, d]
  {
    seq(a.Length1, d requires 0 <= d < a.Length1 reads a => a[j, d])
  }

  /** How the regulation of all rows ended: every row regulated, or the
      first row whose loop stopped without reaching the threshold. */
  datatype RegulationOutcome = AllRegulated | Stopped(row: nat, status: RowStatus)

  class Model {
    const J: nat
    const D: nat
    const npg: Npg
    /** Length of the shared-parameter vector phi. */
    const dphi: nat := 2 * D + 2

    constructor (J: nat, D: nat, npg: Npg)
      ensures this.J == J && this.D == D && this.npg == npg
      ensures dphi == 2 * D + 2
    {
      this.J := J;
      this.D := D;
      this.npg := npg;
    }

    /** The observation layout of simulate_data: counts Nj, limits j_lim
        and labels j_ind; fails as numpy does on an empty count range. */
    method SimulateLayout(draw: nat -> nat) returns (r: Result<Layout, string>)
      ensures r.Failure? <==> npg.Range? && npg.lo > npg.hi
      ensures r.Success? ==> IsLayout(J, npg, r.value)
    {
      var counts := GroupCounts(J, npg, draw);
      if counts.Failure? {
        return Failure(counts.error);
      }
      var nj := counts.value;
      var lim := Limits(nj);
      var ind := LabelGroups(nj, lim);
      LabelsAreLabelling(nj);
      return Success(Layout(nj, lim, ind[..]));
    }

    /** phi_true of simulate_data: mu_a at index 0, log sigma_a at
        index 1, mu_b in [2, 2+D) and log sigma_b in [2+D, dphi). The
        logarithms are taken by the caller. */
    method PhiTrue(muA: real, logSigmaA: real, muB: seq<real>, logSigmaB: seq<real>) returns (phi: array<real>)
      requires |muB| == D && |logSigmaB| == D
      ensures phi.Length == dphi
      ensures phi[SlotIndex(MuA, D)] == muA && phi[SlotIndex(LogSigmaA, D)] == logSigmaA
      ensures forall d :: 0 <= d < D ==>
        phi[SlotIndex(MuB(d), D)] == muB[d] && phi[SlotIndex(LogSigmaB(d), D)] == logSigmaB[d]
    {
      phi := new real[dphi];
      phi[0] := muA;
      phi[1] := logSigmaA;
      forall i | 2 <= i < 2 + D {
        phi[i] := muB[i - 2];
      }
      forall i | 2 + D <= i < dphi {
        phi[i] := logSigmaB[i - 2 - D];
      }
    }

    /** The block-wise fill of get_prior: a vector of length dphi with
        `a` at index 0, `b` at index 1, `mb` over [2, 2+D) and `sb` over
        [2+D, dphi). */
    method FillBlocks(a: real, b: real, mb: real, sb: real) returns (v: array<real>)
      ensures v.Length == dphi
      ensures forall i :: 0 <= i < dphi ==> v[i] == BlockValue(SlotAt(i, D), a, b, mb, sb)
    {
      v := new real[dphi];
      v[0] := a;
      v[1] := b;
      forall i | 2 <= i < 2 + D {
        v[i] := mb;
      }
      forall i | 2 + D <= i < dphi {
        v[i] := sb;
      }
    }

    /** get_prior: the moment parameters (S0, m0) filled block by block
        and the natural parameters Q0 = diag(1 / diag(S0)) and
        r0 = m0 / diag(S0). S0 and Q0 are diagonal and inverse to each
        other. */
    method GetPrior(cfg: PriorConfig) returns (S0: Matrix, m0: seq<real>, Q0: Matrix, r0: seq<real>)
      requires cfg.NonZeroVariances()
      ensures IsSquare(S0, dphi) && IsDiagonal(S0) && IsSquare(Q0, dphi) && IsDiagonal(Q0)
      ensures |m0| == dphi && |r0| == dphi
      ensures forall i :: 0 <= i < dphi ==>
        S0[i][i] == cfg.Variance(SlotAt(i, D)) && m0[i] == cfg.Mean(SlotAt(i, D))
      ensures forall i :: 0 <= i < dphi ==> S0[i][i] != 0.0
      ensures cfg.PositiveVariances() ==> forall i :: 0 <= i < dphi ==> S0[i][i] > 0.0
      ensures MatMul(Q0, S0) == Identity(dphi)
      ensures r0 == Quotients(m0, DiagOf(S0))
    {
      var v := FillBlocks(cfg.v0MA, cfg.v0SA, cfg.v0MB, cfg.v0SB);
      var m := FillBlocks(cfg.m0MA, cfg.m0SA, cfg.m0MB, cfg.m0SB);
      NaturalFromMoments(v[..], m[..]);
      S0 := Transpose(Diag(v[..]));
      m0 := m[..];
      var sd := DiagOf(S0);
      Q0 := Transpose(Diag(Reciprocals(sd)));
      r0 := Quotients(m0, sd);
    }

    /** get_param_definitions: alpha of shape (J,) and beta of shape
        (J, D), both hierarchical along their first axis. */
    function GetParamDefinitions(): (defs: ParamDefs)
      ensures WellFormed(defs, J)
      ensures defs.names == ["alpha", "beta"]
      ensures defs.shapes == [[J], [J, D]] && defs.hiers == [Some(0), Some(0)]
    {
      ParamDefs(["alpha", "beta"], [[J], [J, D]], [Some(0), Some(0)])
    }

    /** The regulation loop of simulate_data: for each row j of beta, as
        long as |beta_sum| is below the threshold, one random entry is
        redrawn and beta_sum is updated by the difference. Row j ends as
        RegulateRow says; rows after a stopped row are untouched. */
    method RegulateBeta(beta: array2<real>, reg: Regulation, fuel: nat) returns (r: RegulationOutcome)
      requires beta.Length0 == J && beta.Length1 == D
      requires |reg.muB| == D && |reg.sigmaB| == D
      modifies beta
      ensures r.AllRegulated? ==> forall k :: 0 <= k < J ==>
        RegulateRow(old(Row(beta, k)), reg, k, 0, fuel) == RowOutcome(Row(beta, k), Regulated)
      ensures r.Stopped? ==>
        && r.row < J
        && (forall k :: 0 <= k < r.row ==>
              RegulateRow(old(Row(beta, k)), reg, k, 0, fuel) == RowOutcome(Row(beta, k), Regulated))
        && RegulateRow(old(Row(beta, r.row)), reg, r.row, 0, fuel) == RowOutcome(Row(beta, r.row), r.status)
        && r.status != Regulated
        && (forall k :: r.row < k < J ==> Row(beta, k) == old(Row(beta, k)))
    {
      for j := 0 to J
        invariant forall k :: 0 <= k < j ==>
          RegulateRow(old(Row(beta, k)), reg, k, 0, fuel) == RowOutcome(Row(beta, k), Regulated)
        invariant forall k :: j <= k < J ==> Row(beta, k) == old(Row(beta, k))
      {
        ghost var mid := seq(J, k requires 0 <= k < J reads beta => Row(beta, k));
        var status := RegulateOneRow(beta, j, reg, fuel);
        forall k | 0 <= k < J && k != j
          ensures Row(beta, k) == mid[k]
        {
        }
        if status != Regulated {
          return Stopped(j, status);
        }
      }
      return AllRegulated;
    }

    /** The replacement loop of one row j of beta, with beta_sum kept
        equal to the row's sum after every replacement. */
    method RegulateOneRow(beta: array2<real>, j: nat, reg: Regulation, fuel: nat) returns (status: RowStatus)
      requires beta.Length0 == J && beta.Length1 == D && j < J
      requires |reg.muB| == D && |reg.sigmaB| == D
      modifies beta
      ensures RegulateRow(old(Row(beta, j)), reg, j, 0, fuel) == RowOutcome(Row(beta, j), status)
      ensures forall k, d :: 0 <= k < J && k != j && 0 <= d < D ==> beta[k, d] == old(beta[k, d])
    {
      var sum := RowSum(Row(beta, j));
      var t := 0;
      while Abs(sum) < reg.minAbsSum
        invariant t <= fuel
        invariant sum == RowSum(Row(beta, j))
        invariant RegulateRow(Row(beta, j), reg, j, t, fuel - t) == RegulateRow(old(Row(beta, j)), reg, j, 0, fuel)
        invariant forall k, d :: 0 <= k < J && k != j && 0 <= d < D ==> beta[k, d] == old(beta[k, d])
        decreases fuel - t
      {
        if D == 0 {
          return NoIndexToDraw;
        }
        if t == fuel {
          return OutOfDraws;
        }
        var index := reg.indexDraw(j, t) % D;
        ghost var before := Row(beta, j);
        ghost var after := before[index := Redrawn(reg, j, t, index)];
        assert RegulateRow(before, reg, j, t, fuel - t) == RegulateRow(after, reg, j, t + 1, fuel - t - 1);
        RowSumUpdate(before, index, Redrawn(reg, j, t, index));
        sum := sum - beta[j, index];
        beta[j, index] := Redrawn(reg, j, t, index);
        sum := sum + beta[j, index];
        assert Row(beta, j) == after;
        t := t + 1;
      }
      return Regulated;
    }
  }
}
