/** The simulated hierarchical logistic-regression model "m2": J groups,
    D inputs, local parameter alpha (J), shared beta (D), and the shared
    parameter vector phi = [log sigma_a, log sigma_b]. */
module M2 {
  import opened Wrappers
  import opened GroupLayout
  import opened Matrices
  import opened ParamDefs

  /** Number of shared parameters. */
  const DPhi: nat := 2

  /** Prior mean and variance of log sigma_a and log sigma_b. The model
      file sets both means to 0 and both variances to 1. */
  datatype PriorConfig = PriorConfig(m0A: real, v0A: real, m0B: real, v0B: real)

  /** The layout and true shared parameters of one simulated data set. */
  datatype SimData = SimData(layout: Layout, phi: seq<real>, dphi: nat)

  /** simulate_data without the floating-point draws: the observation
      layout of J groups under `npg`, and phi_true from the logarithms
      of sigma_a and sigma_b (taken by the caller). */
  method SimulateData(J: nat, npg: Npg, draw: nat -> nat, logSigmaA: real, logSigmaB: real)
    returns (r: Result<SimData, string>)
    ensures r.Failure? <==> npg.Range? && npg.lo > npg.hi
    ensures r.Success? ==> IsLayout(J, npg, r.value.layout)
    ensures r.Success? ==> r.value.dphi == DPhi && |r.value.phi| == DPhi
    ensures r.Success? ==> r.value.phi[0] == logSigmaA && r.value.phi[1] == logSigmaB
  {
    var counts := GroupCounts(J, npg, draw);
    if counts.Failure? {
      return Failure(counts.error);
    }
    var nj := counts.value;
    var lim := Limits(nj);
    var ind := LabelGroups(nj, lim);
    LabelsAreLabelling(nj);
    var phi := [logSigmaA] + [logSigmaB];
    return Success(SimData(Layout(nj, lim, ind[..]), phi, DPhi));
  }

  datatype Prior = Prior(S0: Matrix, m0: seq<real>, Q0: Matrix, r0: seq<real>)

  /** `1./V0_A` and `M0_A/V0_A` divide Python floats, which raises
      ZeroDivisionError for a zero variance. */
  datatype PriorError = ZeroDivision

  /** get_prior: S0 = diag(V0_A, V0_B), m0 = (M0_A, M0_B), and the
      natural parameters Q0 = diag(1/V0_A, 1/V0_B), r0 = m0 / diag(S0);
      Q0 is the inverse of S0. A zero variance is a ZeroDivisionError. */
  function GetPrior(cfg: PriorConfig): (r: Result<Prior, PriorError>)
    ensures r.Failure? <==> cfg.v0A == 0.0 || cfg.v0B == 0.0
    ensures r.Success? ==> IsSquare(r.value.S0, DPhi) && IsDiagonal(r.value.S0)
    ensures r.Success? ==> IsSquare(r.value.Q0, DPhi) && IsDiagonal(r.value.Q0)
    ensures r.Success? ==> DiagOf(r.value.S0) == [cfg.v0A, cfg.v0B] && r.value.m0 == [cfg.m0A, cfg.m0B]
    ensures r.Success? ==> MatMul(r.value.Q0, r.value.S0) == Identity(DPhi)
    ensures r.Success? ==> |r.value.r0| == DPhi
    ensures r.Success? ==> forall i :: 0 <= i < DPhi ==> r.value.r0[i] * r.value.S0[i][i] == r.value.m0[i]
  {
    if cfg.v0A == 0.0 || cfg.v0B == 0.0 then
      Failure(ZeroDivision)
    else
      var v := [cfg.v0A, cfg.v0B];
      DiagonalNatural(v);
      assert [1.0 / cfg.v0A, 1.0 / cfg.v0B] == Reciprocals(v);
      Success(Prior(Transpose(Diag(v)), [cfg.m0A, cfg.m0B],
                    Transpose(Diag([1.0 / cfg.v0A, 1.0 / cfg.v0B])),
                    [cfg.m0A / cfg.v0A, cfg.m0B / cfg.v0B]))
  }

  /** get_param_definitions: alpha of shape (J,), hierarchical along its
      only axis, and beta of shape (D,), shared by all groups. */
  function GetParamDefinitions(J: nat, D: nat): (defs: ParamDefs)
    ensures WellFormed(defs, J)
    ensures defs.names == ["alpha", "beta"]
    ensures defs.shapes == [[J], [D]] && defs.hiers == [Some(0), None]
  {
    ParamDefs(["alpha", "beta"], [[J], [D]], [Some(0), None])
  }
}
