/** How the simulated models lay out their observations in groups:
    the per-group counts Nj, the exclusive prefix sums j_lim and the
    group label j_ind of every observation. The code is the same in
    both simulated models (m4b and m2). */
module GroupLayout {
  import opened Wrappers

  /** The `npg` argument: a constant number of observations per group,
      or an inclusive range [lo, hi] from which each count is drawn. */
  datatype Npg = Constant(n: nat) | Range(lo: nat, hi: nat)

  /** Total number of observations: np.sum(Nj). */
  function Sum(s: seq<nat>): nat
  {
    if s == [] then 0 else Sum(s[..|s| - 1]) + s[|s| - 1]
  }

  /** No group holds more than the total, and the total is 0 exactly
      when every group is empty. */
  lemma {:induction false} SumBounds(s: seq<nat>)
    ensures forall j :: 0 <= j < |s| ==> s[j] <= Sum(s)
    ensures Sum(s) == 0 <==> forall j :: 0 <= j < |s| ==> s[j] == 0
  {
    if s != [] {
      SumBounds(s[..|s| - 1]);
    }
  }

  /** The counts Nj. A range draw is `randint(lo, hi + 1, size=J)`; the
      j-th draw is supplied by `draw` and reduced into [lo, hi]. numpy
      refuses a range whose low end is not below its high end. */
  function GroupCounts(J: nat, npg: Npg, draw: nat -> nat): (r: Result<seq<nat>, string>)
    ensures r.Failure? <==> npg.Range? && npg.lo > npg.hi
    ensures r.Success? ==> |r.value| == J
    ensures r.Success? && npg.Range? ==>
      forall j :: 0 <= j < J ==> npg.lo <= r.value[j] <= npg.hi
    ensures r.Success? && npg.Constant? ==>
      forall j :: 0 <= j < J ==> r.value[j] == npg.n
  {
    match npg
    case Constant(n) => Success(seq(J, _ => n))
    case Range(lo, hi) =>
      if lo > hi then Failure("low >= high")
      else Success(seq(J, j requires 0 <= j => lo + draw(j) % (hi - lo + 1)))
  }

  /** j_lim: a leading 0 followed by the cumulative sums of Nj; it has
      J + 1 entries and ends at N. */
  function Limits(nj: seq<nat>): (lim: seq<nat>)
    ensures |lim| == |nj| + 1
    ensures lim[0] == 0 && lim[|nj|] == Sum(nj)
  {
    if nj == [] then [0]
    else Limits(nj[..|nj| - 1]) + [Sum(nj)]
  }

  /** Consecutive limits differ by the group's count. */
  lemma {:induction false} LimitsStep(nj: seq<nat>, j: nat)
    requires j < |nj|
    ensures Limits(nj)[j + 1] == Limits(nj)[j] + nj[j]
  {
    var front := nj[..|nj| - 1];
    if j < |front| {
      LimitsStep(front, j);
      assert front[j] == nj[j];
    }
  }

  /** The limits never decrease. */
  lemma {:induction false} LimitsMonotone(nj: seq<nat>, i: nat, k: nat)
    requires i <= k <= |nj|
    ensures Limits(nj)[i] <= Limits(nj)[k]
    decreases k - i
  {
    if i < k {
      LimitsMonotone(nj, i, k - 1);
      LimitsStep(nj, k - 1);
    }
  }

  /** `ind` gives every observation below N the group whose segment
      [lim[j], lim[j+1]) holds it. */
  ghost predicate IsLabelling(ind: seq<nat>, lim: seq<nat>)
    requires |lim| >= 1
  {
    && |ind| == lim[|lim| - 1]
    && (forall n :: 0 <= n < |ind| ==>
          ind[n] < |lim| - 1 && lim[ind[n]] <= n < lim[ind[n] + 1])
  }

  /** An observation lies in at most one segment. */
  lemma {:induction false} SegmentUnique(nj: seq<nat>, n: nat, a: nat, b: nat)
    requires a < |nj| && b < |nj|
    requires Limits(nj)[a] <= n < Limits(nj)[a + 1]
    requires Limits(nj)[b] <= n < Limits(nj)[b + 1]
    ensures a == b
  {
    if a < b {
      LimitsMonotone(nj, a + 1, b);
    } else if b < a {
      LimitsMonotone(nj, b + 1, a);
    }
  }

  /** j_ind[n] == j exactly when j_lim[j] <= n < j_lim[j+1]. */
  lemma {:induction false} LabellingIff(nj: seq<nat>, ind: seq<nat>, n: nat, j: nat)
    requires IsLabelling(ind, Limits(nj))
    requires n < |ind| && j < |nj|
    ensures ind[n] == j <==> Limits(nj)[j] <= n < Limits(nj)[j + 1]
  {
    if Limits(nj)[j] <= n < Limits(nj)[j + 1] {
      SegmentUnique(nj, n, ind[n], j);
    }
  }

  /** Labels are in [0, J) and never decrease along the observations. */
  lemma {:induction false} LabelsSorted(nj: seq<nat>, ind: seq<nat>, n: nat, m: nat)
    requires IsLabelling(ind, Limits(nj))
    requires n <= m < |ind|
    ensures ind[n] <= ind[m] < |nj|
  {
    if ind[m] < ind[n] {
      LimitsMonotone(nj, ind[m] + 1, ind[n]);
    }
  }

  /** Reference definition of j_ind: Nj[0] copies of 0, then Nj[1]
      copies of 1, and so on. */
  function Labels(nj: seq<nat>): (ind: seq<nat>)
    ensures |ind| == Sum(nj)
    ensures forall n :: 0 <= n < |ind| ==> ind[n] < |nj|
  {
    if nj == [] then []
    else Labels(nj[..|nj| - 1]) + seq(nj[|nj| - 1], _ => |nj| - 1)
  }

  /** The reference labels satisfy the segment characterisation. */
  lemma {:induction false} LabelsAreLabelling(nj: seq<nat>)
    ensures IsLabelling(Labels(nj), Limits(nj))
  {
    if nj != [] {
      var front := nj[..|nj| - 1];
      LabelsAreLabelling(front);
      assert Limits(nj)[..|nj|] == Limits(front);
    }
  }

  /** The characterisation determines j_ind completely. */
  lemma {:induction false} LabellingUnique(nj: seq<nat>, ind: seq<nat>, ind': seq<nat>)
    requires IsLabelling(ind, Limits(nj)) && IsLabelling(ind', Limits(nj))
    ensures ind == ind'
  {
    forall n | 0 <= n < |ind|
      ensures ind[n] == ind'[n]
    {
      SegmentUnique(nj, n, ind[n], ind'[n]);
    }
  }

  /** Group j holds exactly Nj[j] observations. */
  lemma {:induction false} LabelsCount(nj: seq<nat>, j: nat)
    requires j < |nj|
    ensures multiset(Labels(nj))[j] == nj[j]
  {
    var last := |nj| - 1;
    var front := nj[..last];
    var block := seq(nj[last], _ => last);
    assert Labels(nj) == Labels(front) + block;
    BlockCount(nj[last], last, j);
    if j < last {
      assert front[j] == nj[j];
      LabelsCount(front, j);
    } else {
      LabelsBelow(front, j);
    }
  }

  lemma {:induction false} LabelsBelow(nj: seq<nat>, j: nat)
    requires j >= |nj|
    ensures multiset(Labels(nj))[j] == 0
  {
    if nj != [] {
      var last := |nj| - 1;
      LabelsBelow(nj[..last], j);
      BlockCount(nj[last], last, j);
    }
  }

  lemma {:induction false} BlockCount(len: nat, v: nat, j: nat)
    ensures multiset(seq(len, _ => v))[j] == if j == v then len else 0
  {
    if len > 0 {
      BlockCount(len - 1, v, j);
      assert seq(len, _ => v) == seq(len - 1, _ => v) + [v];
    }
  }

  /** j_ind: an array of N labels filled one segment per group; the
      slice assignment `j_ind[j_lim[j]:j_lim[j+1]] = j` is the
      `forall` statement. */
  method LabelGroups(nj: seq<nat>, lim: seq<nat>) returns (ind: array<nat>)
    requires lim == Limits(nj)
    ensures ind.Length == Sum(nj)
    ensures forall n :: 0 <= n < ind.Length ==>
      ind[n] < |nj| && lim[ind[n]] <= n < lim[ind[n] + 1]
    ensures forall j, n :: 0 <= j < |nj| && lim[j] <= n < lim[j + 1] && n < ind.Length ==> ind[n] == j
    ensures ind[..] == Labels(nj)
  {
    var J := |nj|;
    ind := new nat[lim[J]];
    for j := 0 to J
      invariant lim[j] <= ind.Length
      invariant forall n :: 0 <= n < lim[j] ==>
        ind[n] < j && lim[ind[n]] <= n < lim[ind[n] + 1]
    {
      LimitsMonotone(nj, j + 1, J);
      LimitsStep(nj, j);
      FillSegment(ind, lim[j], lim[j + 1], j);
    }
    SegmentsAreLabels(nj, ind[..]);
  }

  /** The slice assignment `j_ind[lo:hi] = j`. */
  method FillSegment(ind: array<nat>, lo: nat, hi: nat, j: nat)
    requires lo <= hi <= ind.Length
    modifies ind
    ensures forall n :: 0 <= n < ind.Length ==> ind[n] == if lo <= n < hi then j else old(ind[n])
  {
    forall n | lo <= n < hi {
      ind[n] := j;
    }
  }

  /** Labels placed segment by segment are the reference labels, and each
      segment carries its group's label. */
  lemma {:induction false} SegmentsAreLabels(nj: seq<nat>, ind: seq<nat>)
    requires IsLabelling(ind, Limits(nj))
    ensures forall j, n :: 0 <= j < |nj| && Limits(nj)[j] <= n < Limits(nj)[j + 1] && n < |ind| ==> ind[n] == j
    ensures ind == Labels(nj)
  {
    var lim := Limits(nj);
    forall j, n | 0 <= j < |nj| && lim[j] <= n < lim[j + 1] && n < |ind|
      ensures ind[n] == j
    {
      SegmentUnique(nj, n, ind[n], j);
    }
    LabelsAreLabelling(nj);
    LabellingUnique(nj, ind, Labels(nj));
  }

  /** What simulate_data produces for the observation layout. */
  datatype Layout = Layout(nj: seq<nat>, lim: seq<nat>, ind: seq<nat>)

  /** `l` is a layout of J groups under `npg`: counts drawn as `npg`
      says, j_lim their prefix sums and j_ind the group labels. */
  ghost predicate IsLayout(J: nat, npg: Npg, l: Layout)
  {
    && |l.nj| == J
    && (forall j :: 0 <= j < J ==>
          match npg
          case Constant(n) => l.nj[j] == n
          case Range(lo, hi) => lo <= l.nj[j] <= hi)
    && l.lim == Limits(l.nj)
    && IsLabelling(l.ind, l.lim)
    && l.ind == Labels(l.nj)
  }
}
