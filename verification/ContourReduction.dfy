/** The greedy reduction of SegmentAgg with the line fit of LineFit as its error, as `quad_segment_agg` calls `fit_line`
    (Robot/apriltags/apriltag_quad_thresh.c): for the mean squared error. */
module ContourReduction {
  import opened FiniteSets
  import opened LineFit
  import opened SegmentAgg

  predicate CanFit(lfps: seq<Moments>, i0: nat, i1: nat) {
    i0 < |lfps| && i1 < |lfps| && i0 != i1 && WindowSum(lfps, i0, i1).w != 0.0
  }

  /** The error of each pair of different indices is the least mean squared distance from a line. */
  ghost predicate IsLeastFit(ps: seq<Sample>, fit: Fit) {
    forall a: nat, b: nat | a < |ps| && b < |ps| && a != b ::
      fit.requires(a, b) && IsLeastError(Window(ps, a, b), fit(a, b))
  }

  /** Reduces a weighted contour to four vertices. Each step drops a vertex of least merge error: the weighted mean
      of the squared distances of the points between its two neighbours from the line for which that is least.
      No line is fitted between equal indices. */
  method ReduceContour(ps: seq<Sample>, f: Trig)
    returns (res: bool, indices: seq<nat>, ghost trace: seq<set<nat>>, ghost fit: Fit)
    requires |ps| >= 4 && Weighted(ps) && IsTrig(f)
    ensures IsLeastFit(ps, fit) && res && GreedyRun(fit, |ps|, trace) && |trace| == |ps| - 3
    ensures |indices| == 4 && (forall j, k | 0 <= j < k < 4 :: indices[j] < indices[k])
    ensures forall i :: i in indices <==> i in trace[|trace| - 1]
  {
    hide Cumulative, Weighted, IsTrig, IsLeastError, WindowSum, FitError, Window, GreedyRun;
    var table := Cumulate(ps);
    var lfps := table[..];
    CumulativeSize(ps, lfps);
    var error: Fit := (i0: nat, i1: nat) requires CanFit(lfps, i0, i1) => FitError(lfps, f, i0, i1);
    forall a: nat, b: nat | a < |ps| && b < |ps| && a != b
      ensures error.requires(a, b) && IsLeastError(Window(ps, a, b), error(a, b))
    {
      FitErrorIsLeast(lfps, a, b, f, ps);
    }
    fit := error;
    res, indices, trace := QuadSegmentAgg(|ps|, error);
  }

  lemma {:induction false} CumulativeSize(ps: seq<Sample>, lfps: seq<Moments>)
    requires Cumulative(ps, lfps)
    ensures |lfps| == |ps|
  {}
}
