/** The vector quantiser searches of ampexp.c, over exact reals.

    A vector entry of zero is absent.  vq_amp finds the codeword nearest to the entries that
    are present; gain_shape_vq_amp first adds to each codeword the gain that suits it best. */
module VectorQuantiser {

  // Where the running best starts: 1E32.
  const BIG: real := 100000000000000000000000000000000.0

  /** What a search leaves in its gain: untouched, 0/0 when no entry is present, or a number. */
  datatype Gain = Unset | NoNumber | Value(g: real)

  // Codeword j of a flat codebook of dimension d.
  function Word(cb: seq<real>, d: nat, j: nat): seq<real>
    requires (j + 1) * d <= |cb|
  {
    assert j * d <= (j + 1) * d;
    cb[j * d..(j + 1) * d]
  }

  // ---- Sums over the entries present among the first n ----

  function Present(v: seq<real>, n: nat): nat
    requires n <= |v|
  {
    if n == 0 then 0 else Present(v, n - 1) + if v[n - 1] != 0.0 then 1 else 0
  }

  function Sum(v: seq<real>, x: seq<real>, n: nat): real
    requires n <= |v| <= |x|
  {
    if n == 0 then 0.0 else Sum(v, x, n - 1) + if v[n - 1] != 0.0 then x[n - 1] else 0.0
  }

  function Times(a: real, b: real): real {
    a * b
  }

  function Square(x: real): real {
    Times(x, x)
  }

  /** What an entry of weight c and difference x adds at gain g. */
  function Term(c: real, x: real, g: real): real {
    Times(c, Square(x - g))
  }

  /** The squared error of word w with gain g. */
  function Error(v: seq<real>, w: seq<real>, g: real, n: nat): real
    requires n <= |v| <= |w|
  {
    if n == 0 then 0.0
    else Error(v, w, g, n - 1) + if v[n - 1] != 0.0 then Square(v[n - 1] - w[n - 1] - g) else 0.0
  }

  /** The same with each entry weighted: what a search minimises. */
  function Metric(v: seq<real>, w: seq<real>, weight: seq<real>, g: real, n: nat): real
    requires n <= |v| <= |w| && |v| <= |weight|
  {
    if n == 0 then 0.0
    else
      Metric(v, w, weight, g, n - 1)
      + if v[n - 1] != 0.0 then Term(weight[n - 1], v[n - 1] - w[n - 1], g) else 0.0
  }

  function BestGain(v: seq<real>, w: seq<real>): Gain
    requires |v| == |w|
  {
    var m := Present(v, |v|);
    if m == 0 then NoNumber else Value((Sum(v, v, |v|) - Sum(v, w, |v|)) / (m as real))
  }

  // ---- The gain is the best one ----

  // The error as a function of the gain, up to a constant: m entries whose differences sum to s.
  function Parabola(m: real, s: real, g: real): real {
    m * Square(g) - 2.0 * (g * s)
  }

  lemma ParabolaStep(m: real, s: real, x: real, g: real)
    ensures Parabola(m + 1.0, s + x, g) == Parabola(m, s, g) + Square(x - g) - Square(x)
  {
  }

  lemma {:induction false} ErrorIsParabola(v: seq<real>, w: seq<real>, g: real, n: nat)
    requires n <= |v| == |w|
    ensures Error(v, w, g, n)
         == Error(v, w, 0.0, n) + Parabola(Present(v, n) as real, Sum(v, v, n) - Sum(v, w, n), g)
  {
    if n == 0 {
    } else {
      ErrorIsParabola(v, w, g, n - 1);
      if v[n - 1] != 0.0 {
        var x := v[n - 1] - w[n - 1];
        ParabolaStep(Present(v, n - 1) as real, Sum(v, v, n - 1) - Sum(v, w, n - 1), x, g);
        assert x - 0.0 == x;
      }
    }
  }

  lemma TimesPositive(m: real, x: real)
    requires m > 0.0 && x >= 0.0
    ensures Times(m, x) >= 0.0
    ensures x > 0.0 ==> Times(m, x) > 0.0
  {
  }

  lemma SquarePositive(x: real)
    ensures Square(x) >= 0.0
    ensures x != 0.0 ==> Square(x) > 0.0
  {
    if x > 0.0 {
      TimesPositive(x, x);
    } else if x < 0.0 {
      TimesPositive(-x, -x);
      assert Times(-x, -x) == Times(x, x);
    }
  }

  lemma Vertex(m: real, s: real, o: real, g: real)
    requires m > 0.0 && s == m * o
    ensures Parabola(m, s, g) == Parabola(m, s, o) + m * Square(g - o)
  {
  }

  lemma VertexIsLowest(m: real, s: real, g: real)
    requires m > 0.0
    ensures Parabola(m, s, s / m) <= Parabola(m, s, g)
    ensures g != s / m ==> Parabola(m, s, s / m) < Parabola(m, s, g)
  {
    var o := s / m;
    assert s == m * o;
    Vertex(m, s, o, g);
    SquarePositive(g - o);
    TimesPositive(m, Square(g - o));
    assert Times(m, Square(g - o)) == m * Square(g - o);
  }

  /** With at least one entry present, the gain computed is the only minimiser of the plain
      squared error over all real gains. */
  lemma {:induction false} BestGainIsOptimal(v: seq<real>, w: seq<real>, g: real)
    requires |v| == |w| && Present(v, |v|) > 0
    ensures Error(v, w, BestGain(v, w).g, |v|) <= Error(v, w, g, |v|)
    ensures g != BestGain(v, w).g ==> Error(v, w, BestGain(v, w).g, |v|) < Error(v, w, g, |v|)
  {
    var n := |v|;
    ErrorIsParabola(v, w, g, n);
    ErrorIsParabola(v, w, BestGain(v, w).g, n);
    VertexIsLowest(Present(v, n) as real, Sum(v, v, n) - Sum(v, w, n), g);
  }

  // ---- The searches ----

  // The metric of the best word so far, which starts at BIG.
  function BestMetric(metrics: seq<real>, best: nat): real {
    if best < |metrics| && metrics[best] < BIG then metrics[best] else BIG
  }

  /** best is the first codeword whose metric is least and below BIG, or 0 if none is. */
  predicate IsFirstLeast(metrics: seq<real>, best: nat) {
    var m := BestMetric(metrics, best);
    && (forall j :: 0 <= j < |metrics| ==> m <= metrics[j])
    && (forall j :: 0 <= j < best && j < |metrics| ==> m < metrics[j])
    && (m == BIG ==> best == 0)
  }

  /** So if some metric lies below BIG, best is the index of the first least one. */
  lemma FirstLeastMeans(metrics: seq<real>, best: nat, j: nat)
    requires IsFirstLeast(metrics, best) && j < |metrics| && metrics[j] < BIG
    ensures best < |metrics| && metrics[best] < BIG
    ensures metrics[best] <= metrics[j] && (j < best ==> metrics[best] < metrics[j])
  {
  }

  lemma NoneBelow(metrics: seq<real>, best: nat)
    requires IsFirstLeast(metrics, best) && forall j :: 0 <= j < |metrics| ==> metrics[j] >= BIG
    ensures best == 0
  {
  }

  lemma NextCandidate(metrics: seq<real>, best: nat, m: real)
    requires IsFirstLeast(metrics, best)
    ensures var next := if m < BestMetric(metrics, best) then |metrics| else best;
            IsFirstLeast(metrics + [m], next)
            && BestMetric(metrics + [m], next) == if m < BestMetric(metrics, best) then m else BestMetric(metrics, best)
  {
  }

  function GainOr0(g: Gain): real {
    if g.Value? then g.g else 0.0
  }

  // The metric of word j of the codebook at its own best gain.
  function ShapeMetric(cb: seq<real>, v: seq<real>, weight: seq<real>, j: nat): real
    requires (j + 1) * |v| <= |cb| && |weight| == |v|
  {
    var w := Word(cb, |v|, j);
    Metric(v, w, weight, GainOr0(BestGain(v, w)), |v|)
  }

  lemma {:induction false} WordEntry(cb: seq<real>, d: nat, j: nat, i: nat)
    requires (j + 1) * d <= |cb| && i < d
    ensures 0 <= j * d + i < |cb| && cb[j * d + i] == Word(cb, d, j)[i]
  {
  }

  method ComputeGain(cb: seq<real>, v: seq<real>, j: nat) returns (gain: Gain)
    requires (j + 1) * |v| <= |cb|
    ensures gain == BestGain(v, Word(cb, |v|, j))
  {
    var d := |v|;
    ghost var w := Word(cb, d, j);
    var sumAm, sumCb, m := 0.0, 0.0, 0;
    for i := 0 to d
      invariant m == Present(v, i) && sumAm == Sum(v, v, i) && sumCb == Sum(v, w, i)
    {
      WordEntry(cb, d, j, i);
      if v[i] != 0.0 {
        m := m + 1;
        sumAm := sumAm + v[i];
        sumCb := sumCb + cb[j * d + i];
      }
    }
    gain := if m == 0 then NoNumber else Value((sumAm - sumCb) / (m as real));
  }

  method ComputeError(cb: seq<real>, v: seq<real>, weight: seq<real>, j: nat, gain: real)
    returns (error: real, metric: real)
    requires (j + 1) * |v| <= |cb| && |weight| == |v|
    ensures error == Error(v, Word(cb, |v|, j), gain, |v|)
    ensures metric == Metric(v, Word(cb, |v|, j), weight, gain, |v|)
  {
    var d := |v|;
    ghost var w := Word(cb, d, j);
    metric, error := 0.0, 0.0;
    for i := 0 to d
      invariant error == Error(v, w, gain, i) && metric == Metric(v, w, weight, gain, i)
    {
      WordEntry(cb, d, j, i);
      if v[i] != 0.0 {
        var diff := v[i] - cb[j * d + i] - gain;
        error := error + Times(diff, diff);
        metric := metric + weight[i] * Times(diff, diff);
      }
    }
  }

  lemma FitWord(e: nat, d: nat, j: nat)
    requires j < e
    ensures (j + 1) * d <= e * d
  {
  }

  function WordOf(cb: seq<real>, v: seq<real>, e: nat, j: nat): (w: seq<real>)
    requires e * |v| <= |cb| && j < e
    ensures |w| == |v|
  {
    FitWord(e, |v|, j);
    Word(cb, |v|, j)
  }

  /** The metric of codeword j at gain g. */
  function MetricOf(cb: seq<real>, v: seq<real>, weight: seq<real>, e: nat, j: nat, g: real): real
    requires e * |v| <= |cb| && |weight| == |v| && j < e
  {
    Metric(v, WordOf(cb, v, e, j), weight, g, |v|)
  }

  /** The metrics of the first n codewords, each at its own best gain. */
  function ShapeMetrics(cb: seq<real>, v: seq<real>, weight: seq<real>, n: nat): (r: seq<real>)
    requires n * |v| <= |cb| && |weight| == |v|
    ensures |r| == n
  {
    if n == 0 then []
    else
      FitWord(n, |v|, n - 1);
      assert (n - 1) * |v| <= n * |v|;
      ShapeMetrics(cb, v, weight, n - 1) + [ShapeMetric(cb, v, weight, n - 1)]
  }

  lemma {:induction false} ShapeMetricsAt(cb: seq<real>, v: seq<real>, weight: seq<real>, n: nat, j: nat)
    requires n * |v| <= |cb| && |weight| == |v| && j < n
    ensures (j + 1) * |v| <= |cb| && ShapeMetrics(cb, v, weight, n)[j] == ShapeMetric(cb, v, weight, j)
  {
    FitWord(n, |v|, j);
    FitWord(n, |v|, n - 1);
    if j < n - 1 {
      assert (n - 1) * |v| <= n * |v|;
      ShapeMetricsAt(cb, v, weight, n - 1, j);
    }
  }

  // The metric, weights included, of codeword j at the gain that the search computes for it.
  function MetricAtOwnGain(cb: seq<real>, v: seq<real>, weight: seq<real>, e: nat, j: nat): real
    requires e * |v| <= |cb| && |weight| == |v| && j < e
  {
    MetricOf(cb, v, weight, e, j, GainOr0(BestGain(v, WordOf(cb, v, e, j))))
  }

  /** If the metric of some codeword at its own gain lies below BIG, best is the first codeword
      for which it is least; if not, it is 0. */
  ghost predicate WinsAtOwnGain(cb: seq<real>, v: seq<real>, weight: seq<real>, e: nat, best: nat)
    requires e * |v| <= |cb| && |weight| == |v|
  {
    if exists j: nat :: j < e && MetricAtOwnGain(cb, v, weight, e, j) < BIG then
      && best < e
      && (forall j: nat :: j < e ==>
           && MetricAtOwnGain(cb, v, weight, e, best) <= MetricAtOwnGain(cb, v, weight, e, j)
           && (j < best ==> MetricAtOwnGain(cb, v, weight, e, best) < MetricAtOwnGain(cb, v, weight, e, j)))
    else best == 0
  }

  lemma {:induction false} FirstLeastWinsAtOwnGain(cb: seq<real>, v: seq<real>, weight: seq<real>, e: nat, best: nat)
    requires e * |v| <= |cb| && |weight| == |v| && IsFirstLeast(ShapeMetrics(cb, v, weight, e), best)
    ensures WinsAtOwnGain(cb, v, weight, e, best)
  {
    var metrics := ShapeMetrics(cb, v, weight, e);
    forall j: nat | j < e
      ensures metrics[j] == MetricAtOwnGain(cb, v, weight, e, j)
    {
      ShapeMetricsAt(cb, v, weight, e, j);
    }
    if j: nat :| j < e && MetricAtOwnGain(cb, v, weight, e, j) < BIG {
      FirstLeastMeans(metrics, best, j);
      forall l: nat | l < e
        ensures metrics[best] <= metrics[l] && (l < best ==> metrics[best] < metrics[l])
      {
        if metrics[l] < BIG {
          FirstLeastMeans(metrics, best, l);
        }
      }
    } else {
      NoneBelow(metrics, best);
    }
  }

  // The gain and the plain error of word j.
  predicate AtBestGain(cb: seq<real>, v: seq<real>, j: nat, gain: Gain, error: real) {
    && (j + 1) * |v| <= |cb|
    && gain == BestGain(v, Word(cb, |v|, j))
    && error == Error(v, Word(cb, |v|, j), GainOr0(gain), |v|)
  }

  /** Returns the first codeword with the least weighted error at its own best gain, that
      gain, and the plain error added to se.  If no metric lies below BIG: word 0, no gain,
      and BIG added. */
  method GainShapeVq(cb: seq<real>, v: seq<real>, weight: seq<real>, e: nat, se: real)
    returns (besti: nat, se': real, bestGain: Gain)
    requires e * |v| <= |cb| && |weight| == |v|
    ensures IsFirstLeast(ShapeMetrics(cb, v, weight, e), besti)
    ensures if BestMetric(ShapeMetrics(cb, v, weight, e), besti) < BIG
            then AtBestGain(cb, v, besti, bestGain, se' - se)
            else bestGain == Unset && se' == se + BIG
    ensures WinsAtOwnGain(cb, v, weight, e, besti)
  {
    besti, bestGain := 0, Unset;
    var bestMetric, bestError := BIG, BIG;
    for j := 0 to e
      invariant j * |v| <= e * |v|
      invariant IsFirstLeast(ShapeMetrics(cb, v, weight, j), besti)
      invariant bestMetric == BestMetric(ShapeMetrics(cb, v, weight, j), besti)
      invariant if bestMetric < BIG then AtBestGain(cb, v, besti, bestGain, bestError)
                else bestGain == Unset && bestError == BIG
    {
      FitWord(e, |v|, j);
      var gain := ComputeGain(cb, v, j);
      // Without an entry present the gain is not a number, and nothing is ever added.
      var error, metric := ComputeError(cb, v, weight, j, GainOr0(gain));
      NextCandidate(ShapeMetrics(cb, v, weight, j), besti, metric);
      if metric < bestMetric {
        bestError, bestMetric, bestGain, besti := error, metric, gain, j;
      }
    }
    FirstLeastWinsAtOwnGain(cb, v, weight, e, besti);
    se' := se + bestError;
  }

  // ---- The gain and the weighted metric ----

  /** The weighted sum of the differences between the vector and a word. */
  function Pull(v: seq<real>, w: seq<real>, weight: seq<real>, n: nat): real
    requires n <= |v| <= |w| && |v| <= |weight|
  {
    if n == 0 then 0.0
    else Pull(v, w, weight, n - 1) + if v[n - 1] != 0.0 then Times(weight[n - 1], v[n - 1] - w[n - 1]) else 0.0
  }

  lemma WeightedStep(m: real, s: real, c: real, x: real, g: real)
    ensures Parabola(m + c, s + c * x, g) == Parabola(m, s, g) + c * Square(x - g) - c * Square(x)
  {
  }

  lemma ParabolaGrows(metric: real, metric0: real, m: real, s: real, c: real, x: real, g: real)
    requires metric == metric0 + Parabola(m, s, g)
    ensures metric + Term(c, x, g) == metric0 + Term(c, x, 0.0) + Parabola(m + c, s + Times(c, x), g)
  {
    WeightedStep(m, s, c, x, g);
    assert x - 0.0 == x;
  }

  lemma {:induction false} MetricIsParabola(v: seq<real>, w: seq<real>, weight: seq<real>, g: real, n: nat)
    requires n <= |v| == |w| == |weight|
    ensures Metric(v, w, weight, g, n)
         == Metric(v, w, weight, 0.0, n) + Parabola(Sum(v, weight, n), Pull(v, w, weight, n), g)
  {
    if n == 0 {
    } else {
      MetricIsParabola(v, w, weight, g, n - 1);
      if v[n - 1] != 0.0 {
        ParabolaGrows(Metric(v, w, weight, g, n - 1), Metric(v, w, weight, 0.0, n - 1),
                      Sum(v, weight, n - 1), Pull(v, w, weight, n - 1), weight[n - 1], v[n - 1] - w[n - 1], g);
      }
    }
  }

  /** No gain gives word w a smaller metric than o. */
  ghost predicate NoBetterGain(v: seq<real>, w: seq<real>, weight: seq<real>, o: real)
    requires |v| == |w| == |weight|
  {
    forall g :: Metric(v, w, weight, o, |v|) <= Metric(v, w, weight, g, |v|)
  }

  /** The gain that suits the weighted metric: the weighted mean of the differences. */
  function WeightedGain(v: seq<real>, w: seq<real>, weight: seq<real>): real
    requires |v| == |w| == |weight| && Sum(v, weight, |v|) > 0.0
  {
    Pull(v, w, weight, |v|) / Sum(v, weight, |v|)
  }

  lemma {:induction false} WeightedGainIsLowest(v: seq<real>, w: seq<real>, weight: seq<real>, g: real)
    requires |v| == |w| == |weight| && Sum(v, weight, |v|) > 0.0
    ensures Metric(v, w, weight, WeightedGain(v, w, weight), |v|) <= Metric(v, w, weight, g, |v|)
    ensures g != WeightedGain(v, w, weight) ==>
              Metric(v, w, weight, WeightedGain(v, w, weight), |v|) < Metric(v, w, weight, g, |v|)
  {
    MetricIsParabola(v, w, weight, g, |v|);
    MetricIsParabola(v, w, weight, WeightedGain(v, w, weight), |v|);
    VertexIsLowest(Sum(v, weight, |v|), Pull(v, w, weight, |v|), g);
  }

  predicate IsMean(mean: real, total: real, weight: real) {
    total == weight * mean
  }

  lemma QuotientIsMean(o: real, s: real, m: real)
    requires m > 0.0
    ensures IsMean(o, s, m) <==> o == s / m
  {
    if s == m * o {
      assert o == m * o / m;
    }
  }

  /** Whatever the weights, as long as their total is positive, a gain is best for the metric
      exactly when the weighted sum of the differences is the total weight times that gain. */
  lemma {:induction false} GainIsBestIff(v: seq<real>, w: seq<real>, weight: seq<real>, o: real)
    requires |v| == |w| == |weight| && Sum(v, weight, |v|) > 0.0
    ensures NoBetterGain(v, w, weight, o) <==> IsMean(o, Pull(v, w, weight, |v|), Sum(v, weight, |v|))
  {
    QuotientIsMean(o, Pull(v, w, weight, |v|), Sum(v, weight, |v|));
    WeightedGainIsLowest(v, w, weight, o);
    if o == WeightedGain(v, w, weight) {
      forall g
        ensures Metric(v, w, weight, o, |v|) <= Metric(v, w, weight, g, |v|)
      {
        WeightedGainIsLowest(v, w, weight, g);
      }
    }
  }

  /** The weighted mean of the differences is their plain mean. */
  predicate Balanced(v: seq<real>, w: seq<real>, weight: seq<real>)
    requires |v| == |w| == |weight|
  {
    Present(v, |v|) > 0 && IsMean(BestGain(v, w).g, Pull(v, w, weight, |v|), Sum(v, weight, |v|))
  }

  /** In particular the gain the search computes is best for the metric it compares exactly
      when weighting does not change the mean of the differences. */
  lemma {:induction false} BestGainSuitsMetricIff(v: seq<real>, w: seq<real>, weight: seq<real>)
    requires |v| == |w| == |weight| && Present(v, |v|) > 0 && Sum(v, weight, |v|) > 0.0
    ensures NoBetterGain(v, w, weight, BestGain(v, w).g) <==> Balanced(v, w, weight)
  {
    GainIsBestIff(v, w, weight, BestGain(v, w).g);
  }

  /** All entries present have the same weight. */
  predicate CommonWeight(v: seq<real>, weight: seq<real>, c: real) {
    |v| == |weight| && forall i :: 0 <= i < |v| && v[i] != 0.0 ==> weight[i] == c
  }

  lemma TimesSum(c: real, x: real, y: real)
    ensures Times(c, x + y) == Times(c, x) + Times(c, y)
  {
  }

  lemma {:induction false} CommonSums(v: seq<real>, w: seq<real>, weight: seq<real>, c: real, n: nat)
    requires n <= |v| == |w| && CommonWeight(v, weight, c)
    ensures Sum(v, weight, n) == Times(c, Present(v, n) as real)
    ensures Pull(v, w, weight, n) == Times(c, Sum(v, v, n) - Sum(v, w, n))
  {
    if n == 0 {
    } else {
      CommonSums(v, w, weight, c, n - 1);
      TimesSum(c, Present(v, n - 1) as real, 1.0);
      TimesSum(c, Sum(v, v, n - 1) - Sum(v, w, n - 1), v[n - 1] - w[n - 1]);
    }
  }

  lemma ScaledMean(c: real, s: real, m: real)
    requires m > 0.0
    ensures IsMean(s / m, Times(c, s), Times(c, m))
  {
    var o := s / m;
    assert s == m * o;
    assert c * (m * o) == (c * m) * o;
  }

  /** A common weight never changes the mean. */
  lemma {:induction false} CommonIsBalanced(v: seq<real>, w: seq<real>, weight: seq<real>, c: real)
    requires |v| == |w| && CommonWeight(v, weight, c) && c > 0.0 && Present(v, |v|) > 0
    ensures Sum(v, weight, |v|) > 0.0 && Balanced(v, w, weight)
  {
    var m := Present(v, |v|) as real;
    CommonSums(v, w, weight, c, |v|);
    TimesPositive(c, m);
    ScaledMean(c, Sum(v, v, |v|) - Sum(v, w, |v|), m);
  }

  /** No codeword at any gain has a metric below m. */
  ghost predicate NothingBelow(cb: seq<real>, v: seq<real>, weight: seq<real>, e: nat, m: real)
    requires e * |v| <= |cb| && |weight| == |v|
  {
    forall j: nat, g: real :: j < e ==> m <= MetricOf(cb, v, weight, e, j, g)
  }

  lemma {:induction false} BestMetricIs(cb: seq<real>, v: seq<real>, weight: seq<real>, e: nat, best: nat, j: nat)
    requires e * |v| <= |cb| && |weight| == |v| && j < e && Present(v, |v|) > 0
    requires IsFirstLeast(ShapeMetrics(cb, v, weight, e), best)
    ensures BestMetric(ShapeMetrics(cb, v, weight, e), best)
         <= MetricOf(cb, v, weight, e, j, BestGain(v, WordOf(cb, v, e, j)).g)
  {
    ShapeMetricsAt(cb, v, weight, e, j);
    assert ShapeMetrics(cb, v, weight, e)[j] >= BestMetric(ShapeMetrics(cb, v, weight, e), best);
  }

  /** The least metric of codeword j over all gains. */
  function LeastMetric(cb: seq<real>, v: seq<real>, weight: seq<real>, e: nat, j: nat): real
    requires e * |v| <= |cb| && |weight| == |v| && j < e && Sum(v, weight, |v|) > 0.0
  {
    MetricOf(cb, v, weight, e, j, WeightedGain(v, WordOf(cb, v, e, j), weight))
  }

  lemma {:induction false} NothingBelowIff(cb: seq<real>, v: seq<real>, weight: seq<real>, e: nat, m: real)
    requires e * |v| <= |cb| && |weight| == |v| && Sum(v, weight, |v|) > 0.0
    ensures NothingBelow(cb, v, weight, e, m) <==> forall j: nat :: j < e ==> m <= LeastMetric(cb, v, weight, e, j)
  {
    if forall j: nat :: j < e ==> m <= LeastMetric(cb, v, weight, e, j) {
      forall j: nat, g: real | j < e
        ensures m <= MetricOf(cb, v, weight, e, j, g)
      {
        WeightedGainIsLowest(v, WordOf(cb, v, e, j), weight, g);
        assert m <= LeastMetric(cb, v, weight, e, j);
      }
    }
    if NothingBelow(cb, v, weight, e, m) {
      forall j: nat | j < e
        ensures m <= LeastMetric(cb, v, weight, e, j)
      {
        var g := WeightedGain(v, WordOf(cb, v, e, j), weight);
        assert m <= MetricOf(cb, v, weight, e, j, g);
      }
    }
  }

  /** Codeword j is balanced, and no codeword at its own weighted mean beats it there. */
  ghost predicate BalancedWinner(cb: seq<real>, v: seq<real>, weight: seq<real>, e: nat, j: nat)
    requires e * |v| <= |cb| && |weight| == |v| && j < e && Sum(v, weight, |v|) > 0.0
  {
    && Balanced(v, WordOf(cb, v, e, j), weight)
    && forall l: nat :: l < e ==> LeastMetric(cb, v, weight, e, j) <= LeastMetric(cb, v, weight, e, l)
  }

  // A balanced word's own gain is its weighted mean.
  lemma {:induction false} BalancedGain(v: seq<real>, w: seq<real>, weight: seq<real>)
    requires |v| == |w| == |weight| && Sum(v, weight, |v|) > 0.0 && Present(v, |v|) > 0
    ensures Balanced(v, w, weight) <==> BestGain(v, w).g == WeightedGain(v, w, weight)
  {
    QuotientIsMean(BestGain(v, w).g, Pull(v, w, weight, |v|), Sum(v, weight, |v|));
  }

  lemma {:induction false} FoundMetric(cb: seq<real>, v: seq<real>, weight: seq<real>, e: nat, best: nat)
    requires e * |v| <= |cb| && |weight| == |v| && Present(v, |v|) > 0
    requires BestMetric(ShapeMetrics(cb, v, weight, e), best) < BIG
    ensures best < e
    ensures BestMetric(ShapeMetrics(cb, v, weight, e), best)
         == MetricOf(cb, v, weight, e, best, BestGain(v, WordOf(cb, v, e, best)).g)
  {
    ShapeMetricsAt(cb, v, weight, e, best);
  }

  lemma {:induction false} WinnerIsEnough(cb: seq<real>, v: seq<real>, weight: seq<real>, e: nat, best: nat, j: nat)
    requires e * |v| <= |cb| && |weight| == |v| && Present(v, |v|) > 0 && Sum(v, weight, |v|) > 0.0 && j < e
    requires IsFirstLeast(ShapeMetrics(cb, v, weight, e), best) && BalancedWinner(cb, v, weight, e, j)
    ensures NothingBelow(cb, v, weight, e, BestMetric(ShapeMetrics(cb, v, weight, e), best))
  {
    var m := BestMetric(ShapeMetrics(cb, v, weight, e), best);
    BestMetricIs(cb, v, weight, e, best, j);
    BalancedGain(v, WordOf(cb, v, e, j), weight);
    assert m <= LeastMetric(cb, v, weight, e, j);
    forall l: nat | l < e
      ensures m <= LeastMetric(cb, v, weight, e, l)
    {
      assert LeastMetric(cb, v, weight, e, j) <= LeastMetric(cb, v, weight, e, l);
    }
    NothingBelowIff(cb, v, weight, e, m);
  }

  lemma {:induction false} FoundIsWinner(cb: seq<real>, v: seq<real>, weight: seq<real>, e: nat, best: nat)
    requires e * |v| <= |cb| && |weight| == |v| && Present(v, |v|) > 0 && Sum(v, weight, |v|) > 0.0
    requires BestMetric(ShapeMetrics(cb, v, weight, e), best) < BIG
    requires NothingBelow(cb, v, weight, e, BestMetric(ShapeMetrics(cb, v, weight, e), best))
    ensures best < e && BalancedWinner(cb, v, weight, e, best)
  {
    FoundMetric(cb, v, weight, e, best);
    var w, m := WordOf(cb, v, e, best), BestMetric(ShapeMetrics(cb, v, weight, e), best);
    forall g
      ensures Metric(v, w, weight, BestGain(v, w).g, |v|) <= Metric(v, w, weight, g, |v|)
    {
      assert m <= MetricOf(cb, v, weight, e, best, g);
    }
    BestGainSuitsMetricIff(v, w, weight);
    BalancedGain(v, w, weight);
    NothingBelowIff(cb, v, weight, e, m);
  }

  /** What the search finds, word and gain together, is the best of all words at all gains
      exactly when the codebook has a balanced word that beats every word at its weighted mean
      difference: a condition on the input alone. */
  lemma {:induction false} JointlyOptimalIff(cb: seq<real>, v: seq<real>, weight: seq<real>, e: nat, best: nat)
    requires e * |v| <= |cb| && |weight| == |v| && Present(v, |v|) > 0 && Sum(v, weight, |v|) > 0.0
    requires IsFirstLeast(ShapeMetrics(cb, v, weight, e), best)
    requires BestMetric(ShapeMetrics(cb, v, weight, e), best) < BIG
    ensures NothingBelow(cb, v, weight, e, BestMetric(ShapeMetrics(cb, v, weight, e), best))
       <==> exists j: nat :: j < e && BalancedWinner(cb, v, weight, e, j)
  {
    if NothingBelow(cb, v, weight, e, BestMetric(ShapeMetrics(cb, v, weight, e), best)) {
      FoundIsWinner(cb, v, weight, e, best);
    }
    if exists j: nat :: j < e && BalancedWinner(cb, v, weight, e, j) {
      var j: nat :| j < e && BalancedWinner(cb, v, weight, e, j);
      WinnerIsEnough(cb, v, weight, e, best, j);
    }
  }

  /** So it is when every codeword is balanced. */
  lemma {:induction false} JointlyOptimal(cb: seq<real>, v: seq<real>, weight: seq<real>, e: nat, best: nat)
    requires e * |v| <= |cb| && |weight| == |v| && Sum(v, weight, |v|) > 0.0 && Present(v, |v|) > 0
    requires forall j: nat :: j < e ==> Balanced(v, WordOf(cb, v, e, j), weight)
    requires IsFirstLeast(ShapeMetrics(cb, v, weight, e), best)
    ensures NothingBelow(cb, v, weight, e, BestMetric(ShapeMetrics(cb, v, weight, e), best))
  {
    forall j: nat, g: real | j < e
      ensures BestMetric(ShapeMetrics(cb, v, weight, e), best) <= MetricOf(cb, v, weight, e, j, g)
    {
      var w := WordOf(cb, v, e, j);
      BestMetricIs(cb, v, weight, e, best, j);
      BestGainSuitsMetricIff(v, w, weight);
      assert Metric(v, w, weight, BestGain(v, w).g, |v|) <= Metric(v, w, weight, g, |v|);
    }
  }

  lemma {:induction false} MetricIsScaledError(v: seq<real>, w: seq<real>, weight: seq<real>, c: real, g: real, n: nat)
    requires n <= |v| == |w| && CommonWeight(v, weight, c)
    ensures Metric(v, w, weight, g, n) == Times(c, Error(v, w, g, n))
  {
    if n == 0 {
    } else {
      MetricIsScaledError(v, w, weight, c, g, n - 1);
      TimesSum(c, Error(v, w, g, n - 1), Square(v[n - 1] - w[n - 1] - g));
    }
  }

  lemma TimesCancels(c: real, x: real, y: real)
    requires c > 0.0 && Times(c, x) <= Times(c, y)
    ensures x <= y
  {
    if x > y {
      TimesPositive(c, x - y);
      TimesSum(c, x - y, y);
    }
  }

  /** And hence with one positive weight common to all entries present: then the codeword
      found, at its gain, also has the least plain error of all words at all gains. */
  lemma {:induction false} CommonWeightOptimal(cb: seq<real>, v: seq<real>, weight: seq<real>, e: nat,
                                               best: nat, c: real)
    requires e * |v| <= |cb| && CommonWeight(v, weight, c) && c > 0.0 && Present(v, |v|) > 0
    requires IsFirstLeast(ShapeMetrics(cb, v, weight, e), best)
    ensures NothingBelow(cb, v, weight, e, BestMetric(ShapeMetrics(cb, v, weight, e), best))
    ensures BestMetric(ShapeMetrics(cb, v, weight, e), best) < BIG ==>
              && best < e
              && var b := WordOf(cb, v, e, best);
                 forall j: nat, g: real :: j < e ==>
                   Error(v, b, BestGain(v, b).g, |v|) <= Error(v, WordOf(cb, v, e, j), g, |v|)
  {
    var m := BestMetric(ShapeMetrics(cb, v, weight, e), best);
    forall j: nat | j < e
      ensures Balanced(v, WordOf(cb, v, e, j), weight)
    {
      CommonIsBalanced(v, WordOf(cb, v, e, j), weight, c);
    }
    CommonIsBalanced(v, v, weight, c);
    JointlyOptimal(cb, v, weight, e, best);
    if m < BIG {
      var b := WordOf(cb, v, e, best);
      ShapeMetricsAt(cb, v, weight, e, best);
      MetricIsScaledError(v, b, weight, c, BestGain(v, b).g, |v|);
      forall j: nat, g: real | j < e
        ensures Error(v, b, BestGain(v, b).g, |v|) <= Error(v, WordOf(cb, v, e, j), g, |v|)
      {
        MetricIsScaledError(v, WordOf(cb, v, e, j), weight, c, g, |v|);
        assert m <= MetricOf(cb, v, weight, e, j, g);
        TimesCancels(c, Error(v, b, BestGain(v, b).g, |v|), Error(v, WordOf(cb, v, e, j), g, |v|));
      }
    }
  }

  lemma TimesIs(a: real, b: real, product: real)
    requires a * b == product
    ensures Times(a, b) == product
  {
  }

  lemma SumOfTwo(v: seq<real>, x: seq<real>)
    requires |v| == |x| == 2 && v[0] != 0.0 && v[1] != 0.0
    ensures Sum(v, x, 2) == x[0] + x[1]
  {
    assert Sum(v, x, 0) == 0.0;
    assert Sum(v, x, 1) == Sum(v, x, 0) + x[0];
  }

  lemma {:induction false} SumsOfTwo(v: seq<real>, w: seq<real>, weight: seq<real>)
    requires |v| == |w| == |weight| == 2 && v[0] != 0.0 && v[1] != 0.0
    ensures Present(v, 2) == 2
    ensures Sum(v, v, 2) == v[0] + v[1] && Sum(v, w, 2) == w[0] + w[1] && Sum(v, weight, 2) == weight[0] + weight[1]
    ensures Pull(v, w, weight, 2) == Times(weight[0], v[0] - w[0]) + Times(weight[1], v[1] - w[1])
  {
    assert Present(v, 1) == Present(v, 0) + 1;
    SumOfTwo(v, v);
    SumOfTwo(v, w);
    SumOfTwo(v, weight);
    assert Pull(v, w, weight, 0) == 0.0;
    assert Pull(v, w, weight, 1) == Pull(v, w, weight, 0) + Times(weight[0], v[0] - w[0]);
  }

  /** Unbalanced weights do occur: the gain takes no account of them, so another gain can give
      the same codeword a smaller metric. */
  lemma {:induction false} GainIgnoresWeights(v: seq<real>, w: seq<real>, weight: seq<real>)
    requires v == [1.0, 3.0] && w == [0.0, 0.0] && weight == [1.0, 3.0]
    ensures BestGain(v, w) == Value(2.0) && !Balanced(v, w, weight)
    ensures Metric(v, w, weight, 2.5, 2) < Metric(v, w, weight, 2.0, 2)
  {
    SumsOfTwo(v, w, weight);
    TimesIs(1.0, 1.0, 1.0);
    TimesIs(3.0, 3.0, 9.0);
    assert WeightedGain(v, w, weight) == 2.5;
    WeightedGainIsLowest(v, w, weight, 2.0);
  }

  // ---- Without a gain, and splitting ----

  function PlainMetrics(cb: seq<real>, v: seq<real>, weight: seq<real>, n: nat): (r: seq<real>)
    requires n * |v| <= |cb| && |weight| == |v|
    ensures |r| == n
  {
    if n == 0 then []
    else
      FitWord(n, |v|, n - 1);
      assert (n - 1) * |v| <= n * |v|;
      PlainMetrics(cb, v, weight, n - 1) + [Metric(v, Word(cb, |v|, n - 1), weight, 0.0, |v|)]
  }

  lemma {:induction false} PlainMetricsAt(cb: seq<real>, v: seq<real>, weight: seq<real>, e: nat, n: nat, j: nat)
    requires n <= e && e * |v| <= |cb| && n * |v| <= |cb| && |weight| == |v| && j < n
    ensures PlainMetrics(cb, v, weight, n)[j] == MetricOf(cb, v, weight, e, j, 0.0)
  {
    FitWord(n, |v|, n - 1);
    if j == n - 1 {
    } else {
      assert (n - 1) * |v| <= n * |v|;
      PlainMetricsAt(cb, v, weight, e, n - 1, j);
    }
  }

  /** If the weighted error of some codeword lies below BIG, best is the first codeword whose
      weighted error is least; if not, it is 0. */
  ghost predicate WinsWeighted(cb: seq<real>, v: seq<real>, weight: seq<real>, e: nat, best: nat)
    requires e * |v| <= |cb| && |weight| == |v|
  {
    if exists j: nat :: j < e && MetricOf(cb, v, weight, e, j, 0.0) < BIG then
      && best < e
      && (forall j: nat :: j < e ==>
           && MetricOf(cb, v, weight, e, best, 0.0) <= MetricOf(cb, v, weight, e, j, 0.0)
           && (j < best ==> MetricOf(cb, v, weight, e, best, 0.0) < MetricOf(cb, v, weight, e, j, 0.0)))
    else best == 0
  }

  lemma {:induction false} FirstLeastWinsWeighted(cb: seq<real>, v: seq<real>, weight: seq<real>, e: nat, best: nat)
    requires e * |v| <= |cb| && |weight| == |v| && IsFirstLeast(PlainMetrics(cb, v, weight, e), best)
    ensures WinsWeighted(cb, v, weight, e, best)
  {
    var metrics := PlainMetrics(cb, v, weight, e);
    forall j: nat | j < e
      ensures metrics[j] == MetricOf(cb, v, weight, e, j, 0.0)
    {
      PlainMetricsAt(cb, v, weight, e, e, j);
    }
    if j: nat :| j < e && MetricOf(cb, v, weight, e, j, 0.0) < BIG {
      FirstLeastMeans(metrics, best, j);
      forall l: nat | l < e
        ensures metrics[best] <= metrics[l] && (l < best ==> metrics[best] < metrics[l])
      {
        if metrics[l] < BIG {
          FirstLeastMeans(metrics, best, l);
        }
      }
    } else {
      NoneBelow(metrics, best);
    }
  }

  // The plain error of word j.
  predicate HasError(cb: seq<real>, v: seq<real>, j: nat, error: real) {
    (j + 1) * |v| <= |cb| && error == Error(v, Word(cb, |v|, j), 0.0, |v|)
  }

  /** Returns the first codeword with the least weighted error; adds its plain error to se. */
  method Vq(cb: seq<real>, v: seq<real>, weight: seq<real>, e: nat, se: real) returns (besti: nat, se': real)
    requires e * |v| <= |cb| && |weight| == |v|
    ensures IsFirstLeast(PlainMetrics(cb, v, weight, e), besti)
    ensures if BestMetric(PlainMetrics(cb, v, weight, e), besti) < BIG then HasError(cb, v, besti, se' - se)
            else se' == se + BIG
    ensures WinsWeighted(cb, v, weight, e, besti)
  {
    besti := 0;
    var bestMetric, bestError := BIG, BIG;
    for j := 0 to e
      invariant j * |v| <= e * |v|
      invariant IsFirstLeast(PlainMetrics(cb, v, weight, j), besti)
      invariant bestMetric == BestMetric(PlainMetrics(cb, v, weight, j), besti)
      invariant if bestMetric < BIG then HasError(cb, v, besti, bestError) else bestError == BIG
    {
      FitWord(e, |v|, j);
      // vq_amp takes the difference the other way round, which its square forgets.
      var error, metric := ComputeError(cb, v, weight, j, 0.0);
      NextCandidate(PlainMetrics(cb, v, weight, j), besti, metric);
      if metric < bestMetric {
        bestError, bestMetric, besti := error, metric, j;
      }
    }
    FirstLeastWinsWeighted(cb, v, weight, e, besti);
    se' := se + bestError;
  }

  lemma {:induction false} MetricOfTwo(v: seq<real>, w: seq<real>, weight: seq<real>, g: real)
    requires |v| == |w| == |weight| == 2 && v[0] != 0.0 && v[1] != 0.0
    ensures Metric(v, w, weight, g, 2) == Term(weight[0], v[0] - w[0], g) + Term(weight[1], v[1] - w[1], g)
    ensures Error(v, w, g, 2) == Square(v[0] - w[0] - g) + Square(v[1] - w[1] - g)
  {
    assert Metric(v, w, weight, g, 0) == 0.0;
    assert Metric(v, w, weight, g, 1) == Metric(v, w, weight, g, 0) + Term(weight[0], v[0] - w[0], g);
    assert Error(v, w, g, 0) == 0.0;
    assert Error(v, w, g, 1) == Error(v, w, g, 0) + Square(v[0] - w[0] - g);
  }

  lemma TermIs(c: real, x: real, d: real, term: real)
    requires x == d && c * (d * d) == term
    ensures Term(c, x, 0.0) == term
  {
  }

  lemma SquareIs(x: real, d: real, square: real)
    requires x - 0.0 == d && d * d == square
    ensures Square(x - 0.0) == square
  {
  }

  // Word 0 misses the second entry by 1, word 1 the first by 2.
  lemma {:induction false} NearMetric(v: seq<real>, w: seq<real>, weight: seq<real>)
    requires v == [1.0, 1.0] && w == [1.0, 2.0] && weight == [1.0, 100.0]
    ensures Metric(v, w, weight, 0.0, 2) == 100.0 && Error(v, w, 0.0, 2) == 1.0
  {
    MetricOfTwo(v, w, weight, 0.0);
    TermIs(weight[0], v[0] - w[0], 0.0, 0.0);
    TermIs(weight[1], v[1] - w[1], -1.0, 100.0);
    SquareIs(v[0] - w[0], 0.0, 0.0);
    SquareIs(v[1] - w[1], -1.0, 1.0);
  }

  lemma {:induction false} FarMetric(v: seq<real>, w: seq<real>, weight: seq<real>)
    requires v == [1.0, 1.0] && w == [3.0, 1.0] && weight == [1.0, 100.0]
    ensures Metric(v, w, weight, 0.0, 2) == 4.0 && Error(v, w, 0.0, 2) == 4.0
  {
    MetricOfTwo(v, w, weight, 0.0);
    TermIs(weight[0], v[0] - w[0], -2.0, 4.0);
    TermIs(weight[1], v[1] - w[1], 0.0, 0.0);
    SquareIs(v[0] - w[0], -2.0, 4.0);
    SquareIs(v[1] - w[1], 0.0, 0.0);
  }

  lemma TwoWords(cb: seq<real>, v: seq<real>)
    requires |cb| == 4 && |v| == 2
    ensures WordOf(cb, v, 2, 0) == [cb[0], cb[1]] && WordOf(cb, v, 2, 1) == [cb[2], cb[3]]
  {
  }

  /** The weights decide: word 0 is nearer, yet the search returns word 1, whose weighted error
      is smaller. */
  lemma {:induction false} WeightsDecide(cb: seq<real>, v: seq<real>, weight: seq<real>, best: nat)
    requires cb == [1.0, 2.0, 3.0, 1.0] && v == [1.0, 1.0] && weight == [1.0, 100.0]
    requires WinsWeighted(cb, v, weight, 2, best)
    ensures Error(v, WordOf(cb, v, 2, 0), 0.0, 2) < Error(v, WordOf(cb, v, 2, 1), 0.0, 2)
    ensures best == 1
  {
    TwoWords(cb, v);
    NearMetric(v, WordOf(cb, v, 2, 0), weight);
    FarMetric(v, WordOf(cb, v, 2, 1), weight);
    assert MetricOf(cb, v, weight, 2, 0, 0.0) == 100.0 && MetricOf(cb, v, weight, 2, 1, 0.0) == 4.0;
  }

  // ---- Splitting ----

  // Takes w out of the input and puts it into the output at offset, wherever the input is present.
  method MoveWord(in': array<real>, out: array<real>, w: seq<real>, offset: nat) returns (moved: nat)
    requires offset + |w| <= in'.Length == out.Length && in' != out
    modifies in', out
    ensures moved == Present(old(in'[offset..offset + |w|]), |w|)
    ensures forall j :: offset <= j < offset + |w| && old(in'[j]) != 0.0 ==>
              in'[j] == old(in'[j]) - w[j - offset] && out[j] == old(out[j]) + w[j - offset]
    ensures forall j :: offset <= j < offset + |w| && old(in'[j]) == 0.0 ==>
              in'[j] == old(in'[j]) && out[j] == old(out[j])
    ensures forall j :: 0 <= j < in'.Length && !(offset <= j < offset + |w|) ==>
              in'[j] == old(in'[j]) && out[j] == old(out[j])
  {
    ghost var band := in'[offset..offset + |w|];
    moved := 0;
    for i := 0 to |w|
      invariant moved == Present(band, i)
      invariant forall j :: offset <= j < offset + i && old(in'[j]) != 0.0 ==>
                  in'[j] == old(in'[j]) - w[j - offset] && out[j] == old(out[j]) + w[j - offset]
      invariant forall j :: offset <= j < offset + i && old(in'[j]) == 0.0 ==>
                  in'[j] == old(in'[j]) && out[j] == old(out[j])
      invariant forall j :: 0 <= j < in'.Length && !(offset <= j < offset + i) ==>
                  in'[j] == old(in'[j]) && out[j] == old(out[j])
    {
      if in'[offset + i] != 0.0 {
        in'[offset + i] := in'[offset + i] - w[i];
        out[offset + i] := out[offset + i] + w[i];
        moved := moved + 1;
      }
    }
  }

  lemma WinnerIsOne(cb: seq<real>, v: seq<real>, weight: seq<real>, m: nat, index: nat)
    requires 1 <= m && m * |v| <= |cb| && |weight| == |v| && WinsWeighted(cb, v, weight, m, index)
    ensures index < m
  {
  }

  method BestWord(cb: seq<real>, v: seq<real>, weight: seq<real>, m: nat) returns (index: nat, w: seq<real>)
    requires 1 <= m && m * |v| <= |cb| && |weight| == |v|
    ensures WinsWeighted(cb, v, weight, m, index) && index < m && w == WordOf(cb, v, m, index)
  {
    var se := 0.0;
    index, se := Vq(cb, v, weight, m, se);
    WinnerIsOne(cb, v, weight, m, index);
    w := WordOf(cb, v, m, index);
  }

  /** Moves the codeword with the least weighted error from the input to the output, entry by
      entry where the input is present, and changes nothing else. */
  method SplitVq(in': array<real>, out: array<real>, cb: seq<real>, weight: seq<real>, offset: nat, k: nat, m: nat)
    returns (index: nat, moved: nat, ghost word: seq<real>)
    requires offset + k <= in'.Length == out.Length == |weight| && in' != out
    requires 1 <= m && m * k <= |cb|
    modifies in', out
    ensures WinsWeighted(cb, old(in'[offset..offset + k]), weight[offset..offset + k], m, index)
    ensures index < m && word == WordOf(cb, old(in'[offset..offset + k]), m, index)
    ensures moved == Present(old(in'[offset..offset + k]), k)
    ensures forall j :: offset <= j < offset + k && old(in'[j]) != 0.0 ==>
              in'[j] == old(in'[j]) - word[j - offset] && out[j] == old(out[j]) + word[j - offset]
    ensures forall j :: offset <= j < offset + k && old(in'[j]) == 0.0 ==>
              in'[j] == old(in'[j]) && out[j] == old(out[j])
    ensures forall j :: 0 <= j < in'.Length && !(offset <= j < offset + k) ==>
              in'[j] == old(in'[j]) && out[j] == old(out[j])
  {
    var w;
    index, w := BestWord(cb, in'[offset..offset + k], weight[offset..offset + k], m);
    word := w;
    moved := MoveWord(in', out, w, offset);
  }

  function Energy(x: seq<real>, n: nat): real
    requires n <= |x|
  {
    if n == 0 then 0.0 else Energy(x, n - 1) + Square(x[n - 1])
  }

  lemma SquareOfZero()
    ensures Square(0.0) == 0.0
  {
  }

  /** What stays in the band is the coding residue: its energy is the plain error of the word. */
  lemma {:induction false} ResidueEnergy(v: seq<real>, w: seq<real>, residue: seq<real>, n: nat)
    requires n <= |v| == |w| == |residue|
    requires forall j :: 0 <= j < |v| ==> residue[j] == if v[j] != 0.0 then v[j] - w[j] else v[j]
    ensures Energy(residue, n) == Error(v, w, 0.0, n)
  {
    if n == 0 {
    } else {
      ResidueEnergy(v, w, residue, n - 1);
      SquareOfZero();
    }
  }
}
