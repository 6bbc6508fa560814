/** The anomaly detectors of src/detectors.py: the rolling z-score over exact
    reals, and the gap filling that precedes the isolation forest, whose
    fitting and prediction are an oracle supplied by the caller. */
module Detectors {
  import opened Wrappers
  import opened Metrics
  import Format

  // ---- Window statistics ----

  function Sum(xs: seq<real>): real {
    if |xs| == 0 then 0.0 else Sum(xs[..|xs| - 1]) + xs[|xs| - 1]
  }

  function Mean(xs: seq<real>): real
    requires |xs| > 0
  {
    Sum(xs) / |xs| as real
  }

  /** The sum of squared deviations from `mu`. */
  function SquaredDeviations(xs: seq<real>, mu: real): (r: real)
    ensures r >= 0.0
  {
    if |xs| == 0 then 0.0
    else
      SqNonNegative(xs[|xs| - 1] - mu);
      SquaredDeviations(xs[..|xs| - 1], mu) + Sq(xs[|xs| - 1] - mu)
  }

  /** The population variance (`std(ddof=0)` squared). */
  function PopVariance(xs: seq<real>): (v: real)
    requires |xs| > 0
    ensures v >= 0.0
  {
    SquaredDeviations(xs, Mean(xs)) / |xs| as real
  }

  /** The `w` values ending at row `i`, inclusive. */
  function Window(xs: seq<real>, i: nat, w: nat): (win: seq<real>)
    requires 1 <= w && w - 1 <= i < |xs|
    ensures |win| == w
    ensures forall k :: 0 <= k < w ==> win[k] == xs[i - w + 1 + k]
  {
    xs[i - w + 1 .. i + 1]
  }

  // ---- Scores and flags ----

  /** A defined z-score kept as its numerator and the square of its
      denominator: z = deviation / sqrt(variance). */
  datatype ZScore = ZScore(deviation: real, variance: real)

  /** The z-score of row `i`; `None` is the NaN pandas produces before the
      window has `w` values (`min_periods=window`) and where the window's
      standard deviation is 0 (`sd.replace(0, np.nan)`). */
  function ScoreAt(xs: seq<real>, i: nat, w: nat): (z: Option<ZScore>)
    requires w >= 1 && i < |xs|
    ensures z.Some? ==> i >= w - 1 && z.value.variance > 0.0
    ensures z.Some? ==> z.value.variance == PopVariance(Window(xs, i, w))
    ensures z.Some? ==> z.value.deviation == xs[i] - Mean(Window(xs, i, w))
    ensures i >= w - 1 && PopVariance(Window(xs, i, w)) > 0.0 ==> z.Some?
  {
    if i < w - 1 then None
    else
      var win := Window(xs, i, w);
      var v := PopVariance(win);
      if v == 0.0 then None else Some(ZScore(xs[i] - Mean(win), v))
  }

  /** `abs(z) >= zthr` decided without a square root; every comparison with
      NaN is false. */
  predicate Exceeds(z: Option<ZScore>, zthr: real) {
    match z
    case None => false
    case Some(s) =>
      s.variance > 0.0 && (zthr <= 0.0 || Sq(s.deviation) >= Sq(zthr) * s.variance)
  }

  // ---- Real arithmetic helpers ----

  /** The identity on reals, used only by `Sq` to keep a square a product. */
  function Id(x: real): real {
    x
  }

  /** The square of `x`. The second factor goes through `Id` so that the
      solver keeps the product as a product of two terms instead of
      rewriting it to a power, about which it knows far less. */
  function Sq(x: real): real {
    x * Id(x)
  }

  lemma SqNonNegative(d: real)
    ensures Sq(d) >= 0.0
  {
  }

  lemma SqPositive(d: real)
    requires d != 0.0
    ensures Sq(d) > 0.0
  {
  }

  /** Multiplying by a positive factor keeps a strict order. */
  lemma ScaleStrict(a: real, b: real, c: real)
    requires a < b && c > 0.0
    ensures a * c < b * c
  {
  }

  /** Multiplying by a non-negative factor keeps a weak order. */
  lemma ScaleWeak(a: real, b: real, c: real)
    requires a <= b && c >= 0.0
    ensures a * c <= b * c
  {
    if a < b && c > 0.0 {
      ScaleStrict(a, b, c);
    }
  }

  lemma SqMonotone(a: real, b: real)
    requires 0.0 <= a <= b
    ensures Sq(a) <= Sq(b)
  {
    ScaleWeak(a, b, a);
    ScaleWeak(a, b, b);
  }

  lemma SqStrict(a: real, b: real)
    requires 0.0 <= a < b
    ensures Sq(a) < Sq(b)
  {
    ScaleWeak(a, b, a);
    ScaleStrict(a, b, b);
  }

  /** For any positive square root `sigma` of the variance, the square-root-free
      test agrees with `abs(deviation / sigma) >= zthr`. */
  lemma ExceedsMatchesDivision(deviation: real, variance: real, sigma: real, zthr: real)
    requires sigma > 0.0 && Sq(sigma) == variance
    ensures Exceeds(Some(ZScore(deviation, variance)), zthr) <==> Format.Abs(deviation / sigma) >= zthr
  {
    SqPositive(sigma);
    var z := deviation / sigma;
    var a := Format.Abs(z);
    assert deviation == z * sigma;
    assert Sq(deviation) == Sq(a) * variance by {
      assert Sq(deviation) == (z * sigma) * (z * sigma);
      assert Sq(a) == z * z;
    }
    if zthr > 0.0 {
      if a >= zthr {
        SqMonotone(zthr, a);
        ScaleWeak(Sq(zthr), Sq(a), variance);
      } else {
        SqStrict(a, zthr);
        ScaleStrict(Sq(a), Sq(zthr), variance);
      }
    }
  }

  /** A value k standard deviations above the mean and one k below are flagged
      alike, and flagged exactly when |k| reaches the threshold. */
  lemma SignSymmetry(k: real, variance: real, sigma: real, zthr: real)
    requires sigma > 0.0 && Sq(sigma) == variance
    ensures Exceeds(Some(ZScore(k * sigma, variance)), zthr) <==> Format.Abs(k) >= zthr
    ensures Exceeds(Some(ZScore(-k * sigma, variance)), zthr) <==> Format.Abs(k) >= zthr
  {
    ExceedsMatchesDivision(k * sigma, variance, sigma, zthr);
    ExceedsMatchesDivision(-k * sigma, variance, sigma, zthr);
    assert k * sigma / sigma == k;
    assert -k * sigma / sigma == -k;
  }

  /** Raising the threshold never adds a flag. */
  lemma ExceedsMonotone(z: Option<ZScore>, lo: real, hi: real)
    requires lo <= hi
    ensures Exceeds(z, hi) ==> Exceeds(z, lo)
  {
    if z.Some? && Exceeds(z, hi) && lo > 0.0 {
      SqMonotone(lo, hi);
      ScaleWeak(Sq(lo), Sq(hi), z.value.variance);
    }
  }

  // ---- The rolling z-score detector ----

  /** A row of the detector's output: the input row, untouched, with the
      `zscore` and `is_anomaly` columns added. */
  datatype Scored = Scored(row: MetricRow, zscore: Option<ZScore>, isAnomaly: bool)

  /** `rolling_zscore_anomalies(df, col, window, zthr)`. */
  function RollingZScore(rows: seq<MetricRow>, col: Column, window: nat, zthr: real): (out: seq<Scored>)
    requires window >= 1
    ensures |out| == |rows|
    ensures forall i :: 0 <= i < |rows| ==> out[i].row == rows[i]
    ensures forall i :: 0 <= i < |rows| ==>
              out[i].zscore == ScoreAt(ColumnOf(rows, col), i, window) &&
              out[i].isAnomaly == Exceeds(out[i].zscore, zthr)
  {
    var xs := ColumnOf(rows, col);
    seq(|rows|, i requires 0 <= i < |rows| =>
      var z := ScoreAt(xs, i, window);
      Scored(rows[i], z, Exceeds(z, zthr)))
  }

  /** Cold start: no row before the window fills is flagged. */
  lemma ColdStartNeverFlagged(rows: seq<MetricRow>, col: Column, window: nat, zthr: real, i: nat)
    requires window >= 1 && i < |rows| && i < window - 1
    ensures !RollingZScore(rows, col, window, zthr)[i].isAnomaly
  {
  }

  /** A row whose trailing window has zero variance is not flagged, whatever
      its value. */
  lemma ZeroVarianceNeverFlagged(rows: seq<MetricRow>, col: Column, window: nat, zthr: real, i: nat)
    requires window >= 1 && window - 1 <= i < |rows|
    requires PopVariance(Window(ColumnOf(rows, col), i, window)) == 0.0
    ensures !RollingZScore(rows, col, window, zthr)[i].isAnomaly
  {
  }

  predicate Constant(xs: seq<real>) {
    forall k :: 0 <= k < |xs| ==> xs[k] == xs[0]
  }

  lemma {:induction false} SumConstant(xs: seq<real>, c: real)
    requires forall k :: 0 <= k < |xs| ==> xs[k] == c
    ensures Sum(xs) == |xs| as real * c
  {
    if |xs| > 0 {
      SumConstant(xs[..|xs| - 1], c);
    }
  }

  /** The squared deviations vanish exactly when every value equals `mu`. */
  lemma {:induction false} SquaredDeviationsZero(xs: seq<real>, mu: real)
    ensures SquaredDeviations(xs, mu) == 0.0 <==> forall k :: 0 <= k < |xs| ==> xs[k] == mu
  {
    if |xs| > 0 {
      var init := xs[..|xs| - 1];
      var d := xs[|xs| - 1] - mu;
      SquaredDeviationsZero(init, mu);
      assert d != 0.0 ==> Sq(d) > 0.0 by {
        if d != 0.0 { SqPositive(d); }
      }
      SqNonNegative(d);
      assert SquaredDeviations(xs, mu) == SquaredDeviations(init, mu) + Sq(d);
      if forall k :: 0 <= k < |xs| ==> xs[k] == mu {
        assert forall k :: 0 <= k < |init| ==> init[k] == mu by {
          forall k | 0 <= k < |init| ensures init[k] == mu { assert init[k] == xs[k]; }
        }
      }
      if SquaredDeviations(xs, mu) == 0.0 {
        assert SquaredDeviations(init, mu) == 0.0 && d == 0.0;
        forall k | 0 <= k < |xs| ensures xs[k] == mu {
          if k < |init| { assert xs[k] == init[k]; }
        }
      }
    }
  }

  /** The population variance is zero exactly when the values are all equal. */
  lemma VarianceZeroIffConstant(xs: seq<real>)
    requires |xs| > 0
    ensures PopVariance(xs) == 0.0 <==> Constant(xs)
  {
    var mu := Mean(xs);
    SquaredDeviationsZero(xs, mu);
    if Constant(xs) {
      SumConstant(xs, xs[0]);
      assert mu == xs[0];
    }
    if PopVariance(xs) == 0.0 {
      assert SquaredDeviations(xs, mu) == 0.0;
      assert forall k :: 0 <= k < |xs| ==> xs[k] == mu;
    }
  }

  /** A row whose trailing window is constant is never flagged. */
  lemma ConstantWindowNeverFlagged(rows: seq<MetricRow>, col: Column, window: nat, zthr: real, i: nat)
    requires window >= 1 && window - 1 <= i < |rows|
    requires Constant(Window(ColumnOf(rows, col), i, window))
    ensures !RollingZScore(rows, col, window, zthr)[i].isAnomaly
  {
    VarianceZeroIffConstant(Window(ColumnOf(rows, col), i, window));
  }

  /** With a window of one value the standard deviation is always 0, so the
      detector flags nothing. */
  lemma WindowOneFlagsNothing(rows: seq<MetricRow>, col: Column, zthr: real)
    ensures forall i :: 0 <= i < |rows| ==> !RollingZScore(rows, col, 1, zthr)[i].isAnomaly
  {
    forall i | 0 <= i < |rows| ensures !RollingZScore(rows, col, 1, zthr)[i].isAnomaly {
      var win := Window(ColumnOf(rows, col), i, 1);
      assert Constant(win);
      ConstantWindowNeverFlagged(rows, col, 1, zthr, i);
    }
  }

  /** A higher threshold flags a subset of the rows a lower one flags. */
  lemma ThresholdMonotone(rows: seq<MetricRow>, col: Column, window: nat, lo: real, hi: real)
    requires window >= 1 && lo <= hi
    ensures forall i :: 0 <= i < |rows| && RollingZScore(rows, col, window, hi)[i].isAnomaly ==>
              RollingZScore(rows, col, window, lo)[i].isAnomaly
  {
    forall i | 0 <= i < |rows| && RollingZScore(rows, col, window, hi)[i].isAnomaly
      ensures RollingZScore(rows, col, window, lo)[i].isAnomaly
    {
      ExceedsMonotone(ScoreAt(ColumnOf(rows, col), i, window), lo, hi);
    }
  }

  // ---- Gap filling before the isolation forest ----

  /** `fillna(method="ffill")` on one column: a missing cell takes the value
      of the cell above it once that one is filled. */
  function ForwardFill(xs: seq<Option<real>>): (ys: seq<Option<real>>)
    ensures |ys| == |xs|
  {
    if |xs| == 0 then []
    else
      var above := ForwardFill(xs[..|xs| - 1]);
      var last := xs[|xs| - 1];
      above + [if last.Some? || |above| == 0 then last else above[|above| - 1]]
  }

  /** `fillna(method="bfill")` on one column: a missing cell takes the value
      of the cell below it once that one is filled. */
  function BackFill(xs: seq<Option<real>>): (ys: seq<Option<real>>)
    ensures |ys| == |xs|
  {
    if |xs| == 0 then []
    else
      var below := BackFill(xs[1..]);
      [if xs[0].Some? || |below| == 0 then xs[0] else below[0]] + below
  }

  /** The preprocessing of `isolation_forest_anomalies`: forward fill, then back fill. */
  function FillGaps(xs: seq<Option<real>>): (ys: seq<Option<real>>)
    ensures |ys| == |xs|
  {
    BackFill(ForwardFill(xs))
  }

  /** The nearest present cell at or above row `i`. */
  function LastPresent(xs: seq<Option<real>>, i: nat): (j: Option<nat>)
    requires i < |xs|
    ensures j.Some? ==>
              j.value <= i && xs[j.value].Some? && (forall k :: j.value < k <= i ==> xs[k].None?)
    ensures j.None? ==> forall k :: 0 <= k <= i ==> xs[k].None?
  {
    if xs[i].Some? then Some(i)
    else if i == 0 then None
    else LastPresent(xs, i - 1)
  }

  /** The nearest present cell at or below row `i`. */
  function NextPresent(xs: seq<Option<real>>, i: nat): (j: Option<nat>)
    requires i < |xs|
    ensures j.Some? ==>
              i <= j.value < |xs| && xs[j.value].Some? && (forall k :: i <= k < j.value ==> xs[k].None?)
    ensures j.None? ==> forall k :: i <= k < |xs| ==> xs[k].None?
    decreases |xs| - i
  {
    if xs[i].Some? then Some(i)
    else if i == |xs| - 1 then None
    else NextPresent(xs, i + 1)
  }

  function ValueAt(xs: seq<Option<real>>, j: Option<nat>): Option<real>
    requires j.Some? ==> j.value < |xs|
  {
    match j
    case Some(k) => xs[k]
    case None => None
  }

  /** Each forward-filled cell is its own value or the filled cell above. */
  lemma {:induction false} ForwardFillStep(xs: seq<Option<real>>, i: nat)
    requires i < |xs|
    ensures ForwardFill(xs)[i] ==
              if xs[i].Some? || i == 0 then xs[i] else ForwardFill(xs)[i - 1]
  {
    var n := |xs|;
    var init := xs[..n - 1];
    if i < n - 1 {
      ForwardFillStep(init, i);
      assert ForwardFill(xs)[i] == ForwardFill(init)[i];
      if i > 0 {
        assert ForwardFill(xs)[i - 1] == ForwardFill(init)[i - 1];
      }
    }
  }

  /** Each back-filled cell is its own value or the filled cell below. */
  lemma {:induction false} BackFillStep(xs: seq<Option<real>>, i: nat)
    requires i < |xs|
    ensures BackFill(xs)[i] ==
              if xs[i].Some? || i == |xs| - 1 then xs[i] else BackFill(xs)[i + 1]
  {
    if i > 0 {
      BackFillStep(xs[1..], i - 1);
      assert BackFill(xs)[i] == BackFill(xs[1..])[i - 1];
      if i < |xs| - 1 {
        assert BackFill(xs)[i + 1] == BackFill(xs[1..])[i];
      }
    }
  }

  /** A forward-filled cell holds the nearest present value at or above it. */
  lemma {:induction false} ForwardFillNearest(xs: seq<Option<real>>, i: nat)
    requires i < |xs|
    ensures ForwardFill(xs)[i] == ValueAt(xs, LastPresent(xs, i))
  {
    ForwardFillStep(xs, i);
    if xs[i].None? && i > 0 {
      ForwardFillNearest(xs, i - 1);
    }
  }

  /** A back-filled cell holds the nearest present value at or below it. */
  lemma {:induction false} BackFillNearest(xs: seq<Option<real>>, i: nat)
    requires i < |xs|
    ensures BackFill(xs)[i] == ValueAt(xs, NextPresent(xs, i))
    decreases |xs| - i
  {
    BackFillStep(xs, i);
    if xs[i].None? && i < |xs| - 1 {
      BackFillNearest(xs, i + 1);
    }
  }

  /** Above the first present cell, forward filling changes nothing, so the
      nearest present cell below is the same in both columns. */
  lemma {:induction false} NextPresentAfterForwardFill(xs: seq<Option<real>>, i: nat)
    requires i < |xs| && LastPresent(xs, i).None?
    ensures NextPresent(ForwardFill(xs), i) == NextPresent(xs, i)
    ensures NextPresent(xs, i).Some? ==>
              ForwardFill(xs)[NextPresent(xs, i).value] == xs[NextPresent(xs, i).value]
    decreases |xs| - i
  {
    var ys := ForwardFill(xs);
    ForwardFillNearest(xs, i);
    assert ys[i].None?;
    if i < |xs| - 1 {
      ForwardFillNearest(xs, i + 1);
      if xs[i + 1].None? {
        assert LastPresent(xs, i + 1) == LastPresent(xs, i);
        NextPresentAfterForwardFill(xs, i + 1);
      }
    }
  }

  /** After `ffill` then `bfill` a cell holds the nearest present value at or
      above it, else the nearest one below it, else stays missing. */
  lemma FillGapsNearest(xs: seq<Option<real>>, i: nat)
    requires i < |xs|
    ensures FillGaps(xs)[i] ==
              if LastPresent(xs, i).Some? then xs[LastPresent(xs, i).value]
              else ValueAt(xs, NextPresent(xs, i))
  {
    var ys := ForwardFill(xs);
    ForwardFillNearest(xs, i);
    BackFillNearest(ys, i);
    if LastPresent(xs, i).None? {
      NextPresentAfterForwardFill(xs, i);
    }
  }

  /** Filling keeps the length and every present value. */
  lemma FillGapsKeepsPresent(xs: seq<Option<real>>)
    ensures |FillGaps(xs)| == |xs|
    ensures forall i :: 0 <= i < |xs| && xs[i].Some? ==> FillGaps(xs)[i] == xs[i]
  {
    forall i | 0 <= i < |xs| && xs[i].Some? ensures FillGaps(xs)[i] == xs[i] {
      FillGapsNearest(xs, i);
    }
  }

  predicate HasPresent(xs: seq<Option<real>>) {
    exists j :: 0 <= j < |xs| && xs[j].Some?
  }

  /** No cell is left missing exactly when the column has a present value
      (or no cells at all). */
  lemma FillGapsComplete(xs: seq<Option<real>>)
    ensures (forall i :: 0 <= i < |xs| ==> FillGaps(xs)[i].Some?) <==> (|xs| == 0 || HasPresent(xs))
  {
    if HasPresent(xs) {
      var j :| 0 <= j < |xs| && xs[j].Some?;
      forall i | 0 <= i < |xs| ensures FillGaps(xs)[i].Some? {
        FillGapsNearest(xs, i);
        if LastPresent(xs, i).None? {
          assert j > i;
          assert NextPresent(xs, i).Some?;
        }
      }
    } else if |xs| > 0 {
      FillGapsNearest(xs, 0);
    }
  }

  // ---- The isolation forest ----

  /** The model settings `isolation_forest_anomalies` passes to the forest. */
  datatype ForestSettings = ForestSettings(estimators: nat, contamination: real, seed: int)

  /** A fitted-and-applied isolation forest: the feature matrix, one row of
      features per sample, to one label per sample (-1 outlier, 1 inlier). */
  type Forest = (ForestSettings, seq<seq<real>>) -> seq<int>

  ghost predicate OneLabelPerSample(forest: Forest) {
    forall s, m :: |forest(s, m)| == |m|
  }

  datatype FitError = NoSamples | NoFeatures | MissingAfterFill

  /** The cells of a filled column, provided none is missing. */
  function Present(xs: seq<Option<real>>): (r: Option<seq<real>>)
    ensures r.Some? <==> forall i :: 0 <= i < |xs| ==> xs[i].Some?
    ensures r.Some? ==> |r.value| == |xs| && forall i :: 0 <= i < |xs| ==> xs[i] == Some(r.value[i])
  {
    if forall i :: 0 <= i < |xs| ==> xs[i].Some? then
      Some(seq(|xs|, i requires 0 <= i < |xs| => xs[i].value))
    else None
  }

  /** Filling leaves no cell of any column missing. */
  predicate FilledCompletely(columns: seq<seq<Option<real>>>) {
    forall c :: 0 <= c < |columns| ==> Present(FillGaps(columns[c])).Some?
  }

  /** The feature matrix the forest is fitted on: sample `i` holds the
      filled cell `i` of every column, in column order. */
  function FilledMatrix(columns: seq<seq<Option<real>>>, n: nat): (m: seq<seq<real>>)
    requires forall c :: 0 <= c < |columns| ==> |columns[c]| == n
    requires FilledCompletely(columns)
    ensures |m| == n
    ensures forall i :: 0 <= i < n ==> |m[i]| == |columns|
    ensures forall i, c :: 0 <= i < n && 0 <= c < |columns| ==> FillGaps(columns[c])[i] == Some(m[i][c])
  {
    seq(n, i requires 0 <= i < n =>
      seq(|columns|, c requires 0 <= c < |columns| => Present(FillGaps(columns[c])).value[i]))
  }

  /** `isolation_forest_anomalies` on feature columns of `n` cells each: fill
      each column, refuse what the forest cannot be fitted on, and flag the
      samples the forest labels -1 on the filled matrix. */
  function IsolationForestFlags(
    columns: seq<seq<Option<real>>>, n: nat, settings: ForestSettings, forest: Forest)
    : (r: Result<seq<bool>, FitError>)
    requires forall c :: 0 <= c < |columns| ==> |columns[c]| == n
    requires OneLabelPerSample(forest)
    ensures n == 0 ==> r == Failure(NoSamples)
    ensures n > 0 && |columns| == 0 ==> r == Failure(NoFeatures)
    ensures r.Success? <==> n > 0 && |columns| > 0 && FilledCompletely(columns)
    ensures r.Failure? && n > 0 && |columns| > 0 ==>
              r.error == MissingAfterFill && exists c :: 0 <= c < |columns| && !HasPresent(columns[c])
    ensures r.Success? ==>
              && |r.value| == n
              && forall i :: 0 <= i < n ==>
                   (r.value[i] <==> forest(settings, FilledMatrix(columns, n))[i] == -1)
  {
    if n == 0 then Failure(NoSamples)
    else if |columns| == 0 then Failure(NoFeatures)
    else if !FilledCompletely(columns) then
      var c :| 0 <= c < |columns| && Present(FillGaps(columns[c])).None?;
      FillGapsComplete(columns[c]);
      Failure(MissingAfterFill)
    else
      var labels := forest(settings, FilledMatrix(columns, n));
      Success(seq(n, i requires 0 <= i < n => labels[i] == -1))
  }

  /** Columns without gaps go to the forest unchanged: sample `i` of the
      matrix is cell `i` of each column. */
  lemma CompleteColumnsUnfilled(
    columns: seq<seq<Option<real>>>, n: nat, settings: ForestSettings, forest: Forest)
    requires forall c :: 0 <= c < |columns| ==> |columns[c]| == n
    requires forall c, i :: 0 <= c < |columns| && 0 <= i < n ==> columns[c][i].Some?
    requires OneLabelPerSample(forest)
    requires n > 0 && |columns| > 0
    ensures var r := IsolationForestFlags(columns, n, settings, forest);
            var raw := seq(n, i requires 0 <= i < n =>
                         seq(|columns|, c requires 0 <= c < |columns| => columns[c][i].value));
            && r.Success?
            && forall i :: 0 <= i < n ==> (r.value[i] <==> forest(settings, raw)[i] == -1)
  {
    forall c | 0 <= c < |columns| ensures Present(FillGaps(columns[c])).Some? {
      FillGapsKeepsPresent(columns[c]);
    }
    var raw := seq(n, i requires 0 <= i < n =>
                 seq(|columns|, c requires 0 <= c < |columns| => columns[c][i].value));
    var m := FilledMatrix(columns, n);
    forall i | 0 <= i < n ensures m[i] == raw[i] {
      forall c | 0 <= c < |columns| ensures m[i][c] == raw[i][c] {
        FillGapsKeepsPresent(columns[c]);
      }
    }
    assert m == raw;
  }
}
