/**
 The discrete control of the autocorrelation pitch estimator: which lags are
 searched, which lag wins, when a frame is rejected, and the guarded
 parabolic refinement of the winning lag. The correlation values themselves
 are floating-point sums over the audio frame; here they are inputs, one per
 lag, and arithmetic on them is exact.
 */
module PeriodSearch {
  import opened Options

  /** Lowest frequency searched, in Hz. */
  const MinFrequency: nat := 75

  /** Highest frequency searched, in Hz. */
  const MaxFrequency: nat := 1200

  /** A frame whose best normalised correlation is below this is rejected. */
  const ConfidenceThreshold: real := 0.9

  /** Below this magnitude the parabola's curvature is treated as zero. */
  const Epsilon: real := 0.0000000001

  /** Shortest lag searched: the period of the highest frequency, rounded down. */
  function MinPeriod(sampleRate: nat): (r: nat)
    ensures MaxFrequency * r <= sampleRate < MaxFrequency * (r + 1)
  {
    sampleRate / MaxFrequency
  }

  /** Longest lag searched: the period of the lowest frequency, rounded down. */
  function MaxPeriod(sampleRate: nat): (r: nat)
    ensures MinFrequency * r <= sampleRate < MinFrequency * (r + 1)
  {
    sampleRate / MinFrequency
  }

  /** The lags the search visits for a frame of `n` samples: from MinPeriod up to MaxPeriod, and below `n`. */
  predicate IsCandidate(p: int, sampleRate: nat, n: nat)
  {
    MinPeriod(sampleRate) <= p <= MaxPeriod(sampleRate) && p < n
  }

  /**
   Every candidate lag corresponds to a frequency of at least MinFrequency;
   on the high side the rounding lets the shortest lag exceed MaxFrequency by
   less than one lag's worth.
   */
  lemma CandidateFrequencyBounds(p: int, sampleRate: nat, n: nat)
    requires IsCandidate(p, sampleRate, n)
    ensures MinFrequency * p <= sampleRate
    ensures sampleRate < MaxFrequency * (p + 1)
  {
  }

  /** At 44.1 kHz the shortest lag, 36 samples, stands for 1225 Hz, above MaxFrequency. */
  lemma ShortestLagExceedsMaxFrequency()
    ensures IsCandidate(36, 44100, 4096)
    ensures MinPeriod(44100) == 36 && MaxPeriod(44100) == 588
    ensures MaxFrequency * 36 < 44100
  {
  }

  /**
   `p` is the first lag of the candidate range that attains the range's
   largest correlation, and that correlation is positive.
   */
  ghost predicate FirstMaximum(corr: seq<real>, sampleRate: nat, p: int)
  {
    && 0 <= p < |corr|
    && IsCandidate(p, sampleRate, |corr|)
    && corr[p] > 0.0
    && (forall q :: 0 <= q < |corr| && IsCandidate(q, sampleRate, |corr|) ==> corr[q] <= corr[p])
    && (forall q :: 0 <= q < p && IsCandidate(q, sampleRate, |corr|) ==> corr[q] < corr[p])
  }

  /**
   The search loop over the lags of a frame of `|corr|` samples, `corr[p]`
   being the normalised correlation at lag `p`. It starts from lag 0 with
   correlation 0 and takes a lag only when it strictly beats the best so
   far, so the result is the first lag with the largest positive
   correlation, or lag 0 with correlation 0 when no candidate is positive.
   */
  method BestPeriod(corr: seq<real>, sampleRate: nat) returns (bestPeriod: nat, bestCorrelation: real)
    ensures bestCorrelation == 0.0 <==>
      forall q :: 0 <= q < |corr| && IsCandidate(q, sampleRate, |corr|) ==> corr[q] <= 0.0
    ensures bestCorrelation != 0.0 ==> FirstMaximum(corr, sampleRate, bestPeriod) && bestCorrelation == corr[bestPeriod]
    ensures bestCorrelation == 0.0 ==> bestPeriod == 0
    ensures bestCorrelation >= 0.0
  {
    bestCorrelation := 0.0;
    bestPeriod := 0;
    var period := MinPeriod(sampleRate);
    while period <= MaxPeriod(sampleRate) && period < |corr|
      invariant MinPeriod(sampleRate) <= period
      invariant period <= MaxPeriod(sampleRate) + 1 || period == MinPeriod(sampleRate)
      invariant bestCorrelation == 0.0 ==> bestPeriod == 0
      invariant bestCorrelation == 0.0 ==>
        forall q :: MinPeriod(sampleRate) <= q < period && q < |corr| ==> corr[q] <= 0.0
      invariant bestCorrelation != 0.0 ==>
        && MinPeriod(sampleRate) <= bestPeriod < period
        && bestPeriod < |corr| && bestPeriod <= MaxPeriod(sampleRate)
        && bestCorrelation == corr[bestPeriod] && bestCorrelation > 0.0
        && (forall q :: MinPeriod(sampleRate) <= q < period && q < |corr| ==> corr[q] <= bestCorrelation)
        && (forall q :: MinPeriod(sampleRate) <= q < bestPeriod && q < |corr| ==> corr[q] < bestCorrelation)
      decreases |corr| - period
    {
      if corr[period] > bestCorrelation {
        bestCorrelation := corr[period];
        bestPeriod := period;
      }
      period := period + 1;
    }
  }

  /** The estimate kept for a frame: the winning lag, its refinement, and the confidence. */
  datatype PeriodEstimate = PeriodEstimate(bestPeriod: nat, refinedPeriod: real, confidence: real)

  /**
   The period estimate of a frame of `|corr|` samples, where `corr[p]` and
   `raw[p]` are the normalised and raw correlations at lag `p`. The frame
   is rejected when the best correlation is below ConfidenceThreshold or the
   winning lag is 0; otherwise the winning lag is refined as the source
   refines it, which moves it by the opposite of the parabola's vertex shift.
   */
  method DetectPeriod(corr: seq<real>, raw: seq<real>, sampleRate: nat) returns (r: Option<PeriodEstimate>)
    requires |raw| == |corr|
    ensures r.Some? ==>
      && FirstMaximum(corr, sampleRate, r.value.bestPeriod)
      && r.value.bestPeriod != 0
      && r.value.confidence == corr[r.value.bestPeriod] >= ConfidenceThreshold
      && r.value.refinedPeriod == RefineAsWritten(raw, r.value.bestPeriod)
      && r.value.refinedPeriod - r.value.bestPeriod as real == -(Refine(raw, r.value.bestPeriod) - r.value.bestPeriod as real)
    ensures r.None? ==>
      forall p :: FirstMaximum(corr, sampleRate, p) ==> p == 0 || corr[p] < ConfidenceThreshold
  {
    var bestPeriod, bestCorrelation := BestPeriod(corr, sampleRate);
    if bestCorrelation < ConfidenceThreshold || bestPeriod == 0 {
      forall p | FirstMaximum(corr, sampleRate, p)
        ensures p == 0 || corr[p] < ConfidenceThreshold
      {
        if bestCorrelation != 0.0 {
          FirstMaximumUnique(corr, sampleRate, p, bestPeriod);
        }
      }
      return None;
    }
    RefineAsWrittenMirrorsRefine(raw, bestPeriod);
    return Some(PeriodEstimate(bestPeriod, RefineAsWritten(raw, bestPeriod), bestCorrelation));
  }

  /** The first lag attaining the largest correlation is unique. */
  lemma FirstMaximumUnique(corr: seq<real>, sampleRate: nat, p: int, q: int)
    requires FirstMaximum(corr, sampleRate, p) && FirstMaximum(corr, sampleRate, q)
    ensures p == q
  {
  }

  // ------------------------------------------------ parabolic refinement

  function Abs(x: real): real
  {
    if x < 0.0 then -x else x
  }

  /**
   The parabola through (-1, y0), (0, y1), (1, y2), evaluated at offset `t`
   from the middle lag.
   */
  function Parabola(y0: real, y1: real, y2: real, t: real): real
  {
    y1 + (y2 - y0) / 2.0 * t + (y0 + y2 - 2.0 * y1) / 2.0 * t * t
  }

  /** The parabola does pass through the three samples. */
  lemma ParabolaInterpolates(y0: real, y1: real, y2: real)
    ensures Parabola(y0, y1, y2, -1.0) == y0
    ensures Parabola(y0, y1, y2, 0.0) == y1
    ensures Parabola(y0, y1, y2, 1.0) == y2
  {
  }

  /**
   The sub-sample shift exactly as the source computes it, with denominator
   2(2·y1 − y0 − y2); none when that denominator is below Epsilon in
   magnitude.
   */
  function ShiftAsWritten(y0: real, y1: real, y2: real): (r: Option<real>)
    ensures r.None? <==> Abs(2.0 * (2.0 * y1 - y0 - y2)) < Epsilon
  {
    var denominator := 2.0 * (2.0 * y1 - y0 - y2);
    if Abs(denominator) < Epsilon then None else Some((y0 - y2) / denominator)
  }

  /**
   The sub-sample shift to the vertex of the parabola through the three
   samples, with denominator 2(y0 − 2·y1 + y2), under the same guard. The
   shift is where the parabola's slope vanishes, and for a peak (middle
   sample not below its neighbours) it stays within half a lag.
   */
  function Shift(y0: real, y1: real, y2: real): (r: Option<real>)
    ensures r.None? <==> Abs(2.0 * (2.0 * y1 - y0 - y2)) < Epsilon
    ensures r.Some? ==> (y0 + y2 - 2.0 * y1) * r.value + (y2 - y0) / 2.0 == 0.0
    ensures r.Some? && y1 >= y0 && y1 >= y2 ==> -0.5 <= r.value <= 0.5
  {
    var denominator := 2.0 * (y0 - 2.0 * y1 + y2);
    if Abs(denominator) < Epsilon then None
    else
      var s := (y0 - y2) / denominator;
      assert s * denominator == y0 - y2;
      PeakShiftBound(y0, y1, y2, s);
      Some(s)
  }

  /** For a peak, the vertex lies within half a lag of the middle sample. */
  lemma PeakShiftBound(y0: real, y1: real, y2: real, s: real)
    requires y0 - 2.0 * y1 + y2 != 0.0
    requires s * (2.0 * (y0 - 2.0 * y1 + y2)) == y0 - y2
    ensures y1 >= y0 && y1 >= y2 ==> -0.5 <= s <= 0.5
  {
    if y1 < y0 || y1 < y2 {
      return;
    }
    var u := y1 - y0;
    var v := y1 - y2;
    var x := 2.0 * (u + v);
    assert x > 0.0;
    assert s * x == u - v;
    if s > 0.5 {
      ScaleStrictly(0.5, s, x);
    } else if s < -0.5 {
      ScaleStrictly(s, -0.5, x);
    }
  }

  lemma ScaleStrictly(a: real, b: real, x: real)
    requires a < b && x > 0.0
    ensures a * x < b * x
  {
  }

  lemma DivideByNegation(x: real, d: real)
    requires d != 0.0
    ensures x / -d == -(x / d)
  {
  }

  /** When the parabola opens downward, its vertex is its highest point. */
  lemma ShiftMaximisesParabola(y0: real, y1: real, y2: real, t: real)
    requires y0 + y2 < 2.0 * y1
    requires Shift(y0, y1, y2).Some?
    ensures Parabola(y0, y1, y2, t) <= Parabola(y0, y1, y2, Shift(y0, y1, y2).value)
  {
    var s := Shift(y0, y1, y2).value;
    var a := (y0 + y2 - 2.0 * y1) / 2.0;
    var b := (y2 - y0) / 2.0;
    assert 2.0 * a * s + b == 0.0;
    assert Parabola(y0, y1, y2, t) - Parabola(y0, y1, y2, s) == a * (t - s) * (t - s) by {
      assert Parabola(y0, y1, y2, t) == y1 + b * t + a * t * t;
      assert Parabola(y0, y1, y2, s) == y1 + b * s + a * s * s;
      assert b * t + a * t * t - b * s - a * s * s == (t - s) * (b + a * (t + s));
      assert b == -2.0 * a * s;
    }
    assert (t - s) * (t - s) >= 0.0;
  }

  /** The source's shift is the exact opposite of the vertex shift. */
  lemma ShiftAsWrittenIsMirrored(y0: real, y1: real, y2: real)
    ensures ShiftAsWritten(y0, y1, y2).Some? <==> Shift(y0, y1, y2).Some?
    ensures ShiftAsWritten(y0, y1, y2).Some? ==> ShiftAsWritten(y0, y1, y2).value == -Shift(y0, y1, y2).value
  {
    var d := 2.0 * (y0 - 2.0 * y1 + y2);
    assert 2.0 * (2.0 * y1 - y0 - y2) == -d;
    if d != 0.0 {
      DivideByNegation(y0 - y2, d);
    }
  }

  /**
   Samples of the downward parabola -(t - 1/4)^2, scaled by 16: the true
   peak is a quarter lag to the right, the source moves a quarter lag to the
   left, and the point it picks is lower on the parabola than the vertex.
   */
  lemma ShiftAsWrittenMovesAwayFromPeak()
    ensures Shift(-25.0, -1.0, -9.0) == Some(0.25)
    ensures ShiftAsWritten(-25.0, -1.0, -9.0) == Some(-0.25)
    ensures Parabola(-25.0, -1.0, -9.0, -0.25) < Parabola(-25.0, -1.0, -9.0, 0.25)
  {
  }

  /**
   The refined lag as the source computes it: unchanged at the ends of the
   frame (lag at most 1, or at least `n` − 1) and when the curvature is
   negligible, else moved by the source's shift.
   */
  function RefineAsWritten(raw: seq<real>, period: int): (r: real)
    ensures period <= 1 || period >= |raw| - 1 ==> r == period as real
  {
    if period <= 1 || period >= |raw| - 1 then period as real
    else
      match ShiftAsWritten(raw[period - 1], raw[period], raw[period + 1])
      case None => period as real
      case Some(s) => period as real + s
  }

  /**
   The refined lag: unchanged at the ends of the frame and when the
   curvature is negligible, else moved to the vertex of the parabola through
   the raw correlations at the lag and its two neighbours.
   */
  function Refine(raw: seq<real>, period: int): (r: real)
    ensures period <= 1 || period >= |raw| - 1 ==> r == period as real
    ensures 1 < period < |raw| - 1 && Shift(raw[period - 1], raw[period], raw[period + 1]).None? ==> r == period as real
    ensures 1 < period < |raw| - 1 && raw[period] >= raw[period - 1] && raw[period] >= raw[period + 1] ==>
      period as real - 0.5 <= r <= period as real + 0.5
  {
    if period <= 1 || period >= |raw| - 1 then period as real
    else
      match Shift(raw[period - 1], raw[period], raw[period + 1])
      case None => period as real
      case Some(s) => period as real + s
  }

  /** Where the source's refinement moves at all, it moves the mirror image of the vertex refinement. */
  lemma RefineAsWrittenMirrorsRefine(raw: seq<real>, period: int)
    ensures RefineAsWritten(raw, period) - period as real == -(Refine(raw, period) - period as real)
  {
    if 1 < period < |raw| - 1 {
      ShiftAsWrittenIsMirrored(raw[period - 1], raw[period], raw[period + 1]);
    }
  }
}
