/** The streaming changepoint detector behind the low-power wake gate. */
module WakeGate {

  datatype Settings = Settings(alphaSlow: real, alphaFast: real, threshold: real, warmup: int)

  datatype Detector = Detector(baseMean: real, baseVar: real, fastMean: real, initialized: bool, count: int)

  const START := Detector(0.0, 0.000001, 0.0, false, 0)

  function FloorVar(v: real): real {
    if v >= 0.000001 then v else 0.000001
  }

  function Abs(x: real): real {
    if x >= 0.0 then x else -x
  }

  /** `deviation > threshold * sqrt(variance)` for a non-negative deviation, without the root. */
  predicate Beyond(s: Settings, deviation: real, variance: real) {
    s.threshold < 0.0 || deviation * deviation > s.threshold * s.threshold * FloorVar(variance)
  }

  /** One exponential smoothing step. */
  function Blend(alpha: real, value: real, mean: real): real {
    alpha * value + (1.0 - alpha) * mean
  }

  function FastMean(s: Settings, d: Detector, value: real): real {
    Blend(s.alphaFast, value, d.fastMean)
  }

  predicate Alarms(s: Settings, d: Detector, value: real) {
    d.initialized && d.count + 1 > s.warmup && Beyond(s, Abs(FastMean(s, d, value) - d.baseMean), d.baseVar)
  }

  function Next(s: Settings, d: Detector, value: real): Detector {
    if !d.initialized then d.(baseMean := value, fastMean := value, initialized := true, count := d.count + 1)
    else
      var fast := FastMean(s, d, value);
      if Alarms(s, d, value) then d.(fastMean := fast, count := d.count + 1)
      else
        var delta := value - d.baseMean;
        Detector(d.baseMean + s.alphaSlow * delta, Blend(s.alphaSlow, delta * delta, d.baseVar), fast, true,
                 d.count + 1)
  }

  class ChangepointDetector {
    const settings: Settings
    var baseMean: real
    var baseVar: real
    var fastMean: real
    var initialized: bool
    var count: int

    function State(): Detector
      reads this
    {
      Detector(baseMean, baseVar, fastMean, initialized, count)
    }

    constructor (settings: Settings)
      ensures State() == START && this.settings == settings
    {
      this.settings := settings;
      baseMean, baseVar, fastMean, initialized, count := 0.0, 0.000001, 0.0, false, 0;
    }

    /** Feed one sample; the baseline adapts only when it raises no alarm. */
    method Update(value: real) returns (alarm: bool)
      modifies this
      ensures State() == Next(settings, old(State()), value) && alarm == Alarms(settings, old(State()), value)
    {
      count := count + 1;
      if !initialized {
        baseMean, fastMean, initialized := value, value, true;
        return false;
      }
      fastMean := Blend(settings.alphaFast, value, fastMean);
      alarm := count > settings.warmup && Beyond(settings, Abs(fastMean - baseMean), baseVar);
      if !alarm {
        var delta := value - baseMean;
        baseMean := baseMean + settings.alphaSlow * delta;
        baseVar := Blend(settings.alphaSlow, delta * delta, baseVar);
      }
    }
  }

  function After(s: Settings, d: Detector, values: seq<real>): Detector {
    if values == [] then d else Next(s, After(s, d, values[..|values| - 1]), values[|values| - 1])
  }

  // ---------------------------------------------------------- a steady signal

  function Pow(x: real, n: nat): real {
    if n == 0 then 1.0 else x * Pow(x, n - 1)
  }

  function Steady(x: real, n: nat): (r: seq<real>)
    ensures |r| == n && forall i :: 0 <= i < n ==> r[i] == x
  {
    seq(n, i requires i >= 0 => x)
  }

  lemma BlendTowards(alpha: real, x: real, mean: real)
    ensures Blend(alpha, x, mean) - x == (1.0 - alpha) * (mean - x)
    ensures mean + alpha * (x - mean) - x == (1.0 - alpha) * (mean - x)
  {
    assert (1.0 - alpha) * (mean - x) == (1.0 - alpha) * mean - x + alpha * x;
    assert alpha * (x - mean) == alpha * x - alpha * mean;
  }

  /** `y` is what `n` rounds of keeping `1 - alpha` leave of `y0`. */
  predicate Faded(alpha: real, n: nat, y0: real, y: real) {
    y == Pow(1.0 - alpha, n) * y0
  }

  lemma FadeStep(alpha: real, n: nat, y0: real, y: real, next: real)
    requires Faded(alpha, n, y0, y) && next == (1.0 - alpha) * y
    ensures Faded(alpha, n + 1, y0, next)
  {
  }

  lemma FadeOfNothing(alpha: real, n: nat, y: real)
    ensures Faded(alpha, n, 0.0, y) ==> y == 0.0
    ensures Faded(alpha, 0, y, y)
  {
  }

  /** As long as nothing alarms, `n` samples of a steady signal leave `(1 - alpha)^n` of each mean's distance
      from it; when the baseline is at the signal, they leave as much of its variance. */
  lemma {:induction false} SteadySignalIsLearned(s: Settings, d: Detector, x: real, n: nat)
    requires d.initialized && forall i :: 0 <= i < n ==> !Alarms(s, After(s, d, Steady(x, i)), x)
    ensures var d' := After(s, d, Steady(x, n));
            && d'.initialized
            && Faded(s.alphaSlow, n, d.baseMean - x, d'.baseMean - x)
            && Faded(s.alphaFast, n, d.fastMean - x, d'.fastMean - x)
            && (d.baseMean == x ==> Faded(s.alphaSlow, n, d.baseVar, d'.baseVar))
  {
    hide Faded, Alarms, Next;
    FadeOfNothing(s.alphaSlow, 0, d.baseMean - x);
    FadeOfNothing(s.alphaFast, 0, d.fastMean - x);
    FadeOfNothing(s.alphaSlow, 0, d.baseVar);
    if n > 0 {
      var mid := After(s, d, Steady(x, n - 1));
      SteadySignalIsLearned(s, d, x, n - 1);
      assert Steady(x, n)[..n - 1] == Steady(x, n - 1);
      assert After(s, d, Steady(x, n)) == Next(s, mid, x);
      hide After;
      SteadyStep(s, mid, x);
      var d' := Next(s, mid, x);
      FadeStep(s.alphaSlow, n - 1, d.baseMean - x, mid.baseMean - x, d'.baseMean - x);
      FadeStep(s.alphaFast, n - 1, d.fastMean - x, mid.fastMean - x, d'.fastMean - x);
      if d.baseMean == x {
        FadeOfNothing(s.alphaSlow, n - 1, mid.baseMean - x);
        FadeStep(s.alphaSlow, n - 1, d.baseVar, mid.baseVar, d'.baseVar);
      }
    }
  }

  lemma SteadyStep(s: Settings, mid: Detector, x: real)
    requires mid.initialized && !Alarms(s, mid, x)
    ensures var d' := Next(s, mid, x);
            && d'.initialized
            && d'.baseMean - x == (1.0 - s.alphaSlow) * (mid.baseMean - x)
            && d'.fastMean - x == (1.0 - s.alphaFast) * (mid.fastMean - x)
            && (mid.baseMean == x ==> d'.baseVar == (1.0 - s.alphaSlow) * mid.baseVar)
  {
    hide Alarms;
    BlendTowards(s.alphaSlow, x, mid.baseMean);
    BlendTowards(s.alphaFast, x, mid.fastMean);
  }

  // -------------------------------------------------------- a sustained alarm

  /** `value` lies beyond the threshold on the side `up` of the baseline. */
  predicate BeyondOn(s: Settings, d: Detector, up: bool, value: real) {
    (if up then value > d.baseMean else value < d.baseMean) && Beyond(s, Abs(value - d.baseMean), d.baseVar)
  }

  lemma ProductNonNegative(x: real, y: real)
    requires x >= 0.0 && y >= 0.0
    ensures x * y >= 0.0
  {
  }

  lemma LargerSquare(p: real, w: real)
    requires 0.0 <= p <= w
    ensures p * p <= w * w
  {
    ProductNonNegative(w - p, w + p);
    assert (w - p) * (w + p) == w * w - p * p;
  }

  /** The deviation of a weighted mean is the weighted mean of the deviations, on either side. */
  lemma BlendDeviation(a: real, x: real, f: real, base: real)
    ensures Blend(a, x, f) - base == Blend(a, x - base, f - base)
    ensures base - Blend(a, x, f) == Blend(a, base - x, base - f)
  {
    assert a * (x - base) == a * x - a * base;
    assert a * (base - x) == a * base - a * x;
    assert (1.0 - a) * (f - base) == (1.0 - a) * f - (1.0 - a) * base;
    assert (1.0 - a) * (base - f) == (1.0 - a) * base - (1.0 - a) * f;
    assert a * base + (1.0 - a) * base == base;
  }

  /** A weighted mean is at least the smaller of the two values. */
  lemma BlendAboveLeast(a: real, p: real, q: real)
    requires 0.0 <= a <= 1.0
    ensures Blend(a, p, q) >= if p <= q then p else q
  {
    if p <= q {
      ProductNonNegative(1.0 - a, q - p);
      assert (1.0 - a) * (q - p) == (1.0 - a) * q - (1.0 - a) * p;
    } else {
      ProductNonNegative(a, p - q);
      assert a * (p - q) == a * p - a * q;
    }
  }

  /** A larger deviation on the same side is beyond the threshold too. */
  lemma BeyondGrows(s: Settings, least: real, deviation: real, variance: real)
    requires 0.0 <= least <= deviation && Beyond(s, least, variance)
    ensures Beyond(s, deviation, variance)
  {
    LargerSquare(least, deviation);
  }

  /** A weighted mean of two values beyond the threshold on one side is beyond it on that side. */
  lemma BlendStaysBeyond(s: Settings, d: Detector, up: bool, x: real, f: real)
    requires 0.0 <= s.alphaFast <= 1.0 && BeyondOn(s, d, up, x) && BeyondOn(s, d, up, f)
    ensures BeyondOn(s, d, up, Blend(s.alphaFast, x, f))
  {
    hide Beyond, Blend;
    var p, q := if up then x - d.baseMean else d.baseMean - x, if up then f - d.baseMean else d.baseMean - f;
    BlendDeviation(s.alphaFast, x, f, d.baseMean);
    BlendAboveLeast(s.alphaFast, p, q);
    BeyondGrows(s, if p <= q then p else q, Blend(s.alphaFast, p, q), d.baseVar);
  }

  /** Persistence: once the fast mean is beyond the threshold on one side after the warm-up, samples that
      stay beyond it on that side keep every alarm on and the baseline frozen. */
  lemma {:induction false} AlarmPersists(s: Settings, d: Detector, up: bool, values: seq<real>)
    requires 0.0 <= s.alphaFast <= 1.0
    requires d.initialized && d.count >= s.warmup && BeyondOn(s, d, up, d.fastMean)
    requires forall i :: 0 <= i < |values| ==> BeyondOn(s, d, up, values[i])
    ensures var d' := After(s, d, values);
            && d'.initialized && d'.count == d.count + |values| && d'.baseMean == d.baseMean && d'.baseVar == d.baseVar
            && BeyondOn(s, d, up, d'.fastMean)
    ensures forall i :: 0 <= i < |values| ==> Alarms(s, After(s, d, values[..i]), values[i])
  {
    hide BeyondOn, Alarms, Next, FastMean;
    if values == [] {
    } else {
      var n := |values| - 1;
      AlarmPersists(s, d, up, values[..n]);
      assert BeyondOn(s, d, up, values[n]);
      PersistStep(s, d, After(s, d, values[..n]), up, values[n]);
      forall i | 0 <= i < |values|
        ensures Alarms(s, After(s, d, values[..i]), values[i])
      {
        if i < n {
          assert values[..n][..i] == values[..i] && values[..n][i] == values[i];
        }
      }
    }
  }

  lemma PersistStep(s: Settings, d: Detector, mid: Detector, up: bool, value: real)
    requires 0.0 <= s.alphaFast <= 1.0
    requires mid.initialized && mid.count >= s.warmup && mid.baseMean == d.baseMean && mid.baseVar == d.baseVar
    requires BeyondOn(s, d, up, mid.fastMean) && BeyondOn(s, d, up, value)
    ensures Alarms(s, mid, value)
    ensures Next(s, mid, value) == mid.(fastMean := FastMean(s, mid, value), count := mid.count + 1)
    ensures BeyondOn(s, d, up, FastMean(s, mid, value))
  {
    BlendStaysBeyond(s, d, up, value, mid.fastMean);
    hide Beyond;
  }

  /** Once a sample raises an alarm, every following run of samples that stay beyond the threshold on the
      side of that alarm raises one each, and the baseline does not move. */
  lemma SustainedAnomalyIsNotAbsorbed(s: Settings, d: Detector, first: real, values: seq<real>)
    requires 0.0 <= s.alphaFast <= 1.0 && s.threshold >= 0.0 && Alarms(s, d, first)
    requires forall i :: 0 <= i < |values| ==> BeyondOn(s, d, FastMean(s, d, first) > d.baseMean, values[i])
    ensures var d' := After(s, Next(s, d, first), values); d'.baseMean == d.baseMean && d'.baseVar == d.baseVar
    ensures forall i :: 0 <= i < |values| ==> Alarms(s, After(s, Next(s, d, first), values[..i]), values[i])
  {
    var d1, up := Next(s, d, first), FastMean(s, d, first) > d.baseMean;
    PositiveSquare(s.threshold * s.threshold * FloorVar(d.baseVar), Abs(FastMean(s, d, first) - d.baseMean));
    ProductNonNegative(s.threshold, s.threshold);
    ProductNonNegative(s.threshold * s.threshold, FloorVar(d.baseVar));
    assert BeyondOn(s, d1, up, d1.fastMean);
    assert forall i :: 0 <= i < |values| ==> BeyondOn(s, d1, up, values[i]);
    AlarmPersists(s, d1, up, values);
  }

  lemma PositiveSquare(k: real, w: real)
    ensures k >= 0.0 && w * w > k ==> w != 0.0
  {
  }
}
