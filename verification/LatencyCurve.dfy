/** The size-to-latency curve, its robust fit, and the conditional forecast, over exact reals. */
module LatencyCurve {
  import opened Arithmetic
  import opened Sequences

  datatype Observation = Observation(x: real, y: real)

  const MIN_CURVE_VALUE := 0.000001
  const RESIDUAL_TAIL_FRACTION := 0.15

  function Max(a: real, b: real): real {
    if a < b then b else a
  }

  function Sum(xs: seq<real>): real {
    if xs == [] then 0.0 else xs[0] + Sum(xs[1..])
  }

  function Mean(xs: seq<real>): real
    requires xs != []
  {
    Sum(xs) / |xs| as real
  }

  /** The ratios at or above `progress`, in order. */
  function Tail(ratios: seq<real>, progress: real): seq<real> {
    if ratios == [] then []
    else (if ratios[0] >= progress then [ratios[0]] else []) + Tail(ratios[1..], progress)
  }

  function Stretched(observed: real): real {
    observed * (1.0 + RESIDUAL_TAIL_FRACTION)
  }

  /** The mean outcome of the runs that got at least this far, or the observation stretched. */
  function Forecast(ratios: seq<real>, base: real, observed: real): real
    requires base > 0.0
  {
    var tail := Tail(ratios, observed / base);
    if tail != [] then base * Mean(tail) else Stretched(observed)
  }

  datatype Line = Line(intercept: real, slope: real) {
    function At(x: real): real {
      intercept + slope * x
    }
  }

  /** A line with the ratio of every calibration sample to it. */
  datatype Curve = Curve(line: Line, ratios: seq<real>) {
    function Base(x: real): (b: real)
      ensures b > 0.0
    {
      Max(line.At(x), MIN_CURVE_VALUE)
    }

    /** The expected final value given what was observed so far. */
    function Expected(x: real, observed: real): real {
      if ratios == [] then Max(Base(x), Stretched(observed)) else Forecast(ratios, Base(x), observed)
    }
  }

  // ----- arithmetic

  lemma QuotientAtLeast(sum: real, n: real, bound: real)
    requires n > 0.0 && sum >= n * bound
    ensures sum / n >= bound
  {
    var q := sum / n;
    assert q * n == sum;
    if q < bound { ProductIsStrict(q, bound, n); }
  }

  lemma QuotientAtMost(sum: real, n: real, bound: real)
    requires n > 0.0 && sum <= n * bound
    ensures sum / n <= bound
  {
    var q := sum / n;
    assert q * n == sum;
    if q > bound { ProductIsStrict(bound, q, n); }
  }

  lemma ProductIsStrict(a: real, b: real, c: real)
    requires a < b && c > 0.0
    ensures a * c < b * c
  {
  }

  /** `n * p`, by repeated addition. */
  function Times(n: nat, p: real): real {
    if n == 0 then 0.0 else p + Times(n - 1, p)
  }

  lemma {:induction false} TimesIsProduct(n: nat, p: real)
    ensures Times(n, p) == n as real * p
  {
    if n > 0 {
      TimesIsProduct(n - 1, p);
      assert n as real * p == (n - 1) as real * p + p;
    }
  }

  lemma {:induction false} TimesAdds(a: nat, b: nat, p: real)
    ensures Times(a + b, p) == Times(a, p) + Times(b, p)
  {
    if a > 0 {
      TimesAdds(a - 1, b, p);
    }
  }

  lemma MeanAtLeast(xs: seq<real>, bound: real)
    requires xs != [] && Sum(xs) >= Times(|xs|, bound)
    ensures Mean(xs) >= bound
  {
    TimesIsProduct(|xs|, bound);
    QuotientAtLeast(Sum(xs), |xs| as real, bound);
  }

  lemma MeanAtMost(xs: seq<real>, bound: real)
    requires xs != [] && Sum(xs) <= Times(|xs|, bound)
    ensures Mean(xs) <= bound
  {
    TimesIsProduct(|xs|, bound);
    QuotientAtMost(Sum(xs), |xs| as real, bound);
  }

  lemma SumIsMeanTimes(xs: seq<real>)
    requires xs != []
    ensures Sum(xs) == Times(|xs|, Mean(xs))
  {
    TimesIsProduct(|xs|, Mean(xs));
  }

  // ----- the forecast

  lemma TailOfMore(ratios: seq<real>, p: real)
    requires ratios != []
    ensures var rest := Tail(ratios[1..], p);
            if ratios[0] >= p
            then |Tail(ratios, p)| == |rest| + 1 && Sum(Tail(ratios, p)) == ratios[0] + Sum(rest)
            else Tail(ratios, p) == rest
  {
    var rest := Tail(ratios[1..], p);
    assert ([ratios[0]] + rest)[1..] == rest;
  }

  lemma {:induction false} TailSumAtLeast(ratios: seq<real>, p: real)
    ensures Sum(Tail(ratios, p)) >= Times(|Tail(ratios, p)|, p)
  {
    if ratios != [] {
      TailSumAtLeast(ratios[1..], p);
      TailOfMore(ratios, p);
    }
  }

  /** Raising the bar from `p` to `q` drops only ratios below `q`, so below any `m` not less than `q`. */
  lemma {:induction false} TailSumsCompare(ratios: seq<real>, p: real, q: real, m: real)
    requires p <= q <= m
    ensures |Tail(ratios, q)| <= |Tail(ratios, p)|
    ensures Sum(Tail(ratios, p)) <= Sum(Tail(ratios, q)) + Times(|Tail(ratios, p)| - |Tail(ratios, q)|, m)
  {
    if ratios != [] {
      TailSumsCompare(ratios[1..], p, q, m);
      TailOfMore(ratios, p);
      TailOfMore(ratios, q);
    }
  }

  lemma TailMeanAtLeast(ratios: seq<real>, p: real)
    requires Tail(ratios, p) != []
    ensures Mean(Tail(ratios, p)) >= p
  {
    TailSumAtLeast(ratios, p);
    MeanAtLeast(Tail(ratios, p), p);
  }

  /** The further a run has got, the higher the mean of the runs that got as far. */
  lemma TailMeanIsMonotone(ratios: seq<real>, p: real, q: real)
    requires p <= q && Tail(ratios, q) != []
    ensures Tail(ratios, p) != [] && Mean(Tail(ratios, p)) <= Mean(Tail(ratios, q))
  {
    var a, b := Tail(ratios, p), Tail(ratios, q);
    var m := Mean(b);
    TailMeanAtLeast(ratios, q);
    TailSumsCompare(ratios, p, q, m);
    SumIsMeanTimes(b);
    TimesAdds(|a| - |b|, |b|, m);
    MeanAtMost(a, m);
  }

  /** When no run got as far as `q`, every tail mean is at most `q`. */
  lemma TailMeanBelowBar(ratios: seq<real>, p: real, q: real)
    requires p <= q && Tail(ratios, q) == [] && Tail(ratios, p) != []
    ensures Mean(Tail(ratios, p)) <= q
  {
    TailSumsCompare(ratios, p, q, q);
    MeanAtMost(Tail(ratios, p), q);
  }

  /** The forecast is never below what has been observed. */
  lemma ForecastCoversObservation(c: Curve, x: real, observed: real)
    requires observed >= 0.0
    ensures c.Expected(x, observed) >= observed
  {
    var base := c.Base(x);
    var progress := observed / base;
    assert progress * base == observed;
    if c.ratios != [] && Tail(c.ratios, progress) != [] {
      TailMeanAtLeast(c.ratios, progress);
      ProductsAreOrdered(progress, Mean(Tail(c.ratios, progress)), base);
    }
  }

  /** Observing more never lowers the forecast, also where the tail runs out and stretching takes over. */
  lemma ForecastIsMonotone(c: Curve, x: real, observed: real, more: real)
    requires 0.0 <= observed <= more
    ensures c.Expected(x, observed) <= c.Expected(x, more)
  {
    Stretching(observed, more);
    if c.ratios != [] {
      ForecastsAreOrdered(c.ratios, c.Base(x), observed, more);
    }
  }

  lemma ForecastsAreOrdered(ratios: seq<real>, base: real, observed: real, more: real)
    requires base > 0.0 && 0.0 <= observed <= more
    ensures Forecast(ratios, base, observed) <= Forecast(ratios, base, more)
  {
    var a, b := Tail(ratios, observed / base), Tail(ratios, more / base);
    Stretching(observed, more);
    TailForecastIsMonotone(ratios, base, observed, more);
    assert Forecast(ratios, base, observed) == if a != [] then base * Mean(a) else Stretched(observed);
    assert Forecast(ratios, base, more) == if b != [] then base * Mean(b) else Stretched(more);
  }

  lemma Stretching(observed: real, more: real)
    requires 0.0 <= observed <= more
    ensures more <= Stretched(more) && Stretched(observed) <= Stretched(more)
  {
  }

  lemma TailForecastIsMonotone(ratios: seq<real>, base: real, observed: real, more: real)
    requires base > 0.0 && 0.0 <= observed <= more
    ensures var a, b := Tail(ratios, observed / base), Tail(ratios, more / base);
            && (b != [] ==> a != [] && base * Mean(a) <= base * Mean(b))
            && (a != [] && b == [] ==> base * Mean(a) <= more)
  {
    QuotientsAreOrdered(observed, more, base);
    ScaledTailMeans(ratios, observed / base, more / base, base);
    assert (more / base) * base == more;
  }

  lemma ScaledTailMeans(ratios: seq<real>, p: real, q: real, base: real)
    requires base > 0.0 && p <= q
    ensures Tail(ratios, q) != [] ==>
              Tail(ratios, p) != [] && Mean(Tail(ratios, p)) * base <= Mean(Tail(ratios, q)) * base
    ensures Tail(ratios, p) != [] && Tail(ratios, q) == [] ==> Mean(Tail(ratios, p)) * base <= q * base
  {
    if Tail(ratios, q) != [] {
      TailMeanIsMonotone(ratios, p, q);
      ProductsAreOrdered(Mean(Tail(ratios, p)), Mean(Tail(ratios, q)), base);
    } else if Tail(ratios, p) != [] {
      TailMeanBelowBar(ratios, p, q);
      ProductsAreOrdered(Mean(Tail(ratios, p)), q, base);
    }
  }

  // ----- what the forecast is

  /** Without history the forecast is the largest of the line, the least value and the observation stretched by 15%. */
  lemma NoHistoryForecast(c: Curve, x: real, observed: real)
    requires c.ratios == []
    ensures var e := c.Expected(x, observed);
            && e >= c.line.intercept + c.line.slope * x && e >= 0.000001 && 100.0 * e >= 115.0 * observed
            && (e == c.line.intercept + c.line.slope * x || e == 0.000001 || 100.0 * e == 115.0 * observed)
  {
    StretchedByPercent(observed);
  }

  lemma {:induction false} SumOfParts(a: seq<real>, b: seq<real>)
    ensures Sum(a + b) == Sum(a) + Sum(b)
  {
    if a == [] {
      assert a + b == b;
    } else {
      assert (a + b)[1..] == a[1..] + b;
      SumOfParts(a[1..], b);
    }
  }

  lemma {:induction false} SumOfPermutation(a: seq<real>, b: seq<real>)
    requires multiset(a) == multiset(b)
    ensures Sum(a) == Sum(b)
    decreases |a|
  {
    if a == [] {
      assert b == [] by { assert |multiset(b)| == |b|; }
    } else {
      var k := FirstElsewhere(a, b);
      var before, after := b[..k], b[k + 1..];
      SumOfPermutation(a[1..], before + after);
      SumOfParts(before, [b[k]] + after);
      SumOfParts(before, after);
      assert ([b[k]] + after)[1..] == after;
    }
  }

  /** The ratios of the runs that got at least as far, each as often as it occurs. */
  ghost predicate Reached(ratios: seq<real>, base: real, observed: real, reached: seq<real>) {
    forall r: real :: multiset(reached)[r] == if r * base >= observed then multiset(ratios)[r] else 0
  }

  lemma {:induction false} TailIsReached(ratios: seq<real>, progress: real, r: real)
    ensures multiset(Tail(ratios, progress))[r] == if r >= progress then multiset(ratios)[r] else 0
  {
    if ratios != [] {
      TailIsReached(ratios[1..], progress, r);
      assert ratios == [ratios[0]] + ratios[1..];
    }
  }

  lemma BarIsObservation(r: real, base: real, observed: real)
    requires base > 0.0
    ensures r >= observed / base <==> r * base >= observed
  {
    assert observed / base * base == observed;
    if r < observed / base {
      ProductIsStrict(r, observed / base, base);
    } else {
      ProductsAreOrdered(observed / base, r, base);
    }
  }

  lemma TailIsPermutationOfReached(ratios: seq<real>, base: real, observed: real, reached: seq<real>)
    requires base > 0.0 && Reached(ratios, base, observed, reached)
    ensures multiset(Tail(ratios, observed / base)) == multiset(reached)
  {
    forall r: real | true
      ensures multiset(Tail(ratios, observed / base))[r] == multiset(reached)[r]
    {
      TailIsReached(ratios, observed / base, r);
      BarIsObservation(r, base, observed);
    }
  }

  lemma MeanOfPermutation(a: seq<real>, b: seq<real>)
    requires multiset(a) == multiset(b)
    ensures |a| == |b| && (a != [] ==> Mean(a) == Mean(b))
  {
    assert |multiset(a)| == |a| && |multiset(b)| == |b|;
    SumOfPermutation(a, b);
  }

  lemma ForecastIsMean(ratios: seq<real>, base: real, observed: real, reached: seq<real>)
    requires base > 0.0 && multiset(Tail(ratios, observed / base)) == multiset(reached)
    ensures Forecast(ratios, base, observed) == if reached != [] then base * Mean(reached) else Stretched(observed)
  {
    MeanOfPermutation(Tail(ratios, observed / base), reached);
  }

  /**
   With history the forecast is the mean outcome, on this curve, of exactly the runs that got at
   least as far, or the observation stretched by 15% when none did.
   */
  lemma ForecastIsMeanOfReached(c: Curve, x: real, observed: real, reached: seq<real>)
    requires c.ratios != [] && Reached(c.ratios, c.Base(x), observed, reached)
    ensures reached != [] ==> c.Expected(x, observed) == c.Base(x) * Mean(reached)
    ensures reached == [] ==> c.Expected(x, observed) == Stretched(observed)
  {
    TailIsPermutationOfReached(c.ratios, c.Base(x), observed, reached);
    ForecastIsMean(c.ratios, c.Base(x), observed, reached);
  }

  lemma StretchedByPercent(observed: real)
    ensures 100.0 * Stretched(observed) == 115.0 * observed
  {
  }
}
