/** The Theil-Sen line through calibration points, and the fitted curve with its residual ratios. */
module RobustFit {
  import opened Arithmetic
  import opened Wrappers
  import opened Sequences
  import opened Sorting
  import opened LatencyCurve

  function Ascending(): (real, real) -> bool {
    (a, b) => a <= b
  }

  /** `statistics.median` */
  function Median(xs: seq<real>): real
    requires xs != []
  {
    var sorted := Sort(xs, Ascending());
    var mid := |sorted| / 2;
    if |sorted| % 2 == 1 then sorted[mid] else (sorted[mid - 1] + sorted[mid]) / 2.0
  }

  predicate Rising(ys: seq<real>) {
    forall i, j | 0 <= i < j < |ys| :: ys[i] <= ys[j]
  }

  /** There is one way to put numbers in order. */
  lemma {:induction false} OneRisingOrder(a: seq<real>, b: seq<real>)
    requires Rising(a) && Rising(b) && multiset(a) == multiset(b)
    ensures a == b
  {
    assert |multiset(a)| == |a| && |multiset(b)| == |b|;
    if a != [] {
      assert a[0] in multiset(b) && b[0] in multiset(a);
      assert a == [a[0]] + a[1..] && b == [b[0]] + b[1..];
      assert a[0] == b[0];
      CancelOne(multiset(a[1..]), multiset(b[1..]), a[0]);
      OneRisingOrder(a[1..], b[1..]);
    }
  }

  /** The median is the middle value of the values in order, or the mean of the two middle ones. */
  lemma MedianIsMiddle(xs: seq<real>, ys: seq<real>)
    requires xs != [] && multiset(ys) == multiset(xs) && Rising(ys)
    ensures |ys| == |xs|
    ensures |ys| % 2 == 1 ==> Median(xs) == ys[(|ys| - 1) / 2]
    ensures |ys| % 2 == 0 ==> ys[|ys| / 2 - 1] + ys[|ys| / 2] == Median(xs) + Median(xs)
  {
    var sorted := Sort(xs, Ascending());
    AscendingIsTotal();
    SortSorts(xs, Ascending());
    assert forall i, j | 0 <= i < j < |sorted| :: Ascending()(sorted[i], sorted[j]);
    OneRisingOrder(sorted, ys);
  }

  /** How many of the values lie between `low` and `high`. */
  function CountIn(xs: seq<real>, low: real, high: real): nat {
    if xs == [] then 0 else (if low <= xs[0] <= high then 1 else 0) + CountIn(xs[1..], low, high)
  }

  lemma {:induction false} CountOfInsert(x: real, xs: seq<real>, low: real, high: real)
    ensures CountIn(Insert(x, xs, Ascending()), low, high) == CountIn([x] + xs, low, high)
  {
    var leq := Ascending();
    if xs != [] && !leq(x, xs[0]) {
      CountOfInsert(x, xs[1..], low, high);
      var rest := Insert(x, xs[1..], leq);
      assert Insert(x, xs, leq) == [xs[0]] + rest;
      assert ([xs[0]] + rest)[1..] == rest && ([x] + xs[1..])[1..] == xs[1..] && ([x] + xs)[1..] == xs;
    }
  }

  lemma {:induction false} CountOfSort(xs: seq<real>, low: real, high: real)
    ensures CountIn(Sort(xs, Ascending()), low, high) == CountIn(xs, low, high)
  {
    if xs != [] {
      var rest := Sort(xs[1..], Ascending());
      CountOfSort(xs[1..], low, high);
      CountOfInsert(xs[0], rest, low, high);
      assert ([xs[0]] + rest)[1..] == rest;
    }
  }

  lemma {:induction false} CountOfParts(a: seq<real>, b: seq<real>, low: real, high: real)
    ensures CountIn(a + b, low, high) == CountIn(a, low, high) + CountIn(b, low, high)
  {
    if a == [] {
      assert a + b == b;
    } else {
      assert (a + b)[1..] == a[1..] + b;
      CountOfParts(a[1..], b, low, high);
    }
  }

  lemma {:induction false} CountIsBounded(xs: seq<real>, low: real, high: real)
    ensures CountIn(xs, low, high) <= |xs|
  {
    if xs != [] {
      CountIsBounded(xs[1..], low, high);
    }
  }

  lemma {:induction false} CountOutside(xs: seq<real>, low: real, high: real)
    requires forall i | 0 <= i < |xs| :: xs[i] < low || xs[i] > high
    ensures CountIn(xs, low, high) == 0
  {
    if xs != [] {
      CountOutside(xs[1..], low, high);
    }
  }

  lemma AscendingIsTotal()
    ensures TotalPreorder(Ascending())
  {
  }

  /** In a sorted list most of whose values lie in a range, every middle value lies in it. */
  lemma MiddleIsInMajority(ys: seq<real>, low: real, high: real, k: nat)
    requires Sorted(ys, Ascending()) && 2 * CountIn(ys, low, high) > |ys|
    requires (|ys| - 1) / 2 <= k <= |ys| / 2 && k < |ys|
    ensures low <= ys[k] <= high
  {
    assert ys == ys[..k + 1] + ys[k + 1..] == ys[..k] + ys[k..];
    CountIsBounded(ys[..k], low, high);
    CountIsBounded(ys[k + 1..], low, high);
    CountOfParts(ys[..k + 1], ys[k + 1..], low, high);
    CountOfParts(ys[..k], ys[k..], low, high);
    if ys[k] < low {
      NoneUpTo(ys, k, low, high);
    } else if ys[k] > high {
      NoneFrom(ys, k, low, high);
    }
  }

  lemma NoneUpTo(ys: seq<real>, k: nat, low: real, high: real)
    requires Sorted(ys, Ascending()) && k < |ys| && ys[k] < low
    ensures CountIn(ys[..k + 1], low, high) == 0
  {
    var part := ys[..k + 1];
    forall i | 0 <= i < |part|
      ensures part[i] < low || part[i] > high
    {
      assert i < k ==> Ascending()(ys[i], ys[k]);
    }
    CountOutside(part, low, high);
  }

  lemma NoneFrom(ys: seq<real>, k: nat, low: real, high: real)
    requires Sorted(ys, Ascending()) && k < |ys| && ys[k] > high
    ensures CountIn(ys[k..], low, high) == 0
  {
    var part := ys[k..];
    forall i | 0 <= i < |part|
      ensures part[i] < low || part[i] > high
    {
      assert i > 0 ==> Ascending()(ys[k], ys[k + i]);
    }
    CountOutside(part, low, high);
  }

  lemma MidpointIsBetween(a: real, b: real, low: real, high: real)
    requires low <= a <= high && low <= b <= high
    ensures low <= (a + b) / 2.0 <= high
  {
  }

  /** Outliers do not move the median out of a range that holds more than half of the values. */
  lemma MedianIsInMajority(xs: seq<real>, low: real, high: real)
    requires xs != [] && 2 * CountIn(xs, low, high) > |xs|
    ensures low <= Median(xs) <= high
  {
    var ys := Sort(xs, Ascending());
    var mid := |ys| / 2;
    AscendingIsTotal();
    SortSorts(xs, Ascending());
    CountOfSort(xs, low, high);
    MiddleIsInMajority(ys, low, high, mid);
    if |ys| % 2 == 0 {
      MiddleIsInMajority(ys, low, high, mid - 1);
      MidpointIsBetween(ys[mid - 1], ys[mid], low, high);
    }
  }

  // ----- the line

  /** The slopes of `p` to each of the points that has another x. */
  function SlopesFrom(p: Observation, points: seq<Observation>): seq<real> {
    if points == [] then []
    else
      var q := points[0];
      (if q.x != p.x then [(q.y - p.y) / (q.x - p.x)] else []) + SlopesFrom(p, points[1..])
  }

  /** The slopes of all pairs of points with distinct x, in the order of `itertools.combinations`. */
  function Slopes(points: seq<Observation>): (r: seq<real>)
    ensures r != [] ==> points != []
  {
    if points == [] then [] else SlopesFrom(points[0], points[1..]) + Slopes(points[1..])
  }

  function Offsets(points: seq<Observation>, slope: real): (r: seq<real>)
    ensures |r| == |points|
  {
    if points == [] then [] else [points[0].y - slope * points[0].x] + Offsets(points[1..], slope)
  }

  lemma {:induction false} SlopesNeedTwoPoints(points: seq<Observation>)
    ensures Slopes(points) == [] <==> forall i, j | 0 <= i < j < |points| :: points[i].x == points[j].x
  {
    if points != [] {
      SlopesNeedTwoPoints(points[1..]);
      SlopesFromOne(points[0], points[1..]);
    }
  }

  lemma {:induction false} SlopesFromOne(p: Observation, points: seq<Observation>)
    ensures SlopesFrom(p, points) == [] <==> forall j | 0 <= j < |points| :: points[j].x == p.x
  {
    if points != [] {
      SlopesFromOne(p, points[1..]);
    }
  }

  function MedianOffset(points: seq<Observation>, slope: real): real
    requires points != []
  {
    Median(Offsets(points, slope))
  }

  /** No line for a fit of which nothing is left. */
  function LineOf(slope: real, intercept: real): Option<Line> {
    if slope <= 0.0 && intercept <= 0.0 then None else Some(Line(intercept, slope))
  }

  function FitOfSlope(points: seq<Observation>, slope: real): Option<Line>
    requires points != []
  {
    LineOf(slope, Max(0.0, MedianOffset(points, slope)))
  }

  function TheilSen(points: seq<Observation>): Option<Line> {
    var slopes := Slopes(points);
    if slopes == [] then None
    else
      FitOfSlope(points, Max(0.0, Median(slopes)))
  }

  /** The fit exists only over two distinct sizes, and neither of its terms is negative. */
  lemma FitIsNonNegative(points: seq<Observation>)
    ensures TheilSen(points).Some? ==>
              var l := TheilSen(points).value;
              l.intercept >= 0.0 && l.slope >= 0.0 && l.intercept + l.slope > 0.0
              && Spread(points)
  {
    SlopesNeedTwoPoints(points);
  }

  /** If more than half of the pairwise slopes lie in a range of non-negatives, so does the fitted slope. */
  lemma FitResistsOutliers(points: seq<Observation>, low: real, high: real)
    requires 0.0 <= low && 2 * CountIn(Slopes(points), low, high) > |Slopes(points)|
    ensures TheilSen(points).Some? ==> low <= TheilSen(points).value.slope <= high
  {
    MedianIsInMajority(Slopes(points), low, high);
  }

  predicate On(p: Observation, l: Line) {
    p.y == l.At(p.x)
  }

  predicate OnLine(points: seq<Observation>, l: Line) {
    forall i | 0 <= i < |points| :: On(points[i], l)
  }

  lemma {:induction false} LineSlopesAgree(points: seq<Observation>, l: Line)
    requires OnLine(points, l)
    ensures CountIn(Slopes(points), l.slope, l.slope) == |Slopes(points)|
  {
    if points != [] {
      LineSlopesAgree(points[1..], l);
      LineSlopesFromOneAgree(points[0], points[1..], l);
      CountOfParts(SlopesFrom(points[0], points[1..]), Slopes(points[1..]), l.slope, l.slope);
    }
  }

  lemma {:induction false} LineSlopesFromOneAgree(p: Observation, points: seq<Observation>, l: Line)
    requires On(p, l) && OnLine(points, l)
    ensures CountIn(SlopesFrom(p, points), l.slope, l.slope) == |SlopesFrom(p, points)|
  {
    if points != [] {
      var rest := SlopesFrom(p, points[1..]);
      LineSlopesFromOneAgree(p, points[1..], l);
      if points[0].x != p.x {
        SlopeOfTwo(p, points[0], l);
        assert ([l.slope] + rest)[1..] == rest;
      } else {
        assert SlopesFrom(p, points) == rest;
      }
    }
  }

  lemma SlopeOfTwo(p: Observation, q: Observation, l: Line)
    requires p.x != q.x && On(p, l) && On(q, l)
    ensures (q.y - p.y) / (q.x - p.x) == l.slope
  {
    assert q.y - p.y == l.slope * (q.x - p.x);
    ProductQuotient(l.slope, q.x - p.x);
  }

  lemma ProductQuotient(a: real, d: real)
    requires d != 0.0
    ensures a * d / d == a
  {
  }

  lemma {:induction false} LineOffsetsAgree(points: seq<Observation>, l: Line)
    requires OnLine(points, l)
    ensures CountIn(Offsets(points, l.slope), l.intercept, l.intercept) == |points|
  {
    if points != [] {
      LineOffsetsAgree(points[1..], l);
      assert Offsets(points, l.slope)[1..] == Offsets(points[1..], l.slope);
    }
  }

  lemma MedianOfAgreeing(xs: seq<real>, v: real)
    requires xs != [] && CountIn(xs, v, v) == |xs|
    ensures Median(xs) == v
  {
    MedianIsInMajority(xs, v, v);
  }

  /** Sizes that differ somewhere. */
  ghost predicate Spread(points: seq<Observation>) {
    exists i, j :: 0 <= i < j < |points| && points[i].x != points[j].x
  }

  lemma FitOfMedians(points: seq<Observation>, l: Line)
    requires l.intercept >= 0.0 && l.slope >= 0.0 && l.intercept + l.slope > 0.0
    requires points != [] && Slopes(points) != []
    requires Median(Slopes(points)) == l.slope && MedianOffset(points, l.slope) == l.intercept
    ensures TheilSen(points) == Some(l)
  {
    assert Max(0.0, l.slope) == l.slope && Max(0.0, l.intercept) == l.intercept;
    assert TheilSen(points) == FitOfSlope(points, l.slope);
  }

  /** Points on a line with non-negative terms, over two distinct sizes, are fitted by that very line. */
  lemma FitRecoversLine(points: seq<Observation>, l: Line)
    requires OnLine(points, l) && l.intercept >= 0.0 && l.slope >= 0.0 && l.intercept + l.slope > 0.0
    requires Spread(points)
    ensures TheilSen(points) == Some(l)
  {
    SlopesNeedTwoPoints(points);
    LineSlopesAgree(points, l);
    MedianOfAgreeing(Slopes(points), l.slope);
    LineOffsetsAgree(points, l);
    MedianOfAgreeing(Offsets(points, l.slope), l.intercept);
    FitOfMedians(points, l);
  }

  // ----- outliers

  /** How many pairs `n` points make. */
  function Pairs(n: nat): nat {
    if n == 0 then 0 else Pairs(n - 1) + n - 1
  }

  predicate DistinctSizes(points: seq<Observation>) {
    forall i, j | 0 <= i < j < |points| :: points[i].x != points[j].x
  }

  /** How many of the points are on the line. */
  function CountOn(points: seq<Observation>, l: Line): (n: nat)
    ensures n <= |points|
  {
    if points == [] then 0 else (if On(points[0], l) then 1 else 0) + CountOn(points[1..], l)
  }

  lemma {:induction false} EveryOtherPointGivesASlope(p: Observation, points: seq<Observation>)
    requires forall j | 0 <= j < |points| :: points[j].x != p.x
    ensures |SlopesFrom(p, points)| == |points|
  {
    if points != [] {
      EveryOtherPointGivesASlope(p, points[1..]);
    }
  }

  lemma {:induction false} EveryPairGivesASlope(points: seq<Observation>)
    requires DistinctSizes(points)
    ensures |Slopes(points)| == Pairs(|points|)
  {
    if points != [] {
      EveryPairGivesASlope(points[1..]);
      EveryOtherPointGivesASlope(points[0], points[1..]);
    }
  }

  lemma {:induction false} SlopesOnTheLineFrom(p: Observation, points: seq<Observation>, l: Line)
    requires On(p, l) && forall j | 0 <= j < |points| :: points[j].x != p.x
    ensures CountIn(SlopesFrom(p, points), l.slope, l.slope) >= CountOn(points, l)
  {
    if points != [] {
      var rest := SlopesFrom(p, points[1..]);
      SlopesOnTheLineFrom(p, points[1..], l);
      var slope := (points[0].y - p.y) / (points[0].x - p.x);
      assert ([slope] + rest)[1..] == rest;
      if On(points[0], l) {
        SlopeOfTwo(p, points[0], l);
      }
    }
  }

  /** Every pair of points on the line has its slope. */
  lemma {:induction false} SlopesOnTheLine(points: seq<Observation>, l: Line)
    requires DistinctSizes(points)
    ensures CountIn(Slopes(points), l.slope, l.slope) >= Pairs(CountOn(points, l))
  {
    if points != [] {
      var first := SlopesFrom(points[0], points[1..]);
      SlopesOnTheLine(points[1..], l);
      CountOfParts(first, Slopes(points[1..]), l.slope, l.slope);
      assert CountIn(Slopes(points), l.slope, l.slope) >= CountIn(first, l.slope, l.slope) + Pairs(CountOn(points[1..], l));
      if On(points[0], l) {
        SlopesOnTheLineFrom(points[0], points[1..], l);
      }
    }
  }

  lemma {:induction false} OffsetsOnTheLine(points: seq<Observation>, l: Line)
    ensures CountIn(Offsets(points, l.slope), l.intercept, l.intercept) >= CountOn(points, l)
  {
    if points != [] {
      OffsetsOnTheLine(points[1..], l);
      assert Offsets(points, l.slope)[1..] == Offsets(points[1..], l.slope);
    }
  }

  lemma {:induction false} HalfThePointsMakeFewPairs(good: nat, n: nat)
    requires 2 * good <= n
    ensures 2 * Pairs(good) <= Pairs(n)
  {
    if good > 0 {
      HalfThePointsMakeFewPairs(good - 1, n - 2);
      assert Pairs(n) == Pairs(n - 1) + n - 1 && Pairs(n - 1) == Pairs(n - 2) + n - 2;
    }
  }

  /** Points that make most of the pairs are most of the points. */
  lemma MostPairsNeedMostPoints(good: nat, n: nat)
    requires 2 * Pairs(good) > Pairs(n)
    ensures 2 * good > n
  {
    if 2 * good <= n {
      HalfThePointsMakeFewPairs(good, n);
    }
  }

  /**
   Outliers are ignored: over distinct sizes, the fit is the very line that so many points are on
   that their pairs are more than half of all pairs, wherever the other points are.
   */
  lemma FitIgnoresOutliers(points: seq<Observation>, l: Line)
    requires DistinctSizes(points) && l.intercept >= 0.0 && l.slope >= 0.0 && l.intercept + l.slope > 0.0
    requires 2 * Pairs(CountOn(points, l)) > Pairs(|points|)
    ensures TheilSen(points) == Some(l)
  {
    EveryPairGivesASlope(points);
    SlopesOnTheLine(points, l);
    MedianIsInMajority(Slopes(points), l.slope, l.slope);
    MostPairsNeedMostPoints(CountOn(points, l), |points|);
    OffsetsOnTheLine(points, l);
    MedianIsInMajority(Offsets(points, l.slope), l.intercept, l.intercept);
    FitOfMedians(points, l);
  }

  // ----- the curve

  /** What an observation was in terms of the line. */
  function Ratio(p: Observation, l: Line): real
    requires l.At(p.x) != 0.0
  {
    p.y / l.At(p.x)
  }

  /** The observed-to-prior ratios. */
  function PriorRatios(points: seq<Observation>, prior: Line): (r: seq<real>)
    requires forall p | p in points :: prior.At(p.x) != 0.0
    ensures |r| == |points|
  {
    if points == [] then [] else [Ratio(points[0], prior)] + PriorRatios(points[1..], prior)
  }

  /** The ratios to the fitted line, where it is positive. */
  function Residuals(points: seq<Observation>, l: Line): seq<real> {
    if points == [] then []
    else (if l.At(points[0].x) > 0.0 then [Ratio(points[0], l)] else []) + Residuals(points[1..], l)
  }

  function Rescaled(l: Line, scale: real): Line {
    Line(l.intercept * scale, l.slope * scale)
  }

  /** The fitted line, or the prior rescaled by the median ratio when no line can be fitted. */
  function FitLine(points: seq<Observation>, prior: Line): Line
    requires forall p | p in points :: prior.At(p.x) != 0.0
  {
    match TheilSen(points)
    case Some(l) => l
    case None =>
      var scale := if points == [] then 1.0 else Median(PriorRatios(points, prior));
      Rescaled(prior, if scale <= 0.0 then 1.0 else scale)
  }

  function FitCurve(points: seq<Observation>, prior: Line): Curve
    requires forall p | p in points :: prior.At(p.x) != 0.0
  {
    var l := FitLine(points, prior);
    Curve(l, Residuals(points, l))
  }

  /** The places of the points over which the line is positive. */
  function Positive(points: seq<Observation>, l: Line): set<nat> {
    set k: nat | k < |points| && l.At(points[k].x) > 0.0
  }

  lemma {:induction false} ResidualsOfMore(points: seq<Observation>, p: Observation, l: Line)
    ensures Residuals(points + [p], l) == Residuals(points, l) + if l.At(p.x) > 0.0 then [Ratio(p, l)] else []
  {
    if points == [] {
      assert [p][1..] == [];
    } else {
      assert (points + [p])[1..] == points[1..] + [p];
      ResidualsOfMore(points[1..], p, l);
    }
  }

  /** Times the line the ratio is the point at the place. */
  predicate IsRatioAt(points: seq<Observation>, l: Line, place: nat, ratio: real) {
    place < |points| && ratio * l.At(points[place].x) == points[place].y
  }

  lemma RatioIsRatioAt(points: seq<Observation>, l: Line, place: nat)
    requires place < |points| && l.At(points[place].x) > 0.0
    ensures IsRatioAt(points, l, place, Ratio(points[place], l))
  {
    QuotientTimes(points[place].y, l.At(points[place].x));
  }

  lemma QuotientTimes(a: real, d: real)
    requires d > 0.0
    ensures a / d * d == a
  {
  }

  lemma PositiveOfMore(points: seq<Observation>, p: Observation, l: Line)
    ensures Positive(points + [p], l) == if l.At(p.x) > 0.0 then Positive(points, l) + {|points|} else Positive(points, l)
  {
    var more := points + [p];
    assert forall k | 0 <= k < |points| :: more[k] == points[k];
  }

  predicate AreRatios(points: seq<Observation>, l: Line, places: seq<nat>, ratios: seq<real>) {
    |ratios| == |places| && forall j | 0 <= j < |places| :: IsRatioAt(points, l, places[j], ratios[j])
  }

  lemma RatiosOfMore(points: seq<Observation>, p: Observation, l: Line, places: seq<nat>, ratios: seq<real>)
    requires AreRatios(points, l, places, ratios)
    ensures AreRatios(points + [p], l, places, ratios)
    ensures l.At(p.x) > 0.0 ==> AreRatios(points + [p], l, places + [|points|], ratios + [Ratio(p, l)])
  {
    var more := points + [p];
    forall j | 0 <= j < |places|
      ensures IsRatioAt(more, l, places[j], ratios[j])
    {
      assert IsRatioAt(points, l, places[j], ratios[j]);
    }
    if l.At(p.x) > 0.0 { RatioIsRatioAt(more, l, |points|); }
  }

  /** One ratio, in order, for each point over which the line is positive. */
  lemma {:induction false} ResidualsAreRatios(points: seq<Observation>, l: Line) returns (places: seq<nat>)
    ensures InOrder(places, Positive(points, l)) && AreRatios(points, l, places, Residuals(points, l))
  {
    places := [];
    if points != [] {
      var n := |points| - 1;
      var init, p := points[..n], points[n];
      places := ResidualsAreRatios(init, l);
      RatiosOfMore(init, p, l, places, Residuals(init, l));
      ResidualsOfMore(init, p, l);
      PositiveOfMore(init, p, l);
      assert points == init + [p];
      if l.At(p.x) > 0.0 {
        OneMoreInOrder(places, Positive(init, l), n);
        places := places + [n];
      }
    }
  }

  // ----- samples of one size

  function Map(f: real -> real, xs: seq<real>): (r: seq<real>)
    ensures |r| == |xs|
  {
    if xs == [] then [] else [f(xs[0])] + Map(f, xs[1..])
  }

  ghost predicate KeepsOrder(f: real -> real) {
    forall a, b :: a <= b <==> f(a) <= f(b)
  }

  lemma {:induction false} InsertMapped(f: real -> real, x: real, xs: seq<real>)
    requires KeepsOrder(f)
    ensures Insert(f(x), Map(f, xs), Ascending()) == Map(f, Insert(x, xs, Ascending()))
  {
    if xs != [] && !(x <= xs[0]) {
      InsertMapped(f, x, xs[1..]);
      assert Insert(x, xs, Ascending())[1..] == Insert(x, xs[1..], Ascending());
    } else {
      assert ([x] + xs)[1..] == xs;
    }
  }

  lemma {:induction false} SortMapped(f: real -> real, xs: seq<real>)
    requires KeepsOrder(f)
    ensures Sort(Map(f, xs), Ascending()) == Map(f, Sort(xs, Ascending()))
  {
    if xs != [] {
      SortMapped(f, xs[1..]);
      InsertMapped(f, xs[0], Sort(xs[1..], Ascending()));
    }
  }

  lemma {:induction false} MapAt(f: real -> real, xs: seq<real>, k: nat)
    requires k < |xs|
    ensures Map(f, xs)[k] == f(xs[k])
  {
    if k > 0 {
      MapAt(f, xs[1..], k - 1);
    }
  }

  /** The middle values of a list and of its image under an order-preserving map are those of the same elements. */
  lemma MedianMapped(f: real -> real, xs: seq<real>) returns (a: real, b: real)
    requires KeepsOrder(f) && xs != []
    ensures || (Median(xs) == a && Median(Map(f, xs)) == f(a))
            || (Median(xs) == (a + b) / 2.0 && Median(Map(f, xs)) == (f(a) + f(b)) / 2.0)
  {
    var sorted := Sort(xs, Ascending());
    var mid := |sorted| / 2;
    SortMapped(f, xs);
    MapAt(f, sorted, mid);
    a, b := sorted[mid], sorted[mid];
    if |sorted| % 2 == 0 {
      MapAt(f, sorted, mid - 1);
      a := sorted[mid - 1];
    }
  }

  lemma ScalingKeepsOrder(a: real, b: real, d: real)
    requires d > 0.0
    ensures a <= b <==> a * d <= b * d
  {
    if a <= b {
      ProductsAreOrdered(a, b, d);
    } else {
      ProductIsStrict(b, a, d);
    }
  }

  lemma ScaledMidpoint(a: real, b: real, d: real)
    ensures (a + b) / 2.0 * d == (a * d + b * d) / 2.0
  {
  }

  ghost predicate Scales(f: real -> real, d: real) {
    forall r :: f(r) == r * d
  }

  lemma ScalesKeepsOrder(f: real -> real, d: real)
    requires d > 0.0 && Scales(f, d)
    ensures KeepsOrder(f)
  {
    forall a, b | true
      ensures a <= b <==> f(a) <= f(b)
    {
      ScalingKeepsOrder(a, b, d);
    }
  }

  lemma MidpointScales(f: real -> real, d: real, a: real, b: real)
    requires Scales(f, d)
    ensures (f(a) + f(b)) / 2.0 == f((a + b) / 2.0)
  {
    ScaledMidpoint(a, b, d);
  }

  lemma MedianScales(f: real -> real, d: real, xs: seq<real>)
    requires d > 0.0 && Scales(f, d) && xs != []
    ensures Median(Map(f, xs)) == f(Median(xs))
  {
    ScalesKeepsOrder(f, d);
    var a, b := MedianMapped(f, xs);
    MidpointScales(f, d, a, b);
  }

  function Values(points: seq<Observation>): (r: seq<real>)
    ensures |r| == |points|
  {
    if points == [] then [] else [points[0].y] + Values(points[1..])
  }

  predicate OfSize(points: seq<Observation>, x: real) {
    forall i | 0 <= i < |points| :: points[i].x == x
  }

  lemma {:induction false} RatiosAreScaledValues(points: seq<Observation>, prior: Line, x: real, f: real -> real)
    requires OfSize(points, x) && prior.At(x) > 0.0 && forall p | p in points :: prior.At(p.x) != 0.0
    requires Scales(f, prior.At(x))
    ensures Map(f, PriorRatios(points, prior)) == Values(points)
  {
    if points != [] {
      var ratio, rest := Ratio(points[0], prior), PriorRatios(points[1..], prior);
      RatiosAreScaledValues(points[1..], prior, x, f);
      QuotientTimes(points[0].y, prior.At(x));
      assert f(ratio) == points[0].y;
      assert ([ratio] + rest)[1..] == rest;
    }
  }

  lemma RescaledAt(l: Line, scale: real, x: real)
    ensures Rescaled(l, scale).At(x) == scale * l.At(x)
  {
    assert l.intercept * scale + l.slope * scale * x == scale * (l.intercept + l.slope * x);
  }

  /** Samples of one size put the curve through their median there. */
  lemma OneSizeFitsItsMedian(points: seq<Observation>, prior: Line, x: real)
    requires points != [] && OfSize(points, x) && prior.At(x) > 0.0 && Median(Values(points)) > 0.0
    requires forall p | p in points :: prior.At(p.x) != 0.0
    ensures FitCurve(points, prior).line.At(x) == Median(Values(points))
  {
    var d := prior.At(x);
    var f := r => r * d;
    MedianRatio(points, prior, x, f);
    ScaledThrough(prior, x, f, Median(PriorRatios(points, prior)));
    OneSizeIsRescaled(points, prior, x);
  }

  lemma ScaledThrough(prior: Line, x: real, f: real -> real, scale: real)
    requires Scales(f, prior.At(x)) && prior.At(x) > 0.0 && f(scale) > 0.0
    ensures scale > 0.0 && Rescaled(prior, scale).At(x) == f(scale)
  {
    PositiveFactor(scale, prior.At(x));
    RescaledAt(prior, scale, x);
  }

  lemma OneSizeIsRescaled(points: seq<Observation>, prior: Line, x: real)
    requires points != [] && OfSize(points, x) && forall p | p in points :: prior.At(p.x) != 0.0
    requires Median(PriorRatios(points, prior)) > 0.0
    ensures FitLine(points, prior) == Rescaled(prior, Median(PriorRatios(points, prior)))
  {
    SlopesNeedTwoPoints(points);
  }

  lemma MedianRatio(points: seq<Observation>, prior: Line, x: real, f: real -> real)
    requires points != [] && OfSize(points, x) && prior.At(x) > 0.0 && Scales(f, prior.At(x))
    requires forall p | p in points :: prior.At(p.x) != 0.0
    ensures f(Median(PriorRatios(points, prior))) == Median(Values(points))
  {
    RatiosAreScaledValues(points, prior, x, f);
    MedianScales(f, prior.At(x), PriorRatios(points, prior));
  }

  lemma PositiveFactor(r: real, d: real)
    requires r * d > 0.0 && d > 0.0
    ensures r > 0.0
  {
    if r <= 0.0 {
      ProductsAreOrdered(r, 0.0, d);
    }
  }

  lemma SingleMedian(v: real)
    ensures Median([v]) == v
  {
    assert [v][1..] == [];
    MedianOfAgreeing([v], v);
  }

  lemma RatioTimesLine(p: Observation, l: Line)
    requires p.y > 0.0 && l.At(p.x) > 0.0
    ensures Ratio(p, l) > 0.0 && Rescaled(l, Ratio(p, l)).At(p.x) == p.y
  {
    var r := Ratio(p, l);
    assert r * l.At(p.x) == p.y;
    assert l.intercept * r + l.slope * r * p.x == r * l.At(p.x);
  }

  lemma SingleObservationLine(p: Observation, prior: Line)
    requires p.y > 0.0 && prior.At(p.x) > 0.0
    ensures FitLine([p], prior) == Rescaled(prior, Ratio(p, prior))
  {
    var points := [p];
    assert points[0] == p && points[1..] == [];
    SlopesNeedTwoPoints(points);
    assert TheilSen(points) == None;
    assert PriorRatios(points, prior) == [Ratio(p, prior)] + PriorRatios(points[1..], prior);
    assert PriorRatios(points, prior) == [Ratio(p, prior)];
    SingleMedian(Ratio(p, prior));
    RatioTimesLine(p, prior);
  }

  lemma SelfRatio(p: Observation, l: Line)
    requires p.y > 0.0 && l.At(p.x) == p.y
    ensures Ratio(p, l) == 1.0
  {
    SelfQuotient(p.y);
  }

  lemma SelfQuotient(a: real)
    requires a > 0.0
    ensures a / a == 1.0
  {
  }

  lemma SingleResidual(p: Observation, l: Line)
    requires p.y > 0.0 && l.At(p.x) == p.y
    ensures Residuals([p], l) == [1.0]
  {
    var points := [p];
    assert points[0] == p && points[1..] == [];
    SelfRatio(p, l);
    assert Residuals(points, l) == [Ratio(p, l)] + Residuals(points[1..], l);
  }

  lemma UnitRatioForecast(c: Curve, x: real)
    requires c.ratios == [1.0]
    ensures c.Expected(x, 0.0) == c.Base(x)
  {
    assert [1.0][1..] == [];
    assert 0.0 / c.Base(x) == 0.0;
    assert Tail([1.0], 0.0) == [1.0];
    assert Mean([1.0]) == 1.0;
  }

  /** A single positive observation is reproduced exactly: the prior is scaled through it. */
  lemma SingleObservationCalibrates(p: Observation, prior: Line)
    requires p.y > 0.0 && prior.At(p.x) > 0.0
    ensures var c := FitCurve([p], prior);
            c.line.At(p.x) == p.y && c.ratios == [1.0] && c.Expected(p.x, 0.0) == Max(p.y, MIN_CURVE_VALUE)
  {
    SingleObservationLine(p, prior);
    RatioTimesLine(p, prior);
    SingleResidual(p, Rescaled(prior, Ratio(p, prior)));
    UnitRatioForecast(FitCurve([p], prior), p.x);
  }
}
