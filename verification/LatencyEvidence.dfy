/** Which samples the latency model's answers rest on, and what it makes of each. */
module LatencyEvidence {
  import opened Sequences
  import opened LatencyCurve
  import opened RobustFit
  import opened LatencyModel

  // ----- a profile's samples

  /** The places of the samples of one kind and model. */
  function Places(samples: seq<Sample>, kind: CallKind, model: string): set<nat> {
    set k: nat | k < |samples| && samples[k].kind == kind && samples[k].model == model
  }

  lemma PlacesOfMore(samples: seq<Sample>, s: Sample, kind: CallKind, model: string)
    ensures Places(samples + [s], kind, model) ==
            if s.kind == kind && s.model == model then Places(samples, kind, model) + {|samples|} else Places(samples, kind, model)
  {
    var more := samples + [s];
    assert forall k | 0 <= k < |samples| :: more[k] == samples[k];
  }

  /** A profile's samples are those of its kind and model, each once, oldest first. */
  lemma {:induction false} MatchingInOrder(samples: seq<Sample>, p: Profile) returns (places: seq<nat>)
    ensures InOrder(places, Places(samples, p.kind, p.model)) && |Matching(samples, p)| == |places|
    ensures forall j | 0 <= j < |places| :: places[j] < |samples| && Matching(samples, p)[j] == samples[places[j]]
  {
    places := [];
    if samples != [] {
      var n := |samples| - 1;
      var init, s := samples[..n], samples[n];
      places := MatchingInOrder(init, p);
      FiltersOfMore(init, s, p);
      PlacesOfMore(init, s, p.kind, p.model);
      assert samples == init + [s];
      if s.kind == p.kind && s.model == p.model {
        OneMoreInOrder(places, Places(init, p.kind, p.model), n);
        places := places + [n];
      }
    }
  }

  // ----- which samples decide

  /** Two histories that hold the same samples of a profile, and any of them, answer for it alike. */
  lemma OwnSamplesDecide(a: seq<Sample>, b: seq<Sample>, p: Profile, metric: Metric)
    requires Matching(a, p) == Matching(b, p) && Matching(a, p) != []
    ensures FreshCurve(a, p, metric) == FreshCurve(b, p, metric) && FreshRate(a, p) == FreshRate(b, p)
  {
  }

  /** Every sample of the profile's kind taken for one of its model. */
  function Relabelled(samples: seq<Sample>, p: Profile): (r: seq<Sample>)
    ensures |r| == |samples|
    ensures forall i | 0 <= i < |r| :: r[i] == if samples[i].kind == p.kind then samples[i].(model := p.model) else samples[i]
  {
    if samples == [] then []
    else [if samples[0].kind == p.kind then samples[0].(model := p.model) else samples[0]] + Relabelled(samples[1..], p)
  }

  lemma HeadAlike(s: Sample, t: Sample, a: seq<Sample>, b: seq<Sample>, metric: Metric)
    requires t == s.(model := t.model)
    requires Observations(a, metric) == Observations(b, metric) && Rates(a) == Rates(b)
    ensures Observations([s] + a, metric) == Observations([t] + b, metric) && Rates([s] + a) == Rates([t] + b)
  {
    assert ([s] + a)[1..] == a && ([t] + b)[1..] == b;
  }

  lemma {:induction false} RelabelledAreAlike(samples: seq<Sample>, p: Profile, metric: Metric)
    ensures var own, kind := Matching(Relabelled(samples, p), p), OfKind(samples, p.kind);
            Observations(own, metric) == Observations(kind, metric) && Rates(own) == Rates(kind) && (own == [] <==> kind == [])
    ensures OfKind(Relabelled(samples, p), p.kind) == Matching(Relabelled(samples, p), p)
  {
    if samples != [] {
      var rest := Relabelled(samples[1..], p);
      RelabelledAreAlike(samples[1..], p, metric);
      assert Relabelled(samples, p)[1..] == rest;
      if samples[0].kind != p.kind {
        assert Matching(Relabelled(samples, p), p) == Matching(rest, p);
        assert OfKind(samples, p.kind) == OfKind(samples[1..], p.kind);
      } else {
        HeadAlike(samples[0].(model := p.model), samples[0],
                  Matching(Relabelled(samples[1..], p), p), OfKind(samples[1..], p.kind), metric);
      }
    }
  }

  /** For a profile without samples the answers are those it would have, were all samples of its kind its own. */
  lemma KindDecidesOtherwise(samples: seq<Sample>, p: Profile, metric: Metric)
    requires Matching(samples, p) == []
    ensures FreshCurve(samples, p, metric) == FreshCurve(Relabelled(samples, p), p, metric)
    ensures FreshRate(samples, p) == FreshRate(Relabelled(samples, p), p)
  {
    RelabelledAreAlike(samples, p, metric);
  }

  // ----- what is made of them

  /** What a sample measured. */
  function Measured(s: Sample, metric: Metric): real {
    if metric == FirstOutput then s.firstToken else if metric == Output then s.outputChars as real else s.total
  }

  /** A point for each sample, in order: its input size and what it measured. */
  lemma {:induction false} ObservationsInOrder(samples: seq<Sample>, metric: Metric, i: nat)
    requires i < |samples|
    ensures |Observations(samples, metric)| == |samples|
    ensures Observations(samples, metric)[i] == Observation(samples[i].inputSize as real, Measured(samples[i], metric))
  {
    if |samples| > 1 {
      ObservationsInOrder(samples[1..], metric, if i > 0 then i - 1 else 0);
    }
  }

  /** One sample puts each curve through what it measured. */
  lemma OneSampleIsReproduced(s: Sample, p: Profile, metric: Metric)
    requires s.kind == p.kind && s.model == p.model && Measured(s, metric) > 0.0
    ensures FreshCurve([s], p, metric).line.At(s.inputSize as real) == Measured(s, metric)
  {
    assert [s][1..] == [];
    assert Matching([s], p) == [s];
    var o := Observed(s, metric);
    assert Observations([s], metric) == [o];
    PriorIsPositive(Prior(p.kind, metric), o.x);
    SingleObservationCalibrates(o, Prior(p.kind, metric));
  }

  /** One sample that streamed for half a second or more gives the rate at which it streamed. */
  lemma OneSampleGivesItsRate(s: Sample, p: Profile)
    requires s.kind == p.kind && s.model == p.model
    ensures if s.outputChars > 0 && 2.0 * (s.total - s.firstToken) >= 1.0
            then FreshRate([s], p) * (s.total - s.firstToken) == s.outputChars as real
            else FreshRate([s], p) == 900.0
  {
    assert [s][1..] == [];
    assert Matching([s], p) == [s];
    if s.outputChars > 0 && s.total - s.firstToken >= 0.5 {
      var rate := s.outputChars as real / (s.total - s.firstToken);
      assert Rates([s]) == [rate];
      SingleMedian(rate);
      QuotientTimes(s.outputChars as real, s.total - s.firstToken);
    } else {
      assert Rates([s]) == [];
    }
  }

  /** The rates are taken sample by sample, in order. */
  lemma {:induction false} RatesOfParts(a: seq<Sample>, b: seq<Sample>)
    ensures Rates(a + b) == Rates(a) + Rates(b)
  {
    if a == [] {
      assert a + b == b;
    } else {
      assert (a + b)[1..] == a[1..] + b;
      RatesOfParts(a[1..], b);
    }
  }

  /**
   Several samples of one kind and model: the rate is the middle one, or the mean of the middle two,
   of the rates of those that streamed, in any rising order.
   */
  lemma RateIsMiddle(samples: seq<Sample>, p: Profile, rising: seq<real>)
    requires Matching(samples, p) != [] && Rising(rising) && rising != []
    requires multiset(rising) == multiset(Rates(Matching(samples, p)))
    ensures |rising| % 2 == 1 ==> FreshRate(samples, p) == rising[(|rising| - 1) / 2]
    ensures |rising| % 2 == 0 ==> FreshRate(samples, p) + FreshRate(samples, p) == rising[|rising| / 2 - 1] + rising[|rising| / 2]
  {
    var rates := Rates(Matching(samples, p));
    assert |multiset(rates)| == |multiset(rising)| == |rising|;
    MedianIsMiddle(rates, rising);
  }

  /** Without any sample of the kind the answers are fixed. */
  lemma NothingRecorded(p: Profile, x: real)
    ensures FreshCurve([], p, FirstOutput).line.At(x) == 1.5 + x / 60000.0
    ensures FreshCurve([], p, Output).line.At(x) ==
            if p.kind == Summary then 25000.0 else if p.kind == Reduce then 12000.0 else 1500.0
    ensures FreshCurve([], p, Duration).line.At(x) == 0.8 + x / 4000000.0
    ensures forall metric :: FreshCurve([], p, metric).ratios == []
    ensures FreshRate([], p) == 900.0
  {
  }
}
