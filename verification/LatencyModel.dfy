/** The persistent latency model: trimmed history, cached curves and rates. */
module LatencyModel {
  import opened Arithmetic
  import opened LatencyCurve
  import opened RobustFit

  datatype CallKind = Count | Summary | Reduce | Single
  datatype Metric = FirstOutput | Output | Duration

  datatype Profile = Profile(kind: CallKind, model: string)

  /** One measured call; `firstToken` and `total` are seconds. */
  datatype Sample = Sample(kind: CallKind, model: string, inputSize: nat, outputChars: nat, firstToken: real, total: real)

  const HISTORY_LIMIT := 48
  const PRIOR_CALL_OVERHEAD_SECONDS := 1.5
  const PRIOR_PREFILL_TOKENS_PER_SECOND := 60000.0
  const PRIOR_DECODE_CHARS_PER_SECOND := 900.0
  const PRIOR_COUNT_OVERHEAD_SECONDS := 0.8
  const PRIOR_COUNT_CHARS_PER_SECOND := 4000000.0
  const MIN_DECODE_SECONDS := 0.5

  function PriorOutputChars(kind: CallKind): real {
    match kind
    case Summary => 25000.0
    case Reduce => 12000.0
    case Single => 1500.0
    case Count => 1500.0
  }

  predicate Of(s: Sample, p: Profile) {
    s.kind == p.kind && s.model == p.model
  }

  function Matching(samples: seq<Sample>, p: Profile): seq<Sample> {
    if samples == [] then []
    else (if Of(samples[0], p) then [samples[0]] else []) + Matching(samples[1..], p)
  }

  function OfKind(samples: seq<Sample>, kind: CallKind): seq<Sample> {
    if samples == [] then []
    else (if samples[0].kind == kind then [samples[0]] else []) + OfKind(samples[1..], kind)
  }

  // ----- the model without caches

  /** The profile's samples, or for want of any those of every model of its kind. */
  function Similar(samples: seq<Sample>, p: Profile): seq<Sample> {
    if Matching(samples, p) != [] then Matching(samples, p) else OfKind(samples, p.kind)
  }

  function Observed(s: Sample, metric: Metric): Observation {
    Observation(s.inputSize as real,
                match metric
                case FirstOutput => s.firstToken
                case Output => s.outputChars as real
                case Duration => s.total)
  }

  function Observations(samples: seq<Sample>, metric: Metric): (r: seq<Observation>)
    ensures forall o | o in r :: o.x >= 0.0
  {
    if samples == [] then [] else [Observed(samples[0], metric)] + Observations(samples[1..], metric)
  }

  function Prior(kind: CallKind, metric: Metric): (l: Line)
    ensures l.intercept > 0.0 && l.slope >= 0.0
  {
    match metric
    case FirstOutput => Line(PRIOR_CALL_OVERHEAD_SECONDS, 1.0 / PRIOR_PREFILL_TOKENS_PER_SECOND)
    case Output => Line(PriorOutputChars(kind), 0.0)
    case Duration => Line(PRIOR_COUNT_OVERHEAD_SECONDS, 1.0 / PRIOR_COUNT_CHARS_PER_SECOND)
  }

  lemma PriorIsPositive(l: Line, x: real)
    requires l.intercept > 0.0 && l.slope >= 0.0 && x >= 0.0
    ensures l.At(x) > 0.0
  {
    ProductsAreOrdered(0.0, l.slope, x);
  }

  function FreshCurve(samples: seq<Sample>, p: Profile, metric: Metric): Curve {
    var points := Observations(Similar(samples, p), metric);
    assert forall o | o in points :: Prior(p.kind, metric).At(o.x) != 0.0 by {
      forall o | o in points ensures Prior(p.kind, metric).At(o.x) != 0.0 { PriorIsPositive(Prior(p.kind, metric), o.x); }
    }
    FitCurve(points, Prior(p.kind, metric))
  }

  function Rates(samples: seq<Sample>): seq<real> {
    if samples == [] then []
    else
      var s := samples[0];
      (if s.outputChars > 0 && s.total - s.firstToken >= MIN_DECODE_SECONDS
       then [s.outputChars as real / (s.total - s.firstToken)] else []) + Rates(samples[1..])
  }

  function FreshRate(samples: seq<Sample>, p: Profile): real {
    var rates := Rates(Similar(samples, p));
    if rates != [] then Median(rates) else PRIOR_DECODE_CHARS_PER_SECOND
  }

  // ----- trimming

  /** `list.remove(v)`: without the first element equal to `v`. */
  function RemoveFirst(samples: seq<Sample>, v: Sample): seq<Sample>
    requires v in samples
  {
    if samples[0] == v then samples[1..] else [samples[0]] + RemoveFirst(samples[1..], v)
  }

  /** Without the `k` oldest samples of the profile. */
  function DropOldest(samples: seq<Sample>, p: Profile, k: nat): seq<Sample> {
    if k == 0 || samples == [] then samples
    else if Of(samples[0], p) then DropOldest(samples[1..], p, k - 1)
    else [samples[0]] + DropOldest(samples[1..], p, k)
  }

  /** The history after a call: appended, and the profile's samples trimmed to the newest 48. */
  function Recorded(samples: seq<Sample>, s: Sample): seq<Sample> {
    var p := Profile(s.kind, s.model);
    var all := samples + [s];
    var count := |Matching(all, p)|;
    DropOldest(all, p, if count > HISTORY_LIMIT then count - HISTORY_LIMIT else 0)
  }

  lemma {:induction false} MatchingIsPresent(samples: seq<Sample>, p: Profile)
    ensures forall s | s in Matching(samples, p) :: s in samples && Of(s, p)
  {
    if samples != [] {
      MatchingIsPresent(samples[1..], p);
    }
  }

  /** Removing the oldest sample of a profile by value removes that very sample. */
  lemma {:induction false} RemovalHitsOldest(samples: seq<Sample>, p: Profile)
    requires Matching(samples, p) != []
    ensures Matching(samples, p)[0] in samples
    ensures RemoveFirst(samples, Matching(samples, p)[0]) == DropOldest(samples, p, 1)
  {
    MatchingIsPresent(samples, p);
    assert Matching(samples, p)[0] in Matching(samples, p);
    if !Of(samples[0], p) {
      assert Matching(samples, p) == Matching(samples[1..], p);
      RemovalHitsOldest(samples[1..], p);
    }
  }

  lemma {:induction false} DropsAdd(samples: seq<Sample>, p: Profile, k: nat)
    ensures DropOldest(DropOldest(samples, p, k), p, 1) == DropOldest(samples, p, k + 1)
  {
    if samples != [] && k > 0 {
      if Of(samples[0], p) {
        DropsAdd(samples[1..], p, k - 1);
      } else {
        var rest := DropOldest(samples[1..], p, k);
        assert ([samples[0]] + rest)[1..] == rest;
        DropsAdd(samples[1..], p, k);
      }
    }
  }

  /** The samples of all other profiles. */
  function Others(samples: seq<Sample>, p: Profile): seq<Sample> {
    if samples == [] then []
    else (if Of(samples[0], p) then [] else [samples[0]]) + Others(samples[1..], p)
  }

  lemma SplitHead(samples: seq<Sample>, p: Profile)
    requires samples != []
    ensures Matching(samples, p) == (if Of(samples[0], p) then [samples[0]] else []) + Matching(samples[1..], p)
    ensures Others(samples, p) == (if Of(samples[0], p) then [] else [samples[0]]) + Others(samples[1..], p)
  {
  }

  /** Dropping takes the oldest samples of the profile, in order. */
  lemma {:induction false} DropTakesOldest(samples: seq<Sample>, p: Profile, k: nat)
    requires k <= |Matching(samples, p)|
    ensures Matching(DropOldest(samples, p, k), p) == Matching(samples, p)[k..]
  {
    if samples != [] && k > 0 {
      if Of(samples[0], p) {
        DropTakesOldest(samples[1..], p, k - 1);
      } else {
        var rest := DropOldest(samples[1..], p, k);
        SplitHead([samples[0]] + rest, p);
        assert ([samples[0]] + rest)[1..] == rest;
        assert Matching(samples, p) == Matching(samples[1..], p);
        DropTakesOldest(samples[1..], p, k);
      }
    }
  }

  /** Dropping touches no sample of another profile. */
  lemma {:induction false} DropKeepsOthers(samples: seq<Sample>, p: Profile, k: nat)
    ensures Others(DropOldest(samples, p, k), p) == Others(samples, p)
  {
    if samples != [] && k > 0 {
      if Of(samples[0], p) {
        DropKeepsOthers(samples[1..], p, k - 1);
      } else {
        var rest := DropOldest(samples[1..], p, k);
        SplitHead([samples[0]] + rest, p);
        assert ([samples[0]] + rest)[1..] == rest;
        DropKeepsOthers(samples[1..], p, k);
      }
    }
  }

  /** Removing the `i`-th match by value, after those before it, drops one more of the oldest. */
  lemma RemovalDropsNext(all: seq<Sample>, p: Profile, i: nat)
    requires i < |Matching(all, p)|
    ensures Matching(all, p)[i] in DropOldest(all, p, i)
    ensures RemoveFirst(DropOldest(all, p, i), Matching(all, p)[i]) == DropOldest(all, p, i + 1)
  {
    DropTakesOldest(all, p, i);
    RemovalHitsOldest(DropOldest(all, p, i), p);
    DropsAdd(all, p, i);
  }

  lemma {:induction false} FiltersOfMore(samples: seq<Sample>, s: Sample, p: Profile)
    ensures Matching(samples + [s], p) == Matching(samples, p) + if Of(s, p) then [s] else []
    ensures Others(samples + [s], p) == Others(samples, p) + if Of(s, p) then [] else [s]
  {
    if samples == [] {
      assert [s][1..] == [];
    } else {
      assert (samples + [s])[1..] == samples[1..] + [s];
      FiltersOfMore(samples[1..], s, p);
    }
  }

  /** The last `n` elements, or all of them. */
  function Newest<T>(xs: seq<T>, n: nat): seq<T> {
    if |xs| <= n then xs else xs[|xs| - n..]
  }

  /** A record keeps exactly the newest 48 samples of its kind and model, in order, and all others. */
  lemma RecordKeepsNewest(samples: seq<Sample>, s: Sample)
    ensures var p := Profile(s.kind, s.model);
            && Matching(Recorded(samples, s), p) == Newest(Matching(samples, p) + [s], HISTORY_LIMIT)
            && Others(Recorded(samples, s), p) == Others(samples, p)
  {
    var p := Profile(s.kind, s.model);
    var all := samples + [s];
    var count := |Matching(all, p)|;
    FiltersOfMore(samples, s, p);
    var excess := if count > HISTORY_LIMIT then count - HISTORY_LIMIT else 0;
    DropTakesOldest(all, p, excess);
    DropKeepsOthers(all, p, excess);
  }

  /** Whatever is cached is what a fit of the samples gives. */
  ghost predicate Cached(samples: seq<Sample>, curves: map<(Profile, Metric), Curve>, rates: map<Profile, real>) {
    && (forall key | key in curves :: curves[key] == FreshCurve(samples, key.0, key.1))
    && (forall p | p in rates :: rates[p] == FreshRate(samples, p))
  }

  class Model {
    var samples: seq<Sample>
    var curves: map<(Profile, Metric), Curve>
    var rates: map<Profile, real>
    /** What the calibration file holds. */
    var stored: seq<Sample>
    /** Whether the system lets the file be written. */
    var writable: bool

    /** Whatever is cached is what a fit of the current samples would give. */
    ghost predicate Valid()
      reads this
    {
      Cached(samples, curves, rates)
    }

    constructor (samples: seq<Sample>)
      ensures Valid() && this.samples == samples && stored == samples
    {
      this.samples, curves, rates, stored := samples, map[], map[], samples;
    }

    /** Replaces the file as a whole, or leaves it as it is. */
    method Persist(snapshot: seq<Sample>)
      modifies `stored
      ensures stored == if writable then snapshot else old(stored)
    {
      if writable { stored := snapshot; }
    }

    /** Appends, and removes the oldest samples of the same profile over the limit. */
    method Append(s: Sample)
      modifies `samples
      ensures samples == Recorded(old(samples), s)
    {
      samples := samples + [s];
      ghost var all := samples;
      var p := Profile(s.kind, s.model);
      var matching := Matching(samples, p);
      var excess := if |matching| > HISTORY_LIMIT then |matching| - HISTORY_LIMIT else 0;
      for i := 0 to excess
        invariant samples == DropOldest(all, p, i)
      {
        RemovalDropsNext(all, p, i);
        samples := RemoveFirst(samples, matching[i]);
      }
    }

    method Forget()
      modifies `curves, `rates
      ensures Valid()
    {
      curves, rates := map[], map[];
    }

    method Record(s: Sample)
      modifies this
      ensures Valid()
      ensures samples == Recorded(old(samples), s)
      ensures stored == if old(writable) then samples else old(stored)
    {
      Append(s);
      Forget();
      Persist(samples);
    }

    method GetCurve(p: Profile, metric: Metric) returns (c: Curve)
      requires Valid()
      modifies `curves
      ensures Valid()
      ensures c == FreshCurve(samples, p, metric)
    {
      var key := (p, metric);
      if key in curves { return curves[key]; }
      c := FreshCurve(samples, p, metric);
      curves := curves[key := c];
    }

    method DecodeRate(p: Profile) returns (r: real)
      requires Valid()
      modifies `rates
      ensures Valid()
      ensures r == FreshRate(samples, p)
    {
      if p in rates { return rates[p]; }
      r := FreshRate(samples, p);
      rates := rates[p := r];
    }
  }

  // ----- whole sequences of calls

  datatype Call = RecordCall(s: Sample) | CurveCall(p: Profile, metric: Metric) | RateCall(p: Profile)

  datatype Answer = NoAnswer | CurveAnswer(c: Curve) | RateAnswer(r: real)

  function AnswerOf(samples: seq<Sample>, call: Call): Answer {
    match call
    case RecordCall(_) => NoAnswer
    case CurveCall(p, metric) => CurveAnswer(FreshCurve(samples, p, metric))
    case RateCall(p) => RateAnswer(FreshRate(samples, p))
  }

  function After(samples: seq<Sample>, call: Call): seq<Sample> {
    if call.RecordCall? then Recorded(samples, call.s) else samples
  }

  function SamplesAfter(samples: seq<Sample>, calls: seq<Call>): seq<Sample> {
    if calls == [] then samples
    else After(SamplesAfter(samples, calls[..|calls| - 1]), calls[|calls| - 1])
  }

  method Serve(m: Model, call: Call) returns (answer: Answer)
    requires m.Valid()
    modifies m
    ensures m.Valid() && m.samples == After(old(m.samples), call)
    ensures answer == AnswerOf(old(m.samples), call)
  {
    match call
    case RecordCall(s) =>
      m.Record(s);
      answer := NoAnswer;
    case CurveCall(p, metric) =>
      var c := m.GetCurve(p, metric);
      answer := CurveAnswer(c);
    case RateCall(p) =>
      var r := m.DecodeRate(p);
      answer := RateAnswer(r);
  }

  lemma OneMoreCall(samples: seq<Sample>, calls: seq<Call>, i: nat)
    requires i < |calls|
    ensures SamplesAfter(samples, calls[..i + 1]) == After(SamplesAfter(samples, calls[..i]), calls[i])
  {
    assert calls[..i + 1][..i] == calls[..i];
  }

  /** The answers of a model that caches nothing are these. */
  ghost predicate AnswersTo(samples: seq<Sample>, calls: seq<Call>, answers: seq<Answer>) {
    |answers| <= |calls| && forall i | 0 <= i < |answers| :: Answers(samples, calls, i, answers[i])
  }

  ghost predicate Answers(samples: seq<Sample>, calls: seq<Call>, i: nat, answer: Answer)
    requires i < |calls|
  {
    answer == AnswerOf(SamplesAfter(samples, calls[..i]), calls[i])
  }

  lemma OneMoreAnswer(samples: seq<Sample>, calls: seq<Call>, answers: seq<Answer>, answer: Answer)
    requires AnswersTo(samples, calls, answers) && |answers| < |calls|
    requires Answers(samples, calls, |answers|, answer)
    ensures AnswersTo(samples, calls, answers + [answer])
  {
    var more := answers + [answer];
    forall i | 0 <= i < |more|
      ensures Answers(samples, calls, i, more[i])
    {
      if i < |answers| {
        assert more[i] == answers[i];
      } else {
        assert more[i] == answer;
      }
    }
  }

  /** Every call of any sequence is answered as by a model that caches nothing. */
  method Replay(m: Model, calls: seq<Call>) returns (answers: seq<Answer>)
    requires m.Valid()
    modifies m
    ensures m.Valid() && m.samples == SamplesAfter(old(m.samples), calls)
    ensures |answers| == |calls| && AnswersTo(old(m.samples), calls, answers)
  {
    answers := [];
    for i := 0 to |calls|
      invariant m.Valid() && m.samples == SamplesAfter(old(m.samples), calls[..i])
      invariant |answers| == i && AnswersTo(old(m.samples), calls, answers)
    {
      OneMoreCall(old(m.samples), calls, i);
      var answer := Serve(m, calls[i]);
      OneMoreAnswer(old(m.samples), calls, answers, answer);
      answers := answers + [answer];
    }
    assert calls[..|calls|] == calls;
  }
}
