/** The upload rate inferred by differencing pending totals. Reals stand in for floats. */
module Rate {
  import opened Base

  const SMOOTHING: real := 0.3

  datatype Sample = Sample(at: real, pending: nat)
  datatype Estimate = Estimate(last: Option<Sample>, smoothed: Option<real>)

  const FRESH := Estimate(None, None)

  /** Bytes counted as sent between two samples; a rise counts as none. */
  function Sent(a: Sample, b: Sample): nat { SaturatingSub(a.pending, b.pending) }

  function Grown(a: Sample, b: Sample): nat { SaturatingSub(b.pending, a.pending) }

  /** The rate over one interval of positive length. */
  function IntervalRate(a: Sample, b: Sample): real
    requires a.at < b.at
  {
    Sent(a, b) as real / (b.at - a.at)
  }

  function Take(e: Estimate, s: Sample): Estimate {
    match e.last
    case None => Estimate(Some(s), e.smoothed)
    case Some(then_) =>
      if s.at <= then_.at then Estimate(Some(s), e.smoothed)
      else
        var instant := IntervalRate(then_, s);
        Estimate(Some(s), Some(match e.smoothed
                               case Some(prev) => prev * (1.0 - SMOOTHING) + instant * SMOOTHING
                               case None => instant))
  }

  /** `f64 as u64`: truncates, and saturates at the top. */
  function Truncate(r: real): nat
    requires r >= 0.0
  {
    Min(r.Floor, U64_MAX)
  }

  /** What a sample answers: nothing until two have been taken. */
  function Answer(before: Estimate, after: Estimate): Option<nat> {
    if before.last.None? then None
    else match after.smoothed
      case Some(r) => if r >= 0.0 then Some(Truncate(r)) else Some(0)
      case None => None
  }

  class RateEstimator {
    var last: Option<Sample>
    var smoothed: Option<real>

    function State(): Estimate
      reads this
    {
      Estimate(last, smoothed)
    }

    constructor ()
      ensures State() == FRESH
    {
      last, smoothed := None, None;
    }

    method SampleAt(now: real, pending: nat) returns (rate: Option<nat>)
      modifies this
      ensures State() == Take(old(State()), Sample(now, pending))
      ensures rate == Answer(old(State()), State())
    {
      var previous := last;
      last := Some(Sample(now, pending));
      if previous.None? { return None; }
      var then_ := previous.value;
      if now <= then_.at {
        return if smoothed.None? then None
               else Some(if smoothed.value >= 0.0 then Truncate(smoothed.value) else 0);
      }
      var sent := SaturatingSub(then_.pending, pending);
      var instant := sent as real / (now - then_.at);
      var next := instant;
      if smoothed.Some? { next := smoothed.value * (1.0 - SMOOTHING) + instant * SMOOTHING; }
      smoothed := Some(next);
      return Some(if next >= 0.0 then Truncate(next) else 0);
    }

    method Reset()
      modifies this
      ensures State() == FRESH
    {
      last, smoothed := None, None;
    }
  }

  // --- whole histories ----------------------------------------------------------------

  function After(history: seq<Sample>): Estimate {
    if history == [] then FRESH
    else Take(After(history[..|history| - 1]), history[|history| - 1])
  }

  predicate Increasing(history: seq<Sample>) {
    forall i :: 0 < i < |history| ==> history[i - 1].at < history[i].at
  }

  /** Every interval rate of the history lies between `low` and `high`. */
  ghost predicate RatesWithin(history: seq<Sample>, low: real, high: real)
    requires Increasing(history)
  {
    forall i :: 0 < i < |history| ==> low <= IntervalRate(history[i - 1], history[i]) <= high
  }

  lemma {:induction false} LastIsLatest(history: seq<Sample>)
    ensures After(history).last == if history == [] then None else Some(history[|history| - 1])
  {}

  /**
   * Over any history at strictly increasing instants the smoothed rate never leaves the
   * range of the interval rates it has seen, and is there once two samples are. With
   * `low == high` this says a constant drain is reported as itself.
   */
  lemma {:induction false} RateStaysWithinIntervals(history: seq<Sample>, low: real, high: real)
    requires Increasing(history) && RatesWithin(history, low, high)
    ensures After(history).smoothed.Some? <==> |history| >= 2
    ensures |history| >= 2 ==> low <= After(history).smoothed.value <= high
  {
    var n := |history|;
    if n >= 1 {
      var earlier := history[..n - 1];
      RateStaysWithinIntervals(earlier, low, high);
      LastIsLatest(earlier);
      if n >= 2 {
        var instant := IntervalRate(history[n - 2], history[n - 1]);
        assert earlier[n - 2] == history[n - 2];
        TakesTheMean(After(earlier), history[n - 2], history[n - 1], low, high);
      }
    }
  }

  /**
   * What is answered: nothing for the first sample, and after it the smoothed rate, cut to whole
   * bytes a second and to 64 bits, so never above the highest interval rate seen nor a whole byte
   * below the lowest.
   */
  lemma AnswersStayWithinIntervals(history: seq<Sample>, low: real, high: real)
    requires history != [] && Increasing(history) && RatesWithin(history, low, high)
    ensures var answer := Answer(After(history[..|history| - 1]), After(history));
      && (answer.None? <==> |history| == 1)
      && (answer.Some? ==> answer.value as real <= high)
      && (answer.Some? ==> answer.value == U64_MAX || answer.value as real > low - 1.0)
  {
    var earlier := history[..|history| - 1];
    RateStaysWithinIntervals(history, low, high);
    LastIsLatest(earlier);
    if |history| >= 2 { IntervalRatesAreNotNegative(history); }
  }

  /** A sample no later than the last leaves the answer as it was: the rate there is, or none yet. */
  lemma RepeatedInstantsKeepTheRate(e: Estimate, a: Sample, b: Sample)
    requires e.last == Some(a) && b.at <= a.at
    ensures Take(e, b).smoothed == e.smoothed && Take(e, b).last == Some(b)
    ensures Answer(e, Take(e, b)).None? <==> e.smoothed.None?
    ensures e.smoothed.Some? && e.smoothed.value >= 0.0 ==> Answer(e, Take(e, b)) == Some(Truncate(e.smoothed.value))
  {}

  /** One more sample at a later instant keeps the smoothed rate within bounds of both. */
  lemma TakesTheMean(e: Estimate, a: Sample, b: Sample, low: real, high: real)
    requires e.last == Some(a) && a.at < b.at && low <= IntervalRate(a, b) <= high
    requires e.smoothed.Some? ==> low <= e.smoothed.value <= high
    ensures Take(e, b).smoothed.Some? && low <= Take(e, b).smoothed.value <= high
  {
    if e.smoothed.Some? { WeightedMeanIsBetween(e.smoothed.value, IntervalRate(a, b), low, high); }
  }

  lemma WeightedMeanIsBetween(prev: real, instant: real, low: real, high: real)
    requires low <= prev <= high && low <= instant <= high
    ensures low <= prev * (1.0 - SMOOTHING) + instant * SMOOTHING <= high
  {
    assert prev * (1.0 - SMOOTHING) + instant * SMOOTHING - low
        == (prev - low) * 0.7 + (instant - low) * 0.3;
    assert high - (prev * (1.0 - SMOOTHING) + instant * SMOOTHING)
        == (high - prev) * 0.7 + (high - instant) * 0.3;
  }

  function Decayed(rate: real, samples: nat): real {
    if samples == 0 then rate else Decayed(rate, samples - 1) * (1.0 - SMOOTHING)
  }

  /** While the total only grows, the rate decays by 0.7 a sample and is never negative. */
  lemma {:induction false} GrowthOnlyDecays(history: seq<Sample>, from: nat)
    requires Increasing(history) && 2 <= from <= |history|
    requires forall i :: from <= i < |history| ==> history[i - 1].pending <= history[i].pending
    ensures After(history[..from]).smoothed.Some? && After(history).smoothed.Some?
    ensures After(history).smoothed.value
         == Decayed(After(history[..from]).smoothed.value, |history| - from)
    ensures After(history).smoothed.value >= 0.0
  {
    var n := |history|;
    IntervalRatesAreNotNegative(history);
    if from == n {
      assert history[..n] == history;
    } else {
      var earlier := history[..n - 1];
      GrowthOnlyDecays(earlier, from);
      assert earlier[..from] == history[..from];
      LastIsLatest(earlier);
      GrowthDecaysOnce(After(earlier), history[n - 2], history[n - 1]);
    }
  }

  lemma GrowthDecaysOnce(e: Estimate, a: Sample, b: Sample)
    requires e.last == Some(a) && e.smoothed.Some? && a.at < b.at && a.pending <= b.pending
    ensures Take(e, b).smoothed == Some(e.smoothed.value * (1.0 - SMOOTHING))
  {
    assert Sent(a, b) == 0;
    assert IntervalRate(a, b) == 0.0;
  }

  lemma {:induction false} IntervalRatesAreNotNegative(history: seq<Sample>)
    requires Increasing(history) && |history| >= 2
    ensures After(history).smoothed.Some? && After(history).smoothed.value >= 0.0
  {
    var n := |history|;
    var earlier := history[..n - 1];
    LastIsLatest(earlier);
    var instant := IntervalRate(history[n - 2], history[n - 1]);
    QuotientIsNotNegative(Sent(history[n - 2], history[n - 1]), history[n - 1].at - history[n - 2].at);
    if n >= 3 {
      IntervalRatesAreNotNegative(earlier);
    } else {
      assert earlier[..0] == [];
      assert After(earlier).smoothed == None;
    }
  }

  lemma QuotientIsNotNegative(a: nat, b: real)
    requires b > 0.0
    ensures a as real / b >= 0.0
  {}

  // --- what was counted ---------------------------------------------------------------

  function Counted(history: seq<Sample>): nat {
    if |history| < 2 then 0
    else
      var a, b := history[|history| - 2], history[|history| - 1];
      Counted(history[..|history| - 1]) + if a.at < b.at then Sent(a, b) else 0
  }

  /** Falls that a repeated or backward instant swallows: `last` moves, nothing is counted. */
  function Dropped(history: seq<Sample>): nat {
    if |history| < 2 then 0
    else
      var a, b := history[|history| - 2], history[|history| - 1];
      Dropped(history[..|history| - 1]) + if a.at < b.at then 0 else Sent(a, b)
  }

  function Growth(history: seq<Sample>): nat {
    if |history| < 2 then 0
    else Growth(history[..|history| - 1]) + Grown(history[|history| - 2], history[|history| - 1])
  }

  /** The rate an estimator folded in at a step, worked out from what it holds before and after. */
  function FoldedIn(before: Estimate, after: Estimate): real
    requires after.smoothed.Some?
  {
    match before.smoothed
    case None => after.smoothed.value
    case Some(prev) => (after.smoothed.value - prev * (1.0 - SMOOTHING)) / SMOOTHING
  }

  /** The bytes that rate stands for, over the time between the two samples held. */
  function Moved(before: Estimate, after: Estimate): real {
    if before.last.Some? && after.last.Some? && after.smoothed.Some? && before.last.value.at < after.last.value.at
    then FoldedIn(before, after) * (after.last.value.at - before.last.value.at)
    else 0.0
  }

  /** Everything an estimator has accounted for over a history, by what it held along the way. */
  function Accounted(history: seq<Sample>): real {
    if history == [] then 0.0
    else
      var earlier := history[..|history| - 1];
      Accounted(earlier) + Moved(After(earlier), After(history))
  }

  lemma RateTimesTime(sent: nat, time: real)
    requires time > 0.0
    ensures sent as real / time * time == sent as real
  {}

  lemma StepMovesWhatWasSent(e: Estimate, a: Sample, b: Sample)
    requires e.last == Some(a)
    ensures Moved(e, Take(e, b)) == if a.at < b.at then Sent(a, b) as real else 0.0
  {
    if a.at < b.at {
      RateTimesTime(Sent(a, b), b.at - a.at);
      assert FoldedIn(e, Take(e, b)) == IntervalRate(a, b);
    }
  }

  /** The estimator's own figures account for exactly the counted bytes. */
  lemma {:induction false} AccountedIsCounted(history: seq<Sample>)
    ensures Accounted(history) == Counted(history) as real
  {
    var n := |history|;
    if n >= 1 {
      var earlier := history[..n - 1];
      AccountedIsCounted(earlier);
      LastIsLatest(earlier);
      if n >= 2 {
        assert earlier[n - 2] == history[n - 2];
        StepMovesWhatWasSent(After(earlier), history[n - 2], history[n - 1]);
      }
    }
  }

  /**
   * Every byte that left the total is accounted for by the rates the estimator folded in, or
   * dropped at a repeated instant; nothing is dropped when the instants strictly increase.
   */
  lemma {:induction false} CountedBytesAreConserved(history: seq<Sample>)
    requires |history| >= 1
    ensures Accounted(history) == Counted(history) as real
    ensures Counted(history) + Dropped(history) - Growth(history)
         == history[0].pending - history[|history| - 1].pending
    ensures Increasing(history) ==> Dropped(history) == 0
  {
    AccountedIsCounted(history);
    var n := |history|;
    if n >= 2 { CountedBytesAreConserved(history[..n - 1]); }
  }
}
