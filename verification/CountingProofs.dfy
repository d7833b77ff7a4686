/** Proofs about the controller's arithmetic: the running average and the camera's timer decreases. */
module CountingProofs {
  import opened Integers
  import opened JunctionModel
  import opened Lanes
  import opened Sequences
  import opened SignalProofs

  // ---------------------------------------------------------------- the running average

  function Sum(ns: seq<uint8>): nat {
    if ns == [] then 0 else Sum(ns[..|ns| - 1]) + ns[|ns| - 1]
  }

  type Averager = (uint8, uint16, uint8) -> uint8

  /** Folding samples into a stored value; the transition counter starts at one. */
  function Fold(f: Averager, ns: seq<uint8>): uint8 {
    if ns == [] then 0 else f(Fold(f, ns[..|ns| - 1]), |ns| % UINT16_LIMIT, ns[|ns| - 1])
  }

  /** The stored average after the given samples. */
  function Average(ns: seq<uint8>): uint8 {
    Fold(NextAverage, ns)
  }

  lemma QuotientBounds(x: nat, d: nat)
    requires d > 0
    ensures x - (d - 1) <= d * (x / d) <= x
  {
    assert x == d * (x / d) + x % d;
  }

  lemma QuotientAtMost(x: nat, d: nat, max: nat)
    requires d > 0 && x < d * (max + 1)
    ensures x / d <= max
  {
    QuotientBounds(x, d);
    if x / d > max {
      MultiplyBothSides(d, max + 1, x / d);
    }
  }

  lemma MultiplyBothSides(q: nat, a: nat, b: nat)
    requires a <= b
    ensures q * a <= q * b
  {
  }

  lemma BelowNextMultiple(p: nat, t: nat, n: nat, max: nat)
    requires p <= t * max && n <= max
    ensures p + n < (t + 1) * (max + 1)
  {
    assert (t + 1) * (max + 1) == t * max + t + max + 1;
  }

  lemma ProductAtMost(a: nat, t: nat, max: nat)
    requires a <= max
    ensures 0 <= a * t <= t * max
  {
  }

  lemma StoredQuotient(p: nat, t: nat, n: nat, max: uint8)
    requires p <= t * max && n <= max
    ensures ((p + n) / (t + 1)) % UINT8_LIMIT == (p + n) / (t + 1) <= max
  {
    BelowNextMultiple(p, t, n, max);
    QuotientAtMost(p + n, t + 1, max);
    QuotientBounds(p + n, t + 1);
  }

  /** The quotient that is stored is no larger than the stored value and the sample are. */
  lemma NextAverageAtMost(average: uint8, transitions: uint16, sample: uint8, max: uint8)
    requires average <= max && sample <= max
    ensures NextAverage(average, transitions, sample) <= max
    ensures NextAverage(average, transitions, sample) == (average * transitions + sample) / (transitions + 1)
  {
    ProductAtMost(average, transitions, max);
    StoredQuotient(average * transitions, transitions, sample, max);
  }

  /** Multiplication as repeated addition, and the triangular numbers. */
  function Times(n: nat, a: nat): nat {
    if n == 0 then 0 else Times(n - 1, a) + a
  }

  function Triangle(t: nat): nat {
    if t == 0 then 0 else Triangle(t - 1) + t
  }

  lemma {:induction false} TimesIsProduct(n: nat, a: nat)
    ensures Times(n, a) == n * a
  {
    if n > 0 {
      TimesIsProduct(n - 1, a);
      assert (n - 1) * a + a == n * a;
    }
  }

  lemma {:induction false} TriangleIsHalfSquare(t: nat)
    ensures 2 * Triangle(t) == t * (t + 1)
  {
    if t > 0 {
      TriangleIsHalfSquare(t - 1);
      assert (t - 1) * t + 2 * t == t * (t + 1);
    }
  }

  /** The stored average `a` of `t` samples whose sum is `sum` is off by at most one half per sample. */
  ghost predicate ErrorBounded(a: nat, t: nat, sum: nat) {
    Times(t + 1, a) <= sum <= Times(t + 1, a) + Triangle(t)
  }

  /** One averaging step loses less than one whole unit and does not exceed its operands. */
  ghost predicate LosesLittle(f: Averager) {
    forall a: uint8, t: uint16, n: uint8 ::
      var r := f(a, t, n);
      Times(t + 1, r) <= Times(t, a) + n <= Times(t + 1, r) + t && r <= if a < n then n else a
  }

  lemma NextAverageLosesLittle()
    ensures LosesLittle(NextAverage)
  {
    forall a: uint8, t: uint16, n: uint8
      ensures var r := NextAverage(a, t, n);
        Times(t + 1, r) <= Times(t, a) + n <= Times(t + 1, r) + t && r <= if a < n then n else a
    {
      NextAverageAtMost(a, t, n, if a < n then n else a);
      ProductAtMost(a, t, a);
      QuotientBounds(a * t + n, t + 1);
      TimesIsProduct(t, a);
      TimesIsProduct(t + 1, NextAverage(a, t, n));
    }
  }

  lemma {:induction false} FoldIsErrorBounded(f: Averager, ns: seq<uint8>, max: uint8)
    requires LosesLittle(f) && |ns| < UINT16_LIMIT - 1
    requires forall i :: 0 <= i < |ns| ==> ns[i] <= max
    ensures Fold(f, ns) <= max && ErrorBounded(Fold(f, ns), |ns|, Sum(ns))
  {
    if ns == [] {
      assert Times(1, 0) == Times(0, 0) + 0;
    } else {
      FoldIsErrorBounded(f, ns[..|ns| - 1], max);
    }
  }

  /** The same bound as a product: `sum - t(t+1)/2 <= (t+1) * a <= sum`. */
  ghost predicate MeanWithinHalf(a: nat, t: nat, sum: nat) {
    (t + 1) * a <= sum && 2 * (sum - (t + 1) * a) <= t * (t + 1)
  }

  /**
   The error of the integer average. After `t` samples with sum `K`, fewer than the transition
   counter can hold, the stored value `A` is at most the true mean (counting the initial zero) and
   `K - t(t+1)/2 <= (t+1) * A <= K`; it never exceeds the largest sample, so storing it in eight
   bits loses nothing.
   */
  lemma AverageErrorBound(ns: seq<uint8>, max: uint8)
    requires |ns| < UINT16_LIMIT - 1
    requires forall i :: 0 <= i < |ns| ==> ns[i] <= max
    ensures Average(ns) <= max && MeanWithinHalf(Average(ns), |ns|, Sum(ns))
  {
    NextAverageLosesLittle();
    FoldIsErrorBounded(NextAverage, ns, max);
    TimesIsProduct(|ns| + 1, Average(ns));
    TriangleIsHalfSquare(|ns|);
  }

  /** The samples that the phase ends of a run feed into the average. */
  function Counted(j: Junction, step: Step): seq<uint8> {
    if step.PhaseEnd? && !j.signals.phase.Stopped? then [Sample(j.counts, CountedLanes(j.signals.phase))] else []
  }

  function Samples(j: Junction, steps: seq<Step>): seq<uint8>
    decreases |steps|
  {
    if steps == [] then [] else Counted(j, steps[0]) + Samples(AfterStep(j, steps[0]), steps[1..])
  }

  ghost predicate Averages(c: Counts, ns: seq<uint8>) {
    c.average == Average(ns) && c.transitions == (|ns| + 1) % UINT16_LIMIT
  }

  lemma CountAverages(c: Counts, ns: seq<uint8>, lanes: set<Lane>)
    requires Averages(c, ns)
    ensures Averages(AfterCount(c, lanes), ns + [Sample(c, lanes)])
  {
    AverageExtends(ns, Sample(c, lanes));
    SuccessorWraps(|ns| + 1);
  }

  lemma AverageExtends(ns: seq<uint8>, sample: uint8)
    ensures Average(ns + [sample]) == NextAverage(Average(ns), (|ns| + 1) % UINT16_LIMIT, sample)
  {
    assert (ns + [sample])[..|ns|] == ns;
  }

  lemma SuccessorWraps(n: nat)
    ensures (n % UINT16_LIMIT + 1) % UINT16_LIMIT == (n + 1) % UINT16_LIMIT
  {
  }

  /** Every phase but `Stopped` is counted when it ends, on a jump as in the normal cycle. */
  lemma PhaseEndCounts(j: Junction)
    requires SignalsOk(j.signals)
    ensures AfterPhaseEnd(j).counts ==
      if j.signals.phase.Stopped? then j.counts else AfterCount(j.counts, CountedLanes(j.signals.phase))
  {
    if RequestQueue(j.signals) != [] {
      RequestQueueIsNames(j.signals);
      JumpIsDefined(RequestQueue(j.signals)[0]);
    }
  }

  lemma StepAverages(j: Junction, step: Step, ns: seq<uint8>)
    requires SignalsOk(j.signals) && Averages(j.counts, ns)
    ensures Averages(AfterStep(j, step).counts, ns + Counted(j, step))
  {
    if step.PhaseEnd? {
      PhaseEndCounts(j);
      CountAverages(j.counts, ns, CountedLanes(j.signals.phase));
    }
    assert ns + [] == ns;
  }

  lemma {:induction false} RunAverages(j: Junction, steps: seq<Step>, ns: seq<uint8>)
    requires SignalsOk(j.signals) && Averages(j.counts, ns)
    ensures Averages(Run(j, steps).counts, ns + Samples(j, steps))
    decreases |steps|
  {
    if steps == [] {
      assert ns + [] == ns;
    } else {
      var first, next := Counted(j, steps[0]), AfterStep(j, steps[0]);
      StepKeepsSignals(j, steps[0]);
      StepAverages(j, steps[0], ns);
      RunAverages(next, steps[1..], ns + first);
      Regroup(ns, first, Samples(next, steps[1..]));
    }
  }

  /** The bounds hold of the controller in every run with fewer than 65535 counted phase ends. */
  lemma AverageInEveryRun(j: Junction, steps: seq<Step>, max: uint8)
    requires IsInitial(j) && |Samples(j, steps)| < UINT16_LIMIT - 1
    requires forall n <- Samples(j, steps) :: n <= max
    ensures Run(j, steps).counts.average <= max
    ensures MeanWithinHalf(Run(j, steps).counts.average, |Samples(j, steps)|, Sum(Samples(j, steps)))
  {
    InitialSignals(j);
    RunAverages(j, steps, []);
    AppendToNothing(Samples(j, steps));
    AveragesWithinHalf(Run(j, steps).counts, Samples(j, steps), max);
  }

  lemma AveragesWithinHalf(c: Counts, ns: seq<uint8>, max: uint8)
    requires Averages(c, ns) && |ns| < UINT16_LIMIT - 1 && forall n <- ns :: n <= max
    ensures c.average <= max && MeanWithinHalf(c.average, |ns|, Sum(ns))
  {
    assert forall i :: 0 <= i < |ns| ==> ns[i] in ns;
    AverageErrorBound(ns, max);
  }

  // ---------------------------------------------------------------- camera reports

  function Power(base: nat, exponent: nat): nat {
    if exponent == 0 then 1 else base * Power(base, exponent - 1)
  }

  /** A report by the lane's own tracker of `n` cars on the side of the road in use. */
  predicate IsReport(j: Junction, step: Step, lane: Lane, n: nat) {
    && step.RegisterClient? && step.lane == lane && step.registrations == n
    && step.leftLane == j.config.usingLeftLane && IsTracker(j.registry, lane, step.ip)
  }

  function TimeLeft(j: Junction, lane: Lane): nat {
    if lane in j.signals.timers then j.signals.timers[lane].timeLeft else 0
  }

  /** One report takes at least its percentage off the timer, and always something. */
  lemma ReportShortensTimer(j: Junction, step: Step, lane: Lane, n: nat)
    requires 1 <= n <= 100 && IsReport(j, step, lane, n)
    ensures 100 * TimeLeft(AfterStep(j, step), lane) <= (100 - n) * TimeLeft(j, lane)
    ensures TimeLeft(j, lane) > 0 ==> TimeLeft(AfterStep(j, step), lane) < TimeLeft(j, lane)
    ensures AfterStep(j, step).config == j.config && AfterStep(j, step).registry == j.registry
  {
    if lane in j.signals.timers {
      var left := TimeLeft(j, lane);
      PercentFits(left, n);
      assert (100 - n) * left == 100 * left - left * n;
    }
  }

  lemma RoundedUp(percents: nat, left: nat)
    requires left <= percents <= 100 * left
    ensures percents <= 100 * ((percents + 99) / 100) && (percents + 99) / 100 <= left
    ensures left > 0 ==> (percents + 99) / 100 > 0
  {
  }

  lemma PercentFits(left: uint16, n: nat)
    requires 1 <= n <= 100
    ensures left * n <= 100 * CeilPercent(left, n) && CeilPercent(left, n) <= left
    ensures left > 0 ==> CeilPercent(left, n) > 0
  {
    MultiplyBothSides(left, 1, n);
    MultiplyBothSides(left, n, 100);
    RoundedUp(left * n, left);
  }

  /** The percentage is rounded up, exactly. */
  lemma CeilPercentIsLeast(left: uint16, n: nat, d: nat)
    ensures d >= CeilPercent(left, n) <==> 100 * d >= left * n
  {
    LeastHundredth(left * n, d);
  }

  lemma LeastHundredth(percents: nat, d: nat)
    ensures d >= (percents + 99) / 100 <==> 100 * d >= percents
  {
  }

  /**
   What a report leaves on the timer: of `n <= 100` cars, the most whole seconds that are no more than
   `100 - n` percent of what was left; of more cars, as long as the decrease fits in 16 bits, nothing.
   */
  lemma ReportLeavesExactly(j: Junction, step: Step, lane: Lane, n: nat, t: nat)
    requires IsReport(j, step, lane, n)
    ensures n <= 100 ==> (t <= TimeLeft(AfterStep(j, step), lane) <==> 100 * t <= (100 - n) * TimeLeft(j, lane))
    ensures n > 100 && TimeLeft(j, lane) * n <= 6553500 ==> TimeLeft(AfterStep(j, step), lane) == 0
  {
    var left, after := TimeLeft(j, lane), TimeLeft(AfterStep(j, step), lane);
    if lane in j.signals.timers {
      if n <= 100 {
        PercentAtMostAll(left, n);
        assert after == left - CeilPercent(left, n);
        LeavesAtLeast(left, n, t);
      } else if left * n <= 6553500 {
        MultiplyBothSides(left, 100, n);
        CeilPercentIsLeast(left, n, 65535);
        if left > 0 {
          CeilPercentIsLeast(left, n, left - 1);
        }
      }
    }
  }

  lemma PercentAtMostAll(left: uint16, n: nat)
    requires n <= 100
    ensures CeilPercent(left, n) <= left
  {
    MultiplyBothSides(left, n, 100);
    CeilPercentIsLeast(left, n, left);
  }

  lemma LeavesAtLeast(left: uint16, n: nat, t: nat)
    requires n <= 100 && CeilPercent(left, n) <= left
    ensures t <= left - CeilPercent(left, n) <==> 100 * t <= (100 - n) * left
  {
    assert (100 - n) * left == 100 * left - left * n;
    if t <= left {
      CeilPercentIsLeast(left, n, left - t);
    } else {
      assert left * n >= 0;
    }
  }

  /**
   A step that neither resets the lane's timer nor sets it to more: a phase end that leaves a phase
   of other lanes, any countdown, and every registration, unregistration and emergency.
   */
  predicate DoesNotRaise(j: Junction, step: Step, lane: Lane) {
    && (step.PhaseEnd? ==> !Resets(j.signals, lane))
    && (step.TimerRuns? && step.lane == lane ==> step.timeLeft <= TimeLeft(j, lane))
  }

  predicate NeverRaised(j: Junction, steps: seq<Step>, lane: Lane)
    decreases |steps|
  {
    steps == [] || (DoesNotRaise(j, steps[0], lane) && NeverRaised(AfterStep(j, steps[0]), steps[1..], lane))
  }

  /** How many steps of a run are reports of `n` cars on the lane. */
  function Reports(j: Junction, steps: seq<Step>, lane: Lane, n: nat): nat
    decreases |steps|
  {
    if steps == [] then 0
    else (if IsReport(j, steps[0], lane, n) then 1 else 0) + Reports(AfterStep(j, steps[0]), steps[1..], lane, n)
  }

  lemma StepLowersTimer(j: Junction, step: Step, lane: Lane)
    requires SignalsOk(j.signals) && DoesNotRaise(j, step, lane)
    ensures TimeLeft(AfterStep(j, step), lane) <= TimeLeft(j, lane)
  {
    if step.PhaseEnd? {
      PhaseEndTimers(j, lane);
    } else {
      OtherStepLowersTimer(j, step, lane);
    }
  }

  lemma OtherStepLowersTimer(j: Junction, step: Step, lane: Lane)
    requires !step.PhaseEnd? && DoesNotRaise(j, step, lane)
    ensures TimeLeft(AfterStep(j, step), lane) <= TimeLeft(j, lane)
  {
  }

  /** What is left of a time after `k` reports of `n` cars, and possibly more that lowered it. */
  ghost predicate Decayed(k: nat, n: nat, last: nat, first: nat)
    requires n <= 100
  {
    Power(100, k) * last <= Power(100 - n, k) * first
  }

  lemma ReportDecays(k: nat, n: nat, last: nat, middle: nat, first: nat)
    requires n <= 100 && Decayed(k, n, last, middle) && 100 * middle <= (100 - n) * first
    ensures Decayed(k + 1, n, last, first)
  {
    Compound(Power(100, k), Power(100 - n, k), last, middle, first, n);
  }

  lemma LoweringDecays(k: nat, n: nat, last: nat, middle: nat, first: nat)
    requires n <= 100 && Decayed(k, n, last, middle) && middle <= first
    ensures Decayed(k, n, last, first)
  {
    MultiplyBothSides(Power(100 - n, k), middle, first);
  }

  lemma {:induction false} RunDecays(j: Junction, steps: seq<Step>, lane: Lane, n: nat)
    requires SignalsOk(j.signals) && 1 <= n <= 100 && NeverRaised(j, steps, lane)
    ensures Decayed(Reports(j, steps, lane, n), n, TimeLeft(Run(j, steps), lane), TimeLeft(j, lane))
    decreases |steps|
  {
    if steps != [] {
      var next := AfterStep(j, steps[0]);
      var k := Reports(next, steps[1..], lane, n);
      StepKeepsSignals(j, steps[0]);
      RunDecays(next, steps[1..], lane, n);
      if IsReport(j, steps[0], lane, n) {
        ReportShortensTimer(j, steps[0], lane, n);
        ReportDecays(k, n, TimeLeft(Run(j, steps), lane), TimeLeft(next, lane), TimeLeft(j, lane));
      } else {
        StepLowersTimer(j, steps[0], lane);
        LoweringDecays(k, n, TimeLeft(Run(j, steps), lane), TimeLeft(next, lane), TimeLeft(j, lane));
      }
    }
  }

  /**
   Geometric decay. Over any run in which the lane's timer is neither reset nor set to more, after
   `k` camera reports of `n` cars each, whatever happens between them, the time left is at most
   `((100 - n) / 100)^k` of what it was.
   */
  lemma ReportsDecayGeometrically(j: Junction, steps: seq<Step>, lane: Lane, n: nat)
    requires SignalsOk(j.signals) && 1 <= n <= 100 && NeverRaised(j, steps, lane)
    ensures var k := Reports(j, steps, lane, n);
      Power(100, k) * TimeLeft(Run(j, steps), lane) <= Power(100 - n, k) * TimeLeft(j, lane)
  {
    RunDecays(j, steps, lane, n);
  }

  lemma Compound(p: nat, q: nat, last: nat, middle: nat, first: nat, n: nat)
    requires n <= 100 && p * last <= q * middle && 100 * middle <= (100 - n) * first
    ensures 100 * p * last <= (100 - n) * q * first
  {
    assert 100 * p * last == 100 * (p * last);
    assert 100 * (p * last) <= 100 * (q * middle) == q * (100 * middle);
    assert q * (100 * middle) <= q * ((100 - n) * first) by {
      MultiplyBothSides(q, 100 * middle, (100 - n) * first);
    }
    assert q * ((100 - n) * first) == (100 - n) * q * first;
  }
}
