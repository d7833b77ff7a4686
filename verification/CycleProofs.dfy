/** The normal cycle, and where its announcements go wrong. */
module CycleProofs {
  import opened Integers
  import opened JunctionModel
  import opened Lanes
  import opened SignalProofs
  import opened Wrappers

  ghost predicate Quiet(s: Signals) {
    SignalsOk(s) && s.jumps == [] && forall lane: Lane :: !Expired(s.timers, lane)
  }

  /** No timer expires in these steps; timers may count, and anything else may happen. */
  predicate NothingExpires(steps: seq<Step>) {
    forall step <- steps :: step.TimerRuns? ==> !step.expires
  }

  lemma QuietHasNoRequests(s: Signals)
    requires Quiet(s)
    ensures RequestQueue(s) == []
  {
    assert Requests(s.timers) == [];
  }

  lemma QuietTimers(s: Signals, s': Signals, red: uint16)
    requires Quiet(s) && PhaseEndEffect(s, s', red)
    ensures forall lane: Lane :: !Expired(s'.timers, lane)
  {
    forall lane: Lane
      ensures !Expired(s'.timers, lane)
    {
      assert !Expired(s.timers, lane);
      EffectOnExpiry(s, s', red, lane);
    }
  }

  lemma QuietEffect(s: Signals, s': Signals, red: uint16)
    requires Quiet(s) && PhaseEndEffect(s, s', red)
    ensures Quiet(s') && s'.phase == NormalTarget(s.phase)
    ensures s'.announced == s'.nextNormalState == NextNormal(s.phase, s.nextNormalState)
  {
    QuietHasNoRequests(s);
    QuietTimers(s, s', red);
    EffectKeepsSignals(s, s', red);
  }

  /** The normal cycle from the start: its phases, and the names assigned along the way. */
  function CyclePhase(n: nat): Phase {
    if n == 0 then Stopped else NormalTarget(CyclePhase(n - 1))
  }

  function CycleNext(n: nat): string {
    if n == 0 then "EW" else NextNormal(CyclePhase(n - 1), CycleNext(n - 1))
  }

  /** The signals of a controller that has gone through `n` phases of the cycle. */
  ghost predicate AtCycle(s: Signals, n: nat) {
    && Quiet(s) && s.phase == CyclePhase(n) && s.nextNormalState == CycleNext(n)
    && (n > 0 ==> s.announced == CycleNext(n))
  }

  lemma PhaseEndAdvances(j: Junction, n: nat)
    requires AtCycle(j.signals, n)
    ensures AtCycle(AfterPhaseEnd(j).signals, n + 1)
  {
    PhaseEndHasEffect(j);
    EffectAdvances(j.signals, AfterPhaseEnd(j).signals, j.config.redLightDuration, n);
  }

  lemma EffectAdvances(s: Signals, s': Signals, red: uint16, n: nat)
    requires AtCycle(s, n) && PhaseEndEffect(s, s', red)
    ensures AtCycle(s', n + 1)
  {
    QuietEffect(s, s', red);
  }

  lemma OtherStepStays(j: Junction, step: Step, n: nat)
    requires AtCycle(j.signals, n) && !step.PhaseEnd? && NothingExpires([step])
    ensures AtCycle(AfterStep(j, step).signals, n)
  {
    var s, s' := j.signals, AfterStep(j, step).signals;
    StepKeepsSignals(j, step);
    assert step in [step];
    forall lane: Lane
      ensures !Expired(s'.timers, lane)
    {
      assert !Expired(s.timers, lane);
      StepOnExpiry(j, step, lane);
    }
  }

  lemma StepAtCycle(j: Junction, step: Step, n: nat)
    requires AtCycle(j.signals, n) && NothingExpires([step])
    ensures AtCycle(AfterStep(j, step).signals, n + if step.PhaseEnd? then 1 else 0)
  {
    if step.PhaseEnd? {
      PhaseEndAdvances(j, n);
    } else {
      OtherStepStays(j, step, n);
    }
  }

  lemma {:induction false} QuietRun(j: Junction, n: nat, steps: seq<Step>)
    requires AtCycle(j.signals, n) && NothingExpires(steps)
    ensures AtCycle(Run(j, steps).signals, n + PhaseEnds(steps))
    decreases |steps|
  {
    if steps != [] {
      StepAtCycle(j, steps[0], n);
      QuietRun(AfterStep(j, steps[0]), n + if steps[0].PhaseEnd? then 1 else 0, steps[1..]);
    }
  }

  const CYCLE: seq<Phase> := [
    EWTransition, NTransition, STransition, EWTransitionCpy,
    NSTransition, ETransition, WTransition, NSTransitionCpy]

  lemma {:induction false} PhasesRepeat(n: nat)
    requires n > 0
    ensures CyclePhase(n) == CYCLE[(n - 1) % 8]
  {
    if n > 1 {
      PhasesRepeat(n - 1);
      NextInCycle((n - 2) % 8);
      SuccessorModulo(n - 2);
    }
  }

  lemma NextInCycle(i: nat)
    requires i < 8
    ensures CYCLE[(i + 1) % 8] == NormalTarget(CYCLE[i])
  {
  }

  lemma SuccessorModulo(n: nat)
    ensures (n + 1) % 8 == (n % 8 + 1) % 8
  {
  }

  /** The names assigned along the cycle are those of the phases entered, except after W. */
  lemma {:induction false} NamesRepeat(n: nat)
    requires n > 0
    ensures IsName(CycleNext(n))
    ensures n % 8 == 7 ==> CycleNext(n) == "W"
    ensures LanesOf(CycleNext(n)) == Green(CyclePhase(n)) <==> n % 8 != 0
  {
    if n > 1 {
      NamesRepeat(n - 1);
      PhasesRepeat(n - 1);
    }
    NextNormalIsName(CyclePhase(n - 1), CycleNext(n - 1));
    NextNormalNamesNext(CyclePhase(n - 1), CycleNext(n - 1));
  }

  /**
   The disagreement is real and recurs: in every run in which no lane's timer expires, whatever else
   happens, the display is wrong after exactly every eighth phase end, when N and S turn green.
   */
  lemma EveryEighthPhaseEndMisannounces(j: Junction, steps: seq<Step>)
    requires IsInitial(j) && NothingExpires(steps) && PhaseEnds(steps) > 0
    ensures Agrees(Run(j, steps).signals) <==> PhaseEnds(steps) % 8 != 0
  {
    InitialSignals(j);
    QuietRun(j, 0, steps);
    NamesRepeat(PhaseEnds(steps));
  }

  // ---------------------------------------------------------------- where a jump enters the cycle

  /** The first place of the cycle at which exactly these lanes are green. */
  ghost predicate FirstShowing(i: nat, lanes: set<Lane>) {
    i < 8 && Green(CYCLE[i]) == lanes && forall k :: 0 <= k < i ==> Green(CYCLE[k]) != lanes
  }

  /** The place of the cycle that a jump with this name leads to. */
  function PlaceOf(name: string): nat {
    if name == "EW" then 0 else if name == "N" then 1 else if name == "S" then 2
    else if name == "NS" then 4 else if name == "E" then 5 else 6
  }

  /** Of the phases in which exactly the named lanes are green, a jump enters the first of the cycle. */
  lemma JumpEntersFirst(name: string)
    requires IsName(name)
    ensures FirstShowing(PlaceOf(name), LanesOf(name)) && JumpTarget(name) == Some(CYCLE[PlaceOf(name)])
  {
    LanesOfNames();
    GreenOfCycle();
  }

  lemma GreenOfCycle()
    ensures Green(CYCLE[0]) == Green(CYCLE[3]) == {E, W} && Green(CYCLE[1]) == {N} && Green(CYCLE[2]) == {S}
    ensures Green(CYCLE[4]) == Green(CYCLE[7]) == {N, S} && Green(CYCLE[5]) == {E} && Green(CYCLE[6]) == {W}
  {
  }

  lemma QuietStep(j: Junction, step: Step)
    requires Quiet(j.signals) && NothingExpires([step])
    ensures Quiet(AfterStep(j, step).signals)
    ensures AfterStep(j, step).signals.phase
      == if step.PhaseEnd? then NormalTarget(j.signals.phase) else j.signals.phase
  {
    if step.PhaseEnd? {
      PhaseEndHasEffect(j);
      QuietEffect(j.signals, AfterPhaseEnd(j).signals, j.config.redLightDuration);
    } else {
      QuietBetween(j, step);
    }
  }

  lemma QuietBetween(j: Junction, step: Step)
    requires Quiet(j.signals) && NothingExpires([step]) && !step.PhaseEnd?
    ensures Quiet(AfterStep(j, step).signals) && AfterStep(j, step).signals.phase == j.signals.phase
  {
    StepKeepsSignals(j, step);
    assert step in [step];
    forall lane: Lane
      ensures !Expired(AfterStep(j, step).signals.timers, lane)
    {
      assert !Expired(j.signals.timers, lane);
      StepOnExpiry(j, step, lane);
    }
  }

  /** The phase `k` places further in the normal cycle. */
  function Advance(p: Phase, k: nat): Phase
    decreases k
  {
    if k == 0 then p else Advance(NormalTarget(p), k - 1)
  }

  lemma {:induction false} AdvanceInCycle(n: nat, k: nat)
    ensures Advance(CyclePhase(n), k) == CyclePhase(n + k)
    decreases k
  {
    if k > 0 {
      AdvanceInCycle(n + 1, k - 1);
    }
  }

  /** Over quiet runs every phase end leads one place on. */
  lemma {:induction false} QuietRunAdvances(j: Junction, steps: seq<Step>)
    requires Quiet(j.signals) && NothingExpires(steps)
    ensures Run(j, steps).signals.phase == Advance(j.signals.phase, PhaseEnds(steps))
    decreases |steps|
  {
    if steps != [] {
      var next := AfterStep(j, steps[0]);
      QuietStep(j, steps[0]);
      QuietRunAdvances(next, steps[1..]);
      assert Run(j, steps) == Run(next, steps[1..]);
    }
  }

  lemma QuietRunReaches(j: Junction, n: nat, steps: seq<Step>)
    requires Quiet(j.signals) && NothingExpires(steps) && j.signals.phase == CyclePhase(n)
    ensures Run(j, steps).signals.phase == CyclePhase(n + PhaseEnds(steps))
  {
    QuietRunAdvances(j, steps);
    AdvanceInCycle(n, PhaseEnds(steps));
  }

  lemma JumpEntersCycle(name: string)
    requires IsName(name)
    ensures JumpTarget(name) == Some(CyclePhase(PlaceOf(name) + 1))
  {
    JumpEntersFirst(name);
    PhasesRepeat(PlaceOf(name) + 1);
  }

  lemma JumpEnters(j: Junction, name: string)
    requires SignalsOk(j.signals) && RequestQueue(j.signals) != [] && name == RequestQueue(j.signals)[0]
    ensures IsName(name) && AfterPhaseEnd(j).signals.phase == CyclePhase(PlaceOf(name) + 1)
  {
    RequestQueueIsNames(j.signals);
    PhaseEndHasEffect(j);
    JumpEntersCycle(name);
  }

  /**
   A jump resumes the cycle. When a phase end serves the last request and no timer stays expired, the
   controller goes on, over any run in which nothing expires, from the first phase of the cycle that
   shows the requested lanes (`JumpEntersFirst`): `k` phase ends later it is `k` places further.
   */
  lemma JumpResumesCycle(j: Junction, name: string, steps: seq<Step>)
    requires SignalsOk(j.signals) && RequestQueue(j.signals) != [] && name == RequestQueue(j.signals)[0]
    requires Quiet(AfterPhaseEnd(j).signals) && NothingExpires(steps)
    ensures Run(AfterPhaseEnd(j), steps).signals.phase == CyclePhase(PlaceOf(name) + 1 + PhaseEnds(steps))
  {
    JumpEnters(j, name);
    QuietRunReaches(AfterPhaseEnd(j), PlaceOf(name) + 1, steps);
  }
}
