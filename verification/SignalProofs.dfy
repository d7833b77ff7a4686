/** Proofs about the lights, the jump queue and the lane timers, over every run of the controller. */
module SignalProofs {
  import opened Integers
  import opened JunctionModel
  import opened Lanes
  import opened Timers

  // ---------------------------------------------------------------- names

  /** The transition names the statechart knows. */
  predicate IsName(name: string) {
    name == "EW" || name == "E" || name == "W" || name == "NS" || name == "N" || name == "S"
  }

  /** No two lanes that cross. */
  predicate OneAxis(lanes: set<Lane>) {
    lanes <= {E, W} || lanes <= {N, S}
  }

  lemma LanesOfNames()
    ensures LanesOf("EW") == {E, W} && LanesOf("E") == {E} && LanesOf("W") == {W}
    ensures LanesOf("NS") == {N, S} && LanesOf("N") == {N} && LanesOf("S") == {S}
    ensures LanesOf("") == {}
  {
  }

  /** A known name is never an undefined transition, and a jump turns green exactly the lanes it names. */
  lemma JumpIsDefined(name: string)
    ensures JumpTarget(name).Some? <==> IsName(name)
    ensures IsName(name) ==> LanesOf(name) != {} && Green(JumpTarget(name).value) == LanesOf(name) && OneAxis(LanesOf(name))
  {
    LanesOfNames();
  }

  lemma AxisNameIsName(timers: map<Lane, TimerState>)
    ensures var ew := AxisName(timers, E, W); ew == "" || ew == "EW" || ew == "E" || ew == "W"
    ensures var ns := AxisName(timers, N, S); ns == "" || ns == "NS" || ns == "N" || ns == "S"
    ensures LanesOf(AxisName(timers, E, W)) == set lane | lane in {E, W} && Expired(timers, lane)
    ensures LanesOf(AxisName(timers, N, S)) == set lane | lane in {N, S} && Expired(timers, lane)
  {
    LanesOfNames();
    assert ['E'] + ['W'] == "EW" && ['N'] + ['S'] == "NS";
    assert ['E'] == "E" && ['W'] == "W" && ['N'] == "N" && ['S'] == "S";
  }

  /** The requests of one phase end are the names of the axes that have an expired lane. */
  lemma RequestsAreAxes(timers: map<Lane, TimerState>)
    ensures var q := Requests(timers); var ns, ew := AxisName(timers, N, S), AxisName(timers, E, W);
      && (ns != "" && ew != "" ==> q == [ns, ew] || q == [ew, ns])
      && (ns != "" && ew == "" ==> q == [ns])
      && (ns == "" && ew != "" ==> q == [ew])
      && (ns == "" && ew == "" ==> q == [])
  {
  }

  lemma RequestsNameExpired(timers: map<Lane, TimerState>)
    ensures var q := Requests(timers);
      && |q| <= 2 && (|q| == 2 ==> LanesOf(q[0]) !! LanesOf(q[1]))
      && (forall i :: 0 <= i < |q| ==> IsName(q[i]) && forall lane <- LanesOf(q[i]) :: Expired(timers, lane))
  {
    AxisNameIsName(timers);
    RequestsAreAxes(timers);
  }

  /** A phase end queues known names only, at most one per axis, and every expired lane is in one. */
  lemma RequestsCoverExpired(timers: map<Lane, TimerState>)
    ensures var q := Requests(timers);
      && |q| <= 2 && (|q| == 2 ==> LanesOf(q[0]) !! LanesOf(q[1]))
      && (forall i :: 0 <= i < |q| ==> IsName(q[i]) && forall lane <- LanesOf(q[i]) :: Expired(timers, lane))
      && (forall lane: Lane :: Expired(timers, lane) ==> exists i :: 0 <= i < |q| && lane in LanesOf(q[i]))
  {
    RequestsNameExpired(timers);
    forall lane: Lane | Expired(timers, lane)
      ensures exists i :: 0 <= i < |Requests(timers)| && lane in LanesOf(Requests(timers)[i])
    {
      ExpiredIsNamed(timers, lane);
    }
  }

  /** The lane's timer has expired, and before those of the two others that have. */
  predicate BeforeBoth(timers: map<Lane, TimerState>, lane: Lane, a: Lane, b: Lane) {
    && Expired(timers, lane)
    && (Expired(timers, a) ==> timers[lane].expiredAt < timers[a].expiredAt)
    && (Expired(timers, b) ==> timers[lane].expiredAt < timers[b].expiredAt)
  }

  /**
   When both axes have an expired lane, each gets one request, and N/S goes first unless one of its
   lanes expired before every expired lane of E/W: the axis that waited less long is served first.
   Expiry times are 64-bit.
   */
  lemma LaterAxisFirst(timers: map<Lane, TimerState>)
    requires forall lane <- timers :: timers[lane].expiredAt <= 0x7fff_ffff_ffff_ffff
    requires Expired(timers, N) || Expired(timers, S)
    requires Expired(timers, E) || Expired(timers, W)
    ensures var q := Requests(timers);
      |q| == 2 && (LanesOf(q[0]) <= {E, W} <==> BeforeBoth(timers, N, E, W) || BeforeBoth(timers, S, E, W))
  {
    AxisNameIsName(timers);
    LanesOfNames();
    AxisTimeIsEarliest(timers, N, S);
    AxisTimeIsEarliest(timers, E, W);
    EarlierAxis(timers);
    assert AxisName(timers, N, S) != "" && AxisName(timers, E, W) != "";
    RequestsInOrder(timers);
  }

  lemma AxisTimeIsEarliest(timers: map<Lane, TimerState>, a: Lane, b: Lane)
    requires forall lane <- timers :: timers[lane].expiredAt <= 0x7fff_ffff_ffff_ffff
    requires Expired(timers, a) || Expired(timers, b)
    ensures Expired(timers, a) ==> AxisTime(timers, a, b) <= timers[a].expiredAt
    ensures Expired(timers, b) ==> AxisTime(timers, a, b) <= timers[b].expiredAt
    ensures (Expired(timers, a) && AxisTime(timers, a, b) == timers[a].expiredAt)
      || (Expired(timers, b) && AxisTime(timers, a, b) == timers[b].expiredAt)
  {
  }

  lemma EarlierAxis(timers: map<Lane, TimerState>)
    requires forall lane <- timers :: timers[lane].expiredAt <= 0x7fff_ffff_ffff_ffff
    requires Expired(timers, N) || Expired(timers, S)
    requires Expired(timers, E) || Expired(timers, W)
    ensures AxisTime(timers, N, S) < AxisTime(timers, E, W)
      <==> BeforeBoth(timers, N, E, W) || BeforeBoth(timers, S, E, W)
  {
    AxisTimeIsEarliest(timers, N, S);
    AxisTimeIsEarliest(timers, E, W);
  }

  lemma RequestsInOrder(timers: map<Lane, TimerState>)
    requires AxisName(timers, N, S) != "" && AxisName(timers, E, W) != ""
    ensures Requests(timers) ==
      if AxisTime(timers, N, S) < AxisTime(timers, E, W) then [AxisName(timers, E, W), AxisName(timers, N, S)]
      else [AxisName(timers, N, S), AxisName(timers, E, W)]
  {
  }

  lemma ExpiredIsNamed(timers: map<Lane, TimerState>, lane: Lane)
    requires Expired(timers, lane)
    ensures exists i :: 0 <= i < |Requests(timers)| && lane in LanesOf(Requests(timers)[i])
  {
    var name := if lane == E || lane == W then AxisName(timers, E, W) else AxisName(timers, N, S);
    AxisNameIsName(timers);
    LanesOfNames();
    assert lane in LanesOf(name);
    RequestsAreAxes(timers);
    assert name in Requests(timers);
  }

  // ---------------------------------------------------------------- the invariant

  ghost predicate SignalsOk(s: Signals) {
    && !s.failed
    && (forall i :: 0 <= i < |s.jumps| ==> IsName(s.jumps[i]))
    && IsName(s.nextNormalState)
    && (s.announced == "" || IsName(s.announced))
    && (s.phase.Stopped? ==> s.nextNormalState == "EW")
    && (forall lane <- s.timers :: s.timers[lane].frozen <==> lane in LanesOf(s.announced))
  }

  /** The jump requests that a phase end finds: those queued before it and those it queues. */
  function RequestQueue(s: Signals): seq<string> {
    s.jumps + Requests(s.timers)
  }

  lemma RequestQueueIsNames(s: Signals)
    requires SignalsOk(s)
    ensures forall i :: 0 <= i < |RequestQueue(s)| ==> IsName(RequestQueue(s)[i])
  {
    RequestsCoverExpired(s.timers);
  }

  /**
   A phase end in one view, for both paths: jump to the oldest request, or else advance the cycle;
   the lanes left are reset, and exactly the announced lanes' timers end up frozen.
   */
  ghost predicate PhaseEndEffect(s: Signals, s': Signals, red: uint16) {
    && !s'.failed
    && s'.nextNormalState == NextNormal(s.phase, s.nextNormalState)
    && s'.timers == Frozen(Reset(s.timers, ResetName(s.phase), red), s'.announced)
    && if RequestQueue(s) == [] then
         s'.phase == NormalTarget(s.phase) && s'.announced == s'.nextNormalState && s'.jumps == []
       else
         var queue := RequestQueue(s);
         && IsName(queue[0]) && s'.phase == JumpTarget(queue[0]).value && s'.announced == queue[0]
         && s'.jumps == queue[1..]
  }

  lemma PhaseEndHasEffect(j: Junction)
    requires SignalsOk(j.signals)
    ensures PhaseEndEffect(j.signals, AfterPhaseEnd(j).signals, j.config.redLightDuration)
    ensures AfterPhaseEnd(j).config == j.config
  {
    var s := j.signals;
    if RequestQueue(s) == [] {
      assert s.jumps == [];
    } else {
      RequestQueueIsNames(s);
      var name := RequestQueue(s)[0];
      JumpIsDefined(name);
      if s.phase.Stopped? {
        ResetNothing(s.timers, j.config.redLightDuration);
      } else {
        ResetCommutesWithFrozen(s.timers, name, ResetName(s.phase), j.config.redLightDuration);
      }
    }
    if s.phase.Stopped? {
      ResetNothing(s.timers, j.config.redLightDuration);
    }
  }

  lemma ResetNothing(timers: map<Lane, TimerState>, red: uint16)
    ensures Reset(timers, ResetName(Stopped), red) == timers
  {
  }

  lemma ResetCommutesWithFrozen(timers: map<Lane, TimerState>, name: string, left: string, red: uint16)
    ensures Reset(Frozen(timers, name), left, red) == Frozen(Reset(timers, left, red), name)
  {
  }

  lemma EffectKeepsSignals(s: Signals, s': Signals, red: uint16)
    requires SignalsOk(s) && PhaseEndEffect(s, s', red)
    ensures SignalsOk(s') && !s'.phase.Stopped?
  {
    NextNormalIsName(s.phase, s.nextNormalState);
    var queue := RequestQueue(s);
    if queue != [] {
      RequestQueueIsNames(s);
      JumpIsDefined(queue[0]);
      forall i | 0 <= i < |s'.jumps| ensures IsName(s'.jumps[i]) {
        assert s'.jumps[i] == queue[i + 1];
      }
    }
    FrozenFreezes(Reset(s.timers, ResetName(s.phase), red), s'.announced);
  }

  lemma NextNormalIsName(p: Phase, before: string)
    requires IsName(before)
    ensures IsName(NextNormal(p, before)) && !NormalTarget(p).Stopped?
  {
  }

  lemma FrozenFreezes(timers: map<Lane, TimerState>, name: string)
    ensures forall lane <- Frozen(timers, name) :: Frozen(timers, name)[lane].frozen <==> lane in LanesOf(name)
  {
  }

  lemma PhaseEndKeepsSignals(j: Junction)
    requires SignalsOk(j.signals)
    ensures SignalsOk(AfterPhaseEnd(j).signals)
  {
    PhaseEndHasEffect(j);
    EffectKeepsSignals(j.signals, AfterPhaseEnd(j).signals, j.config.redLightDuration);
  }

  lemma OtherStepKeepsSignals(j: Junction, step: Step)
    requires !step.PhaseEnd?
    ensures SameSignals(j.signals, AfterStep(j, step).signals)
  {
  }

  lemma SameSignalsStayOk(s: Signals, s': Signals)
    requires SignalsOk(s) && SameSignals(s, s')
    ensures SignalsOk(s')
  {
  }

  lemma StepKeepsSignals(j: Junction, step: Step)
    requires SignalsOk(j.signals)
    ensures SignalsOk(AfterStep(j, step).signals)
    ensures step.PhaseEnd? || SameSignals(j.signals, AfterStep(j, step).signals)
  {
    if step.PhaseEnd? {
      PhaseEndKeepsSignals(j);
    } else {
      OtherStepKeepsSignals(j, step);
      SameSignalsStayOk(j.signals, AfterStep(j, step).signals);
    }
  }

  /** Everything but the timers' readings is the same, and no expiry has been taken back. */
  ghost predicate SameSignals(s: Signals, s': Signals) {
    && s' == s.(timers := s'.timers)
    && s'.timers.Keys == s.timers.Keys
    && forall lane <- s.timers ::
         s'.timers[lane].frozen == s.timers[lane].frozen && (s.timers[lane].expired ==> s'.timers[lane].expired)
  }

  lemma {:induction false} RunKeepsSignals(j: Junction, steps: seq<Step>)
    requires SignalsOk(j.signals)
    ensures SignalsOk(Run(j, steps).signals)
    decreases |steps|
  {
    if steps != [] {
      StepKeepsSignals(j, steps[0]);
      RunKeepsSignals(AfterStep(j, steps[0]), steps[1..]);
    }
  }

  lemma InitialSignals(j: Junction)
    requires IsInitial(j)
    ensures SignalsOk(j.signals)
  {
    LanesOfNames();
  }

  /**
   Crossing safety. In every run the "undefined transition" exception is never thrown, every queued
   request and the next normal state are known names, and neither the active phase nor what is
   announced ever gives green to two lanes that cross.
   */
  lemma CrossingSafety(j: Junction, steps: seq<Step>)
    requires IsInitial(j)
    ensures var s := Run(j, steps).signals;
      && !s.failed
      && (forall i :: 0 <= i < |s.jumps| ==> JumpTarget(s.jumps[i]).Some? && OneAxis(LanesOf(s.jumps[i])))
      && JumpTarget(s.nextNormalState).Some?
      && OneAxis(Green(s.phase)) && OneAxis(LanesOf(s.announced))
  {
    InitialSignals(j);
    RunKeepsSignals(j, steps);
    OkIsSafe(Run(j, steps).signals);
  }

  lemma OkIsSafe(s: Signals)
    requires SignalsOk(s)
    ensures forall i :: 0 <= i < |s.jumps| ==> JumpTarget(s.jumps[i]).Some? && OneAxis(LanesOf(s.jumps[i]))
    ensures JumpTarget(s.nextNormalState).Some?
    ensures OneAxis(Green(s.phase)) && OneAxis(LanesOf(s.announced))
  {
    forall i | 0 <= i < |s.jumps|
      ensures JumpTarget(s.jumps[i]).Some? && OneAxis(LanesOf(s.jumps[i]))
    {
      JumpIsDefined(s.jumps[i]);
    }
    JumpIsDefined(s.nextNormalState);
    JumpIsDefined(s.announced);
    LanesOfNames();
  }

  // ---------------------------------------------------------------- one phase end

  /** The lights on display are those of the active phase. */
  predicate Agrees(s: Signals) {
    LanesOf(s.announced) == Green(s.phase)
  }

  /** The phase ends normally: no jump is queued and no lane's timer has expired. */
  predicate EndsNormally(s: Signals) {
    RequestQueue(s) == []
  }

  /**
   After a phase end the display agrees with the active phase if and only if the phase end was not
   a normal transition out of W with something other than "NS" as next normal state: W's exit action
   assigns no next normal state.
   */
  lemma AgreementAfterPhaseEnd(j: Junction)
    requires SignalsOk(j.signals)
    ensures Agrees(AfterPhaseEnd(j).signals) <==>
      !(j.signals.phase.WTransition? && EndsNormally(j.signals) && j.signals.nextNormalState != "NS")
  {
    PhaseEndHasEffect(j);
    EffectOnAgreement(j.signals, AfterPhaseEnd(j).signals, j.config.redLightDuration);
  }

  lemma EffectOnAgreement(s: Signals, s': Signals, red: uint16)
    requires SignalsOk(s) && PhaseEndEffect(s, s', red)
    ensures Agrees(s') <==> !(s.phase.WTransition? && EndsNormally(s) && s.nextNormalState != "NS")
  {
    if EndsNormally(s) {
      NextNormalNamesNext(s.phase, s.nextNormalState);
    } else {
      JumpIsDefined(s'.announced);
    }
  }

  /** The name an exit action leaves behind names the phase that the normal cycle enters, except for W. */
  lemma NextNormalNamesNext(p: Phase, before: string)
    requires IsName(before) && (p.Stopped? ==> before == "EW")
    ensures LanesOf(NextNormal(p, before)) == Green(NormalTarget(p)) <==> !(p.WTransition? && before != "NS")
  {
    match p
    case WTransition => OnlyNSNamesBoth(before);
    case Stopped => assert LanesOf("EW") == {E, W};
    case EWTransition => assert LanesOf("N") == {N};
    case NTransition => assert LanesOf("S") == {S};
    case STransition => assert LanesOf("EW") == {E, W};
    case EWTransitionCpy => assert LanesOf("NS") == {N, S};
    case NSTransition => assert LanesOf("E") == {E};
    case ETransition => assert LanesOf("W") == {W};
    case NSTransitionCpy => assert LanesOf("EW") == {E, W};
  }

  lemma OnlyNSNamesBoth(name: string)
    requires IsName(name)
    ensures LanesOf(name) == {N, S} <==> name == "NS"
  {
    if name == "NS" {
      assert LanesOf("NS") == {N, S};
    } else {
      assert N !in LanesOf(name) || S !in LanesOf(name);
    }
  }

  lemma {:induction false} PhaseEndFreeRun(j: Junction, steps: seq<Step>)
    requires SignalsOk(j.signals) && PhaseEnd !in steps
    ensures SignalsOk(Run(j, steps).signals) && SameSignals(j.signals, Run(j, steps).signals)
    decreases |steps|
  {
    if steps != [] {
      StepKeepsSignals(j, steps[0]);
      PhaseEndFreeRun(AfterStep(j, steps[0]), steps[1..]);
    }
  }

  /** A display that disagrees is put right by the next phase end, whatever happens in between. */
  lemma NextPhaseEndAgrees(j: Junction, between: seq<Step>)
    requires SignalsOk(j.signals) && PhaseEnd !in between
    requires !Agrees(AfterPhaseEnd(j).signals)
    ensures Agrees(AfterPhaseEnd(Run(AfterPhaseEnd(j), between)).signals)
  {
    var j1 := AfterPhaseEnd(j);
    var j2 := Run(j1, between);
    PhaseEndHasEffect(j);
    EffectKeepsSignals(j.signals, j1.signals, j.config.redLightDuration);
    PhaseEndFreeRun(j1, between);
    PhaseEndHasEffect(j2);
    DisagreementIsBrief(j.signals, j1.signals, j2.signals, AfterPhaseEnd(j2).signals,
      j.config.redLightDuration, j2.config.redLightDuration);
  }

  lemma DisagreementIsBrief(s: Signals, s1: Signals, s2: Signals, s3: Signals, red: uint16, red': uint16)
    requires SignalsOk(s) && PhaseEndEffect(s, s1, red) && !Agrees(s1)
    requires SignalsOk(s2) && s2.phase == s1.phase && PhaseEndEffect(s2, s3, red')
    ensures Agrees(s3)
  {
    EffectOnAgreement(s, s1, red);
    EffectOnAgreement(s2, s3, red');
  }

  /** The lanes that a phase resets when it is left: those that are green in it, and for W also E. */
  lemma ResetLanes(p: Phase)
    ensures LanesOf(ResetName(p)) == Green(p) + if p.WTransition? then {E} else {}
  {
    LanesOfNames();
  }

  /**
   What a phase end, by jump or by the normal cycle, does to the lane timers: exactly the announced
   lanes' are frozen; those of the lanes that were green, and E's when W is left, hold the red
   duration and are not expired; no other timer's reading changes.
   */
  lemma PhaseEndTimers(j: Junction, lane: Lane)
    requires SignalsOk(j.signals)
    ensures var s, s' := j.signals, AfterPhaseEnd(j).signals;
      && s'.timers.Keys == s.timers.Keys
      && (lane in s.timers ==>
           var t, t' := s.timers[lane], s'.timers[lane];
           && (t'.frozen <==> lane in LanesOf(s'.announced))
           && t'.expiredAt == t.expiredAt
           && if lane in Green(s.phase) || (s.phase.WTransition? && lane == E)
              then t'.timeLeft == j.config.redLightDuration && !t'.expired
              else t'.timeLeft == t.timeLeft && t'.expired == t.expired)
      && s'.greenTimer == s.greenTimer.(timeLeft := j.config.greenLightDuration, expired := false)
  {
    PhaseEndHasEffect(j);
    ResetLanes(j.signals.phase);
  }

  lemma ResetCoversGreen(p: Phase)
    ensures Green(p) <= LanesOf(ResetName(p))
  {
    if !p.Stopped? {
      JumpIsDefined(ResetName(p));
    }
  }

  // ---------------------------------------------------------------- the life of an expiry

  /** Whether leaving the active phase resets the lane's timer. */
  predicate Resets(s: Signals, lane: Lane) {
    lane in LanesOf(ResetName(s.phase))
  }

  lemma EffectOnExpiry(s: Signals, s': Signals, red: uint16, lane: Lane)
    requires PhaseEndEffect(s, s', red)
    ensures Expired(s'.timers, lane) <==> Expired(s.timers, lane) && !Resets(s, lane)
  {
  }

  /** An expiry outlives a phase end if and only if the phase that is left does not reset the lane. */
  lemma ExpiryOutlivesPhaseEnd(j: Junction, lane: Lane)
    requires SignalsOk(j.signals)
    ensures Expired(AfterPhaseEnd(j).signals.timers, lane) <==> Expired(j.signals.timers, lane) && !Resets(j.signals, lane)
  {
    PhaseEndHasEffect(j);
    EffectOnExpiry(j.signals, AfterPhaseEnd(j).signals, j.config.redLightDuration, lane);
  }

  /** Between phase ends a timer expires only by running out, and no expiry is taken back. */
  lemma StepOnExpiry(j: Junction, step: Step, lane: Lane)
    requires !step.PhaseEnd?
    ensures Expired(j.signals.timers, lane) ==> Expired(AfterStep(j, step).signals.timers, lane)
    ensures (step.TimerRuns? && step.lane == lane ==> !step.expires) ==>
      (Expired(AfterStep(j, step).signals.timers, lane) <==> Expired(j.signals.timers, lane))
  {
  }
}
