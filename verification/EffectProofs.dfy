/**
 What the controller's operations do, said of the state before and after: who is connected where,
 who tracks which lane, what the counters and the durations hold, and what stays as it was.
 */
module EffectProofs {
  import opened CountingProofs
  import opened Integers
  import opened JunctionModel
  import opened Lanes
  import opened RegistryProofs
  import opened SignalProofs
  import opened Timers
  import opened Wrappers

  // ---------------------------------------------------------------- durations

  /** Green lasts a fifth of the longest waiting time, rounded down, and red three times as long. */
  lemma Durations(maxWaitingTime: uint16, usingLeftLane: uint8, missingLane: Option<Lane>)
    ensures var c := ConfigOf(maxWaitingTime, usingLeftLane, missingLane);
      && 5 * c.greenLightDuration <= maxWaitingTime < 5 * c.greenLightDuration + 5
      && c.redLightDuration == 3 * c.greenLightDuration
      && c.usingLeftLane == usingLeftLane && c.missingLane == missingLane
  {
  }

  // ---------------------------------------------------------------- registering and unregistering

  ghost predicate IsOn(r: Registry, lane: Lane, ip: IpAddress) {
    lane in r.clients && ip in r.clients[lane]
  }

  ghost predicate Tracks(r: Registry, lane: Lane, ip: IpAddress) {
    lane in r.trackers && r.trackers[lane] == ip
  }

  /** What is connected after an operation is what was, and the one client on the one lane, or without it. */
  ghost predicate Adds(r: Registry, r': Registry, lane: Lane, ip: IpAddress) {
    forall l: Lane, x :: IsOn(r', l, x) <==> IsOn(r, l, x) || (l == lane && x == ip)
  }

  ghost predicate Removes(r: Registry, r': Registry, lane: Lane, ip: IpAddress) {
    forall l: Lane, x :: IsOn(r', l, x) <==> IsOn(r, l, x) && !(l == lane && x == ip)
  }

  lemma FoundIffOn(r: Registry, ip: IpAddress)
    ensures FirstLane(r, ip, 0).Some? <==> exists lane: Lane :: IsOn(r, lane, ip)
    ensures FirstLane(r, ip, 0).Some? ==> IsOn(r, FirstLane(r, ip, 0).value, ip)
  {
    FirstLaneIsLane(r, ip);
    assert forall lane: Lane :: IsOn(r, lane, ip) <==> ip in ClientsOn(r, lane);
  }

  /**
   A registration is accepted if and only if the client is the lane's tracker or is connected
   nowhere. A client that is accepted and no tracker is connected on that lane from then on; the
   trackers and the waiting emergency vehicles stay as they were, and after a refusal everything does.
   */
  lemma RegisterConnects(j: Junction, lane: Lane, ip: IpAddress, leftLane: uint8, n: nat, other: uint16)
    ensures var r, j' := j.registry, AfterRegister(j, lane, ip, leftLane, n, other); var r' := j'.registry;
      && (MayRegister(r, lane, ip) <==> Tracks(r, lane, ip) || forall l: Lane :: !IsOn(r, l, ip))
      && (!MayRegister(r, lane, ip) ==> j' == j)
      && (Tracks(r, lane, ip) ==> r' == r)
      && (MayRegister(r, lane, ip) && !Tracks(r, lane, ip) ==> Adds(r, r', lane, ip))
      && r'.trackers == r.trackers && r'.emergencies == r.emergencies
  {
    FoundIffOn(j.registry, ip);
  }

  /**
   An accepted registration touches no timer but its lane's, and that one only by lowering the time
   left, and only if it is for the side of the road in use. For a client that is no tracker the
   decrease is the parameter, down to zero.
   */
  lemma RegisterLowersOneTimer(j: Junction, lane: Lane, ip: IpAddress, leftLane: uint8, n: nat, other: uint16, l: Lane)
    requires l in j.signals.timers
    ensures var s, s' := j.signals, AfterRegister(j, lane, ip, leftLane, n, other).signals;
      && s' == s.(timers := s'.timers) && s'.timers.Keys == s.timers.Keys
      && s'.timers[l] == s.timers[l].(timeLeft := s'.timers[l].timeLeft)
      && s'.timers[l].timeLeft <= s.timers[l].timeLeft
      && (l != lane || leftLane != j.config.usingLeftLane ==> s'.timers[l] == s.timers[l])
      && (l == lane && leftLane == j.config.usingLeftLane && !Tracks(j.registry, lane, ip)
          && MayRegister(j.registry, lane, ip) ==>
            s'.timers[l].timeLeft == if other <= s.timers[l].timeLeft then s.timers[l].timeLeft - other else 0)
  {
  }

  /**
   Unregistering succeeds if and only if the client is connected on some lane, and then takes it off
   one such lane; nothing else about the registry changes, nor do the signals.
   */
  lemma UnregisterDisconnects(j: Junction, ip: IpAddress) returns (lane: Lane)
    ensures MayUnregister(j.registry, ip) <==> exists l: Lane :: IsOn(j.registry, l, ip)
    ensures !MayUnregister(j.registry, ip) ==> AfterUnregister(j, ip) == j
    ensures var r' := AfterUnregister(j, ip).registry;
      && (MayUnregister(j.registry, ip) ==> IsOn(j.registry, lane, ip) && Removes(j.registry, r', lane, ip))
      && r'.trackers == j.registry.trackers && r'.emergencies == j.registry.emergencies
    ensures AfterUnregister(j, ip).signals == j.signals && AfterUnregister(j, ip).config == j.config
  {
    FoundIffOn(j.registry, ip);
    var found := FirstLane(j.registry, ip, 0);
    lane := if found.Some? then found.value else E;
  }

  // ---------------------------------------------------------------- emergencies

  /**
   An emergency vehicle is registered like one client, on the side of the road in use, and if that is
   accepted goes to the back of the queue of waiting vehicles.
   */
  lemma StartEmergencyQueues(j: Junction, lane: Lane, ip: IpAddress, other: uint16)
    ensures var r, j' := j.registry, AfterStartEmergency(j, lane, ip, other);
      var registered := AfterStep(j, RegisterClient(lane, ip, j.config.usingLeftLane, 1, other));
      && j'.registry.emergencies
         == (if Tracks(r, lane, ip) || (forall l: Lane :: !IsOn(r, l, ip)) then r.emergencies + [Vehicle(lane, ip)]
             else r.emergencies)
      && j'.registry.clients == registered.registry.clients && j'.registry.trackers == registered.registry.trackers
      && j'.signals == registered.signals && j'.counts == registered.counts && j'.config == j.config
  {
    FoundIffOn(j.registry, ip);
  }

  /** A caller that is connected nowhere ends nothing and changes nothing. */
  lemma EndEmergencyNeedsConnection(j: Junction, ip: IpAddress)
    requires forall lane: Lane :: !IsOn(j.registry, lane, ip)
    ensures AfterEndEmergency(j, ip) == j && !EndsEmergency(j, ip)
  {
    FoundIffOn(j.registry, ip);
  }

  // ---------------------------------------------------------------- trackers

  /** A camera is accepted if and only if its lane has no other tracker, and then it is the tracker. */
  lemma TrackerIsAccepted(j: Junction, lane: Lane, ip: IpAddress)
    ensures MayTrack(j.registry, lane, ip) <==> forall t :: Tracks(j.registry, lane, t) ==> t == ip
    ensures Tracks(AfterRegisterTracker(j, lane, ip).registry, lane, ip) <==> MayTrack(j.registry, lane, ip)
    ensures var j' := AfterRegisterTracker(j, lane, ip);
      && (forall l: Lane, t :: l != lane ==> (Tracks(j'.registry, l, t) <==> Tracks(j.registry, l, t)))
      && j' == j.(registry := j.registry.(trackers := j'.registry.trackers))
  {
    assert MayTrack(j.registry, lane, ip) || Tracks(j.registry, lane, j.registry.trackers[lane]);
  }

  /** The address in the first of the steps that registers a tracker for the lane. */
  function FirstTracker(steps: seq<Step>, lane: Lane): Option<IpAddress> {
    if steps == [] then None
    else if steps[0].RegisterTracker? && steps[0].lane == lane then Some(steps[0].ip)
    else FirstTracker(steps[1..], lane)
  }

  function TrackerOf(r: Registry, lane: Lane): Option<IpAddress> {
    if lane in r.trackers then Some(r.trackers[lane]) else None
  }

  lemma StepKeepsTracker(j: Junction, step: Step, lane: Lane)
    ensures var before, after := TrackerOf(j.registry, lane), TrackerOf(AfterStep(j, step).registry, lane);
      after == if before.None? && step.RegisterTracker? && step.lane == lane then Some(step.ip) else before
  {
  }

  lemma {:induction false} RunKeepsTracker(j: Junction, steps: seq<Step>, lane: Lane)
    ensures var before := TrackerOf(j.registry, lane);
      TrackerOf(Run(j, steps).registry, lane) == if before.Some? then before else FirstTracker(steps, lane)
    decreases |steps|
  {
    if steps != [] {
      StepKeepsTracker(j, steps[0], lane);
      RunKeepsTracker(AfterStep(j, steps[0]), steps[1..], lane);
    }
  }

  /**
   In every run from the start a lane's tracker is the address that was registered for it first, and a
   further call is accepted if and only if it has that address or there was none.
   */
  lemma TrackerIsFirst(j: Junction, steps: seq<Step>, lane: Lane, ip: IpAddress)
    requires IsInitial(j)
    ensures Tracks(Run(j, steps).registry, lane, ip) <==> FirstTracker(steps, lane) == Some(ip)
    ensures MayTrack(Run(j, steps).registry, lane, ip)
      <==> FirstTracker(steps, lane).None? || FirstTracker(steps, lane) == Some(ip)
  {
    RunKeepsTracker(j, steps, lane);
    TrackerIsAccepted(Run(j, steps), lane, ip);
  }

  // ---------------------------------------------------------------- counters

  /** The counter's value, up to wrap-around: a lane that was never counted has none. */
  ghost predicate Counts16(m: map<Lane, uint16>, lane: Lane, n: nat) {
    if lane in m then m[lane] == n % UINT16_LIMIT else n == 0
  }

  /** The step lets a client other than the tracker in on the lane, or takes one off it. */
  ghost predicate Arrives(j: Junction, step: Step, lane: Lane) {
    && (step.RegisterClient? || step.StartEmergency?) && step.lane == lane
    && !Tracks(j.registry, lane, step.ip) && forall l: Lane :: !IsOn(j.registry, l, step.ip)
  }

  ghost predicate Leaves(j: Junction, step: Step, lane: Lane) {
    && (step.UnregisterClient? || step.EndEmergency?)
    && IsOn(j.registry, lane, step.ip) && !Tracks(j.registry, lane, step.ip)
  }

  function One(b: bool): nat {
    if b then 1 else 0
  }

  ghost function Arrivals(j: Junction, steps: seq<Step>, lane: Lane): nat
    decreases |steps|
  {
    if steps == [] then 0
    else One(Arrives(j, steps[0], lane)) + Arrivals(AfterStep(j, steps[0]), steps[1..], lane)
  }

  ghost function Departures(j: Junction, steps: seq<Step>, lane: Lane): nat
    decreases |steps|
  {
    if steps == [] then 0
    else One(Leaves(j, steps[0], lane)) + Departures(AfterStep(j, steps[0]), steps[1..], lane)
  }

  lemma SuccessorModulo16(n: nat)
    ensures (n % UINT16_LIMIT + 1) % UINT16_LIMIT == (n + 1) % UINT16_LIMIT
  {
  }

  lemma IncrementIsOneMore(m: map<Lane, uint16>, lane: Lane, l: Lane, n: nat)
    requires Counts16(m, l, n)
    ensures Counts16(Increment(m, lane), l, n + if l == lane then 1 else 0)
  {
    SuccessorModulo16(n);
  }

  lemma ArrivalIsCounted(j: Junction, step: Step, lane: Lane, n: nat)
    requires !step.PhaseEnd? && Counts16(j.counts.waiting, lane, n)
    ensures Counts16(AfterStep(j, step).counts.waiting, lane, n + One(Arrives(j, step, lane)))
  {
    if step.RegisterClient? || step.StartEmergency? {
      FoundIffOn(j.registry, step.ip);
      IncrementIsOneMore(j.counts.waiting, step.lane, lane, n);
    }
  }

  /** With one lane for each client, a departure is from the lane that the client is on. */
  lemma FoundIsTheLane(r: Registry, ip: IpAddress, lane: Lane)
    requires Disjoint(r)
    ensures FirstLane(r, ip, 0) == Some(lane) <==> IsOn(r, lane, ip)
  {
    FoundIffOn(r, ip);
    if IsOn(r, lane, ip) {
      assert ip in ClientsOn(r, lane) && ip in ClientsOn(r, FirstLane(r, ip, 0).value);
    }
  }

  lemma DepartureIsCounted(j: Junction, step: Step, lane: Lane, n: nat)
    requires !step.PhaseEnd? && Disjoint(j.registry) && Counts16(j.counts.passed, lane, n)
    ensures Counts16(AfterStep(j, step).counts.passed, lane, n + One(Leaves(j, step, lane)))
  {
    if step.UnregisterClient? || step.EndEmergency? {
      FoundIsTheLane(j.registry, step.ip, lane);
      if FirstLane(j.registry, step.ip, 0).Some? {
        IncrementIsOneMore(j.counts.passed, FirstLane(j.registry, step.ip, 0).value, lane, n);
      }
    }
  }

  ghost predicate Hold(c: Counts, lane: Lane, waiting: nat, passed: nat) {
    Counts16(c.waiting, lane, waiting) && Counts16(c.passed, lane, passed)
  }

  lemma StepCounts(j: Junction, step: Step, lane: Lane, waiting: nat, passed: nat)
    requires !step.PhaseEnd? && Disjoint(j.registry) && Hold(j.counts, lane, waiting, passed)
    ensures Disjoint(AfterStep(j, step).registry)
    ensures Hold(AfterStep(j, step).counts, lane, waiting + One(Arrives(j, step, lane)), passed + One(Leaves(j, step, lane)))
  {
    ArrivalIsCounted(j, step, lane, waiting);
    DepartureIsCounted(j, step, lane, passed);
    StepKeepsDisjoint(j, step);
  }

  lemma {:induction false} RunCounts(j: Junction, steps: seq<Step>, lane: Lane, waiting: nat, passed: nat)
    requires PhaseEnd !in steps && Disjoint(j.registry) && Hold(j.counts, lane, waiting, passed)
    ensures Hold(Run(j, steps).counts, lane, waiting + Arrivals(j, steps, lane), passed + Departures(j, steps, lane))
    decreases |steps|
  {
    if steps != [] {
      StepCounts(j, steps[0], lane, waiting, passed);
      RunCounts(AfterStep(j, steps[0]), steps[1..], lane,
                waiting + One(Arrives(j, steps[0], lane)), passed + One(Leaves(j, steps[0], lane)));
    }
  }

  /**
   What the counters count. In every run from the start without a phase end, a lane's waiting counter
   holds the number of clients other than its tracker that were let in on it, and its passed counter
   the number of those that left, both in 16 bits.
   */
  lemma CountersCount(j: Junction, steps: seq<Step>, lane: Lane)
    requires IsInitial(j) && PhaseEnd !in steps
    ensures Counts16(Run(j, steps).counts.waiting, lane, Arrivals(j, steps, lane))
    ensures Counts16(Run(j, steps).counts.passed, lane, Departures(j, steps, lane))
  {
    RunCounts(j, steps, lane, 0, 0);
  }

  // ---------------------------------------------------------------- counters at a phase end

  function Reading(m: map<Lane, uint16>, lane: Lane): nat {
    if lane in m then m[lane] else 0
  }

  /** The waiting counters of some lanes together, in eight bits. */
  function WaitingOn(c: Counts, lanes: set<Lane>): uint8 {
    ((if E in lanes then Reading(c.waiting, E) else 0) + (if W in lanes then Reading(c.waiting, W) else 0)
     + (if N in lanes then Reading(c.waiting, N) else 0) + (if S in lanes then Reading(c.waiting, S) else 0)) % UINT8_LIMIT
  }

  lemma CountedReading(c: Counts, lanes: set<Lane>, lane: Lane)
    ensures Reading(AfterCount(c, lanes).waiting, lane)
      == if lane in lanes then Remaining(c, lane) else Reading(c.waiting, lane)
  {
  }

  lemma DifferenceInSixteenBits(a: uint16, b: uint16)
    ensures (a - b) % UINT16_LIMIT == if a >= b then a - b else a - b + 65536
  {
  }

  lemma WaitingLessPassed(c: Counts, lanes: set<Lane>, lane: Lane)
    ensures var left := Reading(c.waiting, lane) - Reading(c.passed, lane);
      Reading(AfterCount(c, lanes).waiting, lane) ==
        if lane !in lanes then Reading(c.waiting, lane) else if left >= 0 then left else left + 65536
  {
    CountedReading(c, lanes, lane);
    DifferenceInSixteenBits(CountOf(c.waiting, lane), CountOf(c.passed, lane));
  }

  lemma SampleIsWaiting(c: Counts, lanes: set<Lane>)
    ensures Sample(c, lanes) == WaitingOn(AfterCount(c, lanes), lanes)
  {
    CountedReading(c, lanes, E);
    CountedReading(c, lanes, W);
    CountedReading(c, lanes, N);
    CountedReading(c, lanes, S);
  }

  lemma AverageIsQuotient(c: Counts, lanes: set<Lane>)
    ensures var c' := AfterCount(c, lanes);
      var t, total := c.transitions, c.average * c.transitions + WaitingOn(c', lanes);
      c'.average * (t + 1) <= total < (c'.average + 1) * (t + 1)
  {
    SampleIsWaiting(c, lanes);
    NextAverageIsQuotient(c.average, c.transitions, Sample(c, lanes));
  }

  lemma NextAverageIsQuotient(average: uint8, transitions: uint16, sample: uint8)
    ensures var r, total := NextAverage(average, transitions, sample), average * transitions + sample;
      r * (transitions + 1) <= total < (r + 1) * (transitions + 1)
  {
    NextAverageAtMost(average, transitions, sample, if average < sample then sample else average);
    QuotientIs(average * transitions + sample, transitions + 1);
  }

  /** What counting some lanes does: see `PhaseEndCounters`. */
  ghost predicate CountsGreen(c: Counts, c': Counts, lanes: set<Lane>) {
    && (forall lane: Lane ::
          var left := Reading(c.waiting, lane) - Reading(c.passed, lane);
          Reading(c'.waiting, lane)
          == if lane !in lanes then Reading(c.waiting, lane) else if left >= 0 then left else left + 65536)
    && c'.passed == c.passed
    && (var t := c.transitions; var total := c.average * t + WaitingOn(c', lanes);
        c'.average * (t + 1) <= total < (c'.average + 1) * (t + 1))
    && c'.transitions == (if c.transitions == 65535 then 0 else c.transitions + 1)
  }

  lemma CountCounts(c: Counts, lanes: set<Lane>)
    ensures CountsGreen(c, AfterCount(c, lanes), lanes)
  {
    AverageIsQuotient(c, lanes);
    forall lane: Lane
      ensures var left := Reading(c.waiting, lane) - Reading(c.passed, lane);
        Reading(AfterCount(c, lanes).waiting, lane)
        == if lane !in lanes then Reading(c.waiting, lane) else if left >= 0 then left else left + 65536
    {
      WaitingLessPassed(c, lanes, lane);
    }
  }

  /**
   What a phase end does to the counters: for the lanes that were green, waiting becomes waiting less
   passed, in 16 bits; passed stays. The new average is the quotient, rounded down, of the old one
   weighted by the transitions so far, and the new waiting counters of those lanes.
   */
  lemma PhaseEndCounters(j: Junction)
    requires SignalsOk(j.signals) && !j.signals.phase.Stopped?
    ensures CountsGreen(j.counts, AfterPhaseEnd(j).counts, Green(j.signals.phase))
    ensures AfterPhaseEnd(j).registry == j.registry && AfterPhaseEnd(j).config == j.config
  {
    PhaseEndCounts(j);
    CountCounts(j.counts, Green(j.signals.phase));
  }

  lemma QuotientIs(x: nat, d: nat)
    requires d > 0
    ensures (x / d) * d <= x < (x / d + 1) * d
  {
    QuotientBounds(x, d);
  }
}
