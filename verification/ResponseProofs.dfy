/**
 How the queue of jump requests is served: how soon, how often, and how long it gets. A lane whose
 timer has expired is requested anew at every phase end until a phase that resets the timer is left.
 */
module ResponseProofs {
  import opened Integers
  import opened JunctionModel
  import opened Lanes
  import opened SignalProofs
  import opened Timers

  // ---------------------------------------------------------------- bounded response

  /** After the first `k` steps the lane is green, both on display and in the active phase. */
  ghost predicate GreenAfter(j: Junction, steps: seq<Step>, k: nat, lane: Lane)
    requires k <= |steps|
  {
    var s := Run(j, steps[..k]).signals;
    lane in LanesOf(s.announced) && lane in Green(s.phase)
  }

  lemma GreenAfterFirst(j: Junction, steps: seq<Step>, lane: Lane)
    requires SignalsOk(j.signals) && steps != [] && steps[0].PhaseEnd?
    requires RequestQueue(j.signals) != [] && lane in LanesOf(RequestQueue(j.signals)[0])
    ensures PhaseEnds(steps[..1]) == 1 && GreenAfter(j, steps, 1, lane)
  {
    PhaseEndHasEffect(j);
    JumpIsDefined(RequestQueue(j.signals)[0]);
    assert steps[..1] == [steps[0]] && [steps[0]][1..] == [];
    assert Run(j, [steps[0]]) == Run(AfterPhaseEnd(j), []) == AfterPhaseEnd(j);
  }

  lemma GreenAfterMore(j: Junction, steps: seq<Step>, k: nat, lane: Lane)
    requires steps != [] && k < |steps| && GreenAfter(AfterStep(j, steps[0]), steps[1..], k, lane)
    ensures GreenAfter(j, steps, k + 1, lane)
    ensures PhaseEnds(steps[..k + 1]) == (if steps[0].PhaseEnd? then 1 else 0) + PhaseEnds(steps[1..][..k])
  {
    assert steps[..k + 1][0] == steps[0] && steps[..k + 1][1..] == steps[1..][..k];
  }

  lemma RequestMovesUp(j: Junction, step: Step, i: nat, lane: Lane)
    requires SignalsOk(j.signals)
    requires if step.PhaseEnd? then 0 < i < |RequestQueue(j.signals)| && lane in LanesOf(RequestQueue(j.signals)[i])
             else i < |j.signals.jumps| && lane in LanesOf(j.signals.jumps[i])
    ensures var s, i' := AfterStep(j, step).signals, if step.PhaseEnd? then i - 1 else i;
      && i' < |s.jumps| && lane in LanesOf(s.jumps[i'])
      && i' < |RequestQueue(s)| && lane in LanesOf(RequestQueue(s)[i'])
  {
    if step.PhaseEnd? {
      PhaseEndHasEffect(j);
    } else {
      StepKeepsSignals(j, step);
    }
  }

  /**
   The queue of jump requests is served first come, first served: a lane named by the request at
   place `i`, counting those the next phase end will queue, is green after `i + 1` phase ends.
   */
  lemma {:induction false} RequestIsServed(j: Junction, i: nat, steps: seq<Step>, lane: Lane) returns (k: nat)
    requires SignalsOk(j.signals) && steps != []
    requires i < PhaseEnds(steps)
    requires if steps[0].PhaseEnd? then i < |RequestQueue(j.signals)| && lane in LanesOf(RequestQueue(j.signals)[i])
             else i < |j.signals.jumps| && lane in LanesOf(j.signals.jumps[i])
    ensures 0 < k <= |steps| && PhaseEnds(steps[..k]) == i + 1 && GreenAfter(j, steps, k, lane)
    decreases |steps|
  {
    var next := AfterStep(j, steps[0]);
    StepKeepsSignals(j, steps[0]);
    if steps[0].PhaseEnd? && i == 0 {
      GreenAfterFirst(j, steps, lane);
      k := 1;
    } else {
      var i' := if steps[0].PhaseEnd? then i - 1 else i;
      RequestMovesUp(j, steps[0], i, lane);
      k := RequestIsServed(next, i', steps[1..], lane);
      GreenAfterMore(j, steps, k, lane);
      k := k + 1;
    }
  }

  /**
   Bounded response. If a lane's timer is expired when a green phase ends with `q` jump requests
   queued, the lane turns green within `q + 2` phase ends, counting this one, whatever else happens
   and whatever is queued later.
   */
  lemma BoundedResponse(j: Junction, steps: seq<Step>, lane: Lane)
    requires SignalsOk(j.signals) && Expired(j.signals.timers, lane)
    requires steps != [] && steps[0].PhaseEnd?
    requires PhaseEnds(steps) >= |j.signals.jumps| + 2
    ensures exists k ::
      0 < k <= |steps| && PhaseEnds(steps[..k]) <= |j.signals.jumps| + 2 && GreenAfter(j, steps, k, lane)
  {
    var i := ExpiredLaneIsRequested(j.signals, lane);
    var k := RequestIsServed(j, i, steps, lane);
  }

  lemma ExpiredLaneIsRequested(s: Signals, lane: Lane) returns (i: nat)
    requires Expired(s.timers, lane)
    ensures |s.jumps| <= i < |RequestQueue(s)| <= |s.jumps| + 2 && lane in LanesOf(RequestQueue(s)[i])
  {
    ExpiredIsNamed(s.timers, lane);
    RequestsAreAxes(s.timers);
    i := FindName(s.jumps, Requests(s.timers), lane);
  }

  lemma FindName(before: seq<string>, q: seq<string>, lane: Lane) returns (i: nat)
    requires exists n :: 0 <= n < |q| && lane in LanesOf(q[n])
    ensures |before| <= i < |before + q| && lane in LanesOf((before + q)[i])
  {
    var n :| 0 <= n < |q| && lane in LanesOf(q[n]);
    i := |before| + n;
  }

  // ---------------------------------------------------------------- requests and services balance

  /** How many of the queued names include the lane. */
  function Naming(q: seq<string>, lane: Lane): nat {
    if q == [] then 0 else (if lane in LanesOf(q[0]) then 1 else 0) + Naming(q[1..], lane)
  }

  lemma {:induction false} NamingConcat(a: seq<string>, b: seq<string>, lane: Lane)
    ensures Naming(a + b, lane) == Naming(a, lane) + Naming(b, lane)
  {
    if a == [] {
      assert a + b == b;
    } else {
      assert (a + b)[1..] == a[1..] + b;
      NamingConcat(a[1..], b, lane);
    }
  }

  lemma NamingOfTwo(q: seq<string>, lane: Lane)
    requires |q| <= 2 && (|q| == 2 ==> LanesOf(q[0]) !! LanesOf(q[1]))
    ensures Naming(q, lane) == if exists i :: 0 <= i < |q| && lane in LanesOf(q[i]) then 1 else 0
  {
    if |q| == 2 {
      assert q[1..][1..] == [];
    } else if |q| == 1 {
      assert q[1..] == [];
    }
  }

  /** A phase end queues one request for each lane whose timer has expired, and none for another. */
  lemma ExpiredIsRequestedOnce(timers: map<Lane, TimerState>, lane: Lane)
    ensures Naming(Requests(timers), lane) == if Expired(timers, lane) then 1 else 0
  {
    RequestsCoverExpired(timers);
    NamingOfTwo(Requests(timers), lane);
  }

  /** Whether the phase end that comes now jumps to a phase in which the lane is green. */
  predicate ServesNow(j: Junction, lane: Lane) {
    RequestQueue(j.signals) != [] && lane in Green(AfterPhaseEnd(j).signals.phase)
  }

  /** In how many phase ends of a run the lane is requested, and by how many it is served. */
  function Requested(j: Junction, steps: seq<Step>, lane: Lane): nat
    decreases |steps|
  {
    if steps == [] then 0
    else
      var now := if steps[0].PhaseEnd? && Expired(j.signals.timers, lane) then 1 else 0;
      now + Requested(AfterStep(j, steps[0]), steps[1..], lane)
  }

  function Served(j: Junction, steps: seq<Step>, lane: Lane): nat
    decreases |steps|
  {
    if steps == [] then 0
    else
      var now := if steps[0].PhaseEnd? && ServesNow(j, lane) then 1 else 0;
      now + Served(AfterStep(j, steps[0]), steps[1..], lane)
  }

  lemma PhaseEndBalance(j: Junction, lane: Lane)
    requires SignalsOk(j.signals)
    ensures Naming(AfterPhaseEnd(j).signals.jumps, lane) + (if ServesNow(j, lane) then 1 else 0)
      == Naming(j.signals.jumps, lane) + (if Expired(j.signals.timers, lane) then 1 else 0)
  {
    PhaseEndHasEffect(j);
    ExpiredIsRequestedOnce(j.signals.timers, lane);
    NamingConcat(j.signals.jumps, Requests(j.signals.timers), lane);
    if RequestQueue(j.signals) != [] {
      JumpIsDefined(RequestQueue(j.signals)[0]);
    }
  }

  /**
   Every request is served exactly once: in every run, the requests for a lane that were queued at
   the start or are made on the way have been served or are still queued.
   */
  lemma {:induction false} RequestsBalance(j: Junction, steps: seq<Step>, lane: Lane)
    requires SignalsOk(j.signals)
    ensures Naming(Run(j, steps).signals.jumps, lane) + Served(j, steps, lane)
      == Naming(j.signals.jumps, lane) + Requested(j, steps, lane)
    decreases |steps|
  {
    if steps != [] {
      StepKeepsSignals(j, steps[0]);
      if steps[0].PhaseEnd? {
        PhaseEndBalance(j, lane);
      }
      RequestsBalance(AfterStep(j, steps[0]), steps[1..], lane);
    }
  }

  // ---------------------------------------------------------------- the length of the queue

  /** The requests that a run queues, and its phase ends that find none. */
  function NewRequests(j: Junction, steps: seq<Step>): nat
    decreases |steps|
  {
    if steps == [] then 0
    else (if steps[0].PhaseEnd? then |Requests(j.signals.timers)| else 0) + NewRequests(AfterStep(j, steps[0]), steps[1..])
  }

  function NormalEnds(j: Junction, steps: seq<Step>): nat
    decreases |steps|
  {
    if steps == [] then 0
    else (if steps[0].PhaseEnd? && EndsNormally(j.signals) then 1 else 0) + NormalEnds(AfterStep(j, steps[0]), steps[1..])
  }

  lemma LengthAfterPhaseEnd(j: Junction)
    requires SignalsOk(j.signals)
    ensures |AfterPhaseEnd(j).signals.jumps| + 1
      == |j.signals.jumps| + |Requests(j.signals.timers)| + (if EndsNormally(j.signals) then 1 else 0)
    ensures |Requests(j.signals.timers)| <= if EndsNormally(j.signals) then 0 else 2
  {
    PhaseEndHasEffect(j);
    RequestsAreAxes(j.signals.timers);
  }

  /**
   The queue's length in every run: a phase end takes one request, unless there is none, and adds at
   most two; so the queue grows by at most one request a phase end.
   */
  lemma {:induction false} QueueLength(j: Junction, steps: seq<Step>)
    requires SignalsOk(j.signals)
    ensures |Run(j, steps).signals.jumps| + PhaseEnds(steps)
      == |j.signals.jumps| + NewRequests(j, steps) + NormalEnds(j, steps)
    ensures NewRequests(j, steps) <= 2 * (PhaseEnds(steps) - NormalEnds(j, steps))
    decreases |steps|
  {
    if steps != [] {
      StepKeepsSignals(j, steps[0]);
      if steps[0].PhaseEnd? {
        LengthAfterPhaseEnd(j);
      }
      QueueLength(AfterStep(j, steps[0]), steps[1..]);
    }
  }

  /** From the start: a lane that is found expired after `n` phase ends is green within `n + 2` more. */
  lemma ResponseFromStart(j: Junction, before: seq<Step>, steps: seq<Step>, lane: Lane)
    requires IsInitial(j) && Expired(Run(j, before).signals.timers, lane)
    requires steps != [] && steps[0].PhaseEnd? && PhaseEnds(steps) >= PhaseEnds(before) + 2
    ensures exists k ::
      0 < k <= |steps| && PhaseEnds(steps[..k]) <= PhaseEnds(before) + 2 && GreenAfter(Run(j, before), steps, k, lane)
  {
    InitialSignals(j);
    RunKeepsSignals(j, before);
    QueueLength(j, before);
    BoundedResponse(Run(j, before), steps, lane);
  }

  // ---------------------------------------------------------------- one expiry

  /** The phase ends up to and including the first that leaves a phase resetting the lane's timer. */
  function PhaseEndsUntilReset(j: Junction, steps: seq<Step>, lane: Lane): nat
    decreases |steps|
  {
    if steps == [] then 0
    else if steps[0].PhaseEnd? && Resets(j.signals, lane) then 1
    else (if steps[0].PhaseEnd? then 1 else 0) + PhaseEndsUntilReset(AfterStep(j, steps[0]), steps[1..], lane)
  }

  /** The requests for the lane until its timer is found not to be expired. */
  function ExpiryRequests(j: Junction, steps: seq<Step>, lane: Lane): nat
    decreases |steps|
  {
    if steps == [] || !Expired(j.signals.timers, lane) then 0
    else (if steps[0].PhaseEnd? then 1 else 0) + ExpiryRequests(AfterStep(j, steps[0]), steps[1..], lane)
  }

  lemma StepOnLane(j: Junction, step: Step, lane: Lane)
    requires SignalsOk(j.signals) && Expired(j.signals.timers, lane)
    ensures SignalsOk(AfterStep(j, step).signals)
    ensures Expired(AfterStep(j, step).signals.timers, lane) <==> !(step.PhaseEnd? && Resets(j.signals, lane))
    ensures !step.PhaseEnd? ==> AfterStep(j, step).signals.phase == j.signals.phase
    ensures !step.PhaseEnd? ==> AfterStep(j, step).signals.jumps == j.signals.jumps
  {
    StepKeepsSignals(j, step);
    if step.PhaseEnd? {
      ExpiryOutlivesPhaseEnd(j, lane);
    } else {
      StepOnExpiry(j, step, lane);
    }
  }

  /**
   What one expiry causes: a request at every phase end up to and including the first that leaves a
   phase resetting the lane's timer, in every run and with any queue and any other expiries.
   */
  lemma {:induction false} ExpiryIsRequestedUntilReset(j: Junction, steps: seq<Step>, lane: Lane)
    requires SignalsOk(j.signals) && Expired(j.signals.timers, lane)
    ensures ExpiryRequests(j, steps, lane) == PhaseEndsUntilReset(j, steps, lane)
    decreases |steps|
  {
    if steps != [] {
      StepOnLane(j, steps[0], lane);
      if Expired(AfterStep(j, steps[0]).signals.timers, lane) {
        ExpiryIsRequestedUntilReset(AfterStep(j, steps[0]), steps[1..], lane);
      }
    }
  }

  /** The lane's timer does not run out anew in these steps. */
  predicate NoneExpires(steps: seq<Step>, lane: Lane) {
    forall step <- steps :: step.TimerRuns? && step.lane == lane ==> !step.expires
  }

  lemma NotExpiredStays(j: Junction, step: Step, lane: Lane)
    requires SignalsOk(j.signals) && !Expired(j.signals.timers, lane) && NoneExpires([step], lane)
    ensures !Expired(AfterStep(j, step).signals.timers, lane)
  {
    assert step in [step];
    if step.PhaseEnd? {
      ExpiryOutlivesPhaseEnd(j, lane);
    } else {
      StepOnExpiry(j, step, lane);
    }
  }

  lemma {:induction false} OnlyThisExpiry(j: Junction, steps: seq<Step>, lane: Lane)
    requires SignalsOk(j.signals) && NoneExpires(steps, lane)
    ensures Requested(j, steps, lane) == ExpiryRequests(j, steps, lane)
    ensures !Expired(j.signals.timers, lane) ==> !Expired(Run(j, steps).signals.timers, lane)
    decreases |steps|
  {
    if steps != [] {
      StepKeepsSignals(j, steps[0]);
      if !Expired(j.signals.timers, lane) {
        NotExpiredStays(j, steps[0], lane);
      }
      OnlyThisExpiry(AfterStep(j, steps[0]), steps[1..], lane);
    }
  }

  /**
   How often one expiry is served. In every run in which the lane's timer does not run out anew, the
   lane is served as often as it was queued at the start and then once for each phase end until the
   reset, less what is still queued.
   */
  lemma ExpiryServices(j: Junction, steps: seq<Step>, lane: Lane)
    requires SignalsOk(j.signals) && Expired(j.signals.timers, lane) && NoneExpires(steps, lane)
    ensures Naming(Run(j, steps).signals.jumps, lane) + Served(j, steps, lane)
      == Naming(j.signals.jumps, lane) + PhaseEndsUntilReset(j, steps, lane)
  {
    RequestsBalance(j, steps, lane);
    OnlyThisExpiry(j, steps, lane);
    ExpiryIsRequestedUntilReset(j, steps, lane);
  }

  lemma {:induction false} OnePhaseEndUntilReset(j: Junction, steps: seq<Step>, lane: Lane)
    requires SignalsOk(j.signals) && Expired(j.signals.timers, lane) && NoneExpires(steps, lane)
    requires !Expired(Run(j, steps).signals.timers, lane)
    ensures PhaseEndsUntilReset(j, steps, lane) > 0
    ensures PhaseEndsUntilReset(j, steps, lane) == 1 <==> Resets(j.signals, lane)
    decreases |steps|
  {
    StepOnLane(j, steps[0], lane);
    if Expired(AfterStep(j, steps[0]).signals.timers, lane) {
      OnePhaseEndUntilReset(AfterStep(j, steps[0]), steps[1..], lane);
    }
  }

  /**
   One expiry, one green phase? Over the whole life of an expiry, from any state in which the lane is
   not queued to any in which the timer has been reset and the queue no longer names the lane, the
   lane is served exactly once if and only if the phase that was active when the timer expired is one
   that resets it. Otherwise one expiry makes the lane green more than once.
   */
  lemma ExpiryServedOnceIff(j: Junction, steps: seq<Step>, lane: Lane)
    requires SignalsOk(j.signals) && Expired(j.signals.timers, lane) && Naming(j.signals.jumps, lane) == 0
    requires NoneExpires(steps, lane) && !Expired(Run(j, steps).signals.timers, lane)
    requires Naming(Run(j, steps).signals.jumps, lane) == 0
    ensures Served(j, steps, lane) == 1 <==> Resets(j.signals, lane)
    ensures Served(j, steps, lane) >= 1
  {
    ExpiryServices(j, steps, lane);
    OnePhaseEndUntilReset(j, steps, lane);
  }

  // ---------------------------------------------------------------- at most how many requests

  lemma {:induction false} UntilResetInTwo(j: Junction, steps: seq<Step>, k: nat, lane: Lane)
    requires k <= |steps|
    ensures PhaseEndsUntilReset(j, steps, lane)
      <= PhaseEnds(steps[..k]) + PhaseEndsUntilReset(Run(j, steps[..k]), steps[k..], lane)
    decreases k
  {
    if k == 0 {
      assert steps[..0] == [] && steps[0..] == steps;
    } else {
      UntilResetInTwo(AfterStep(j, steps[0]), steps[1..], k - 1, lane);
      assert steps[..k][1..] == steps[1..][..k - 1] && steps[1..][k - 1..] == steps[k..];
    }
  }

  lemma {:induction false} GreenIsReset(j: Junction, steps: seq<Step>, lane: Lane)
    requires SignalsOk(j.signals) && lane in Green(j.signals.phase)
    ensures PhaseEndsUntilReset(j, steps, lane) <= 1
    decreases |steps|
  {
    ResetCoversGreen(j.signals.phase);
    if steps != [] && !steps[0].PhaseEnd? {
      StepKeepsSignals(j, steps[0]);
      GreenIsReset(AfterStep(j, steps[0]), steps[1..], lane);
    }
  }

  lemma {:induction false} UntilResetIsPhaseEnds(j: Junction, steps: seq<Step>, lane: Lane)
    ensures PhaseEndsUntilReset(j, steps, lane) <= PhaseEnds(steps)
    decreases |steps|
  {
    if steps != [] {
      UntilResetIsPhaseEnds(AfterStep(j, steps[0]), steps[1..], lane);
    }
  }

  /**
   One expiry causes at most `q + 3` requests when `q` are queued: the first is served within `q + 2`
   phase ends, and the phase that serves it resets the timer when it is left.
   */
  lemma {:induction false} ExpiryRequestsBounded(j: Junction, steps: seq<Step>, lane: Lane)
    requires SignalsOk(j.signals) && Expired(j.signals.timers, lane)
    ensures ExpiryRequests(j, steps, lane) <= |j.signals.jumps| + 3
    decreases |steps|
  {
    if steps != [] {
      if steps[0].PhaseEnd? {
        ExpiryIsRequestedUntilReset(j, steps, lane);
        FirstRequestBounds(j, steps, lane);
      } else {
        StepOnLane(j, steps[0], lane);
        ExpiryRequestsBounded(AfterStep(j, steps[0]), steps[1..], lane);
      }
    }
  }

  lemma FirstRequestBounds(j: Junction, steps: seq<Step>, lane: Lane)
    requires SignalsOk(j.signals) && Expired(j.signals.timers, lane) && steps != [] && steps[0].PhaseEnd?
    ensures PhaseEndsUntilReset(j, steps, lane) <= |j.signals.jumps| + 3
  {
    if PhaseEnds(steps) < |j.signals.jumps| + 2 {
      UntilResetIsPhaseEnds(j, steps, lane);
    } else {
      BoundedResponse(j, steps, lane);
      var k :| 0 < k <= |steps| && PhaseEnds(steps[..k]) <= |j.signals.jumps| + 2 && GreenAfter(j, steps, k, lane);
      UntilResetInTwo(j, steps, k, lane);
      RunKeepsSignals(j, steps[..k]);
      GreenIsReset(Run(j, steps[..k]), steps[k..], lane);
    }
  }

  // ---------------------------------------------------------------- an expiry that is served twice

  lemma OnlyExpiredIsRequested(timers: map<Lane, TimerState>, lane: Lane)
    requires forall l: Lane :: Expired(timers, l) <==> l == lane
    ensures Requests(timers) == [[LaneToChar(lane)]]
  {
    assert forall c: char :: [c] + "" == [c] && "" + [c] == [c];
    match lane
    case E => assert Expired(timers, E) && !Expired(timers, W) && !Expired(timers, N) && !Expired(timers, S);
    case W => assert Expired(timers, W) && !Expired(timers, E) && !Expired(timers, N) && !Expired(timers, S);
    case N => assert Expired(timers, N) && !Expired(timers, W) && !Expired(timers, E) && !Expired(timers, S);
    case S => assert Expired(timers, S) && !Expired(timers, W) && !Expired(timers, N) && !Expired(timers, E);
  }

  /**
   A single expiry that finds the queue empty, in a phase that does not reset the lane, makes exactly
   that lane green for two phases.
   */
  lemma LoneExpiryIsServedTwice(j: Junction, lane: Lane)
    requires SignalsOk(j.signals) && j.signals.jumps == []
    requires forall l: Lane :: Expired(j.signals.timers, l) <==> l == lane
    requires !Resets(j.signals, lane)
    ensures var once := AfterPhaseEnd(j); var twice := AfterPhaseEnd(once);
      && Green(once.signals.phase) == Green(twice.signals.phase) == {lane}
      && Expired(once.signals.timers, lane) && !Expired(twice.signals.timers, lane)
  {
    var once := AfterPhaseEnd(j);
    PhaseEndHasEffect(j);
    EffectOfOneExpiry(j.signals, once.signals, j.config.redLightDuration, lane);
    EffectKeepsSignals(j.signals, once.signals, j.config.redLightDuration);
    PhaseEndHasEffect(once);
    EffectOfOneExpiry(once.signals, AfterPhaseEnd(once).signals, j.config.redLightDuration, lane);
  }

  /** That happens to a controller just started: the first timer to run out is served twice. */
  lemma FirstExpiryIsServedTwice(j: Junction, lane: Lane, now: int)
    requires IsInitial(j) && lane in j.signals.timers
    ensures var once := Run(j, [TimerRuns(lane, 0, true, now), PhaseEnd]); var twice := AfterPhaseEnd(once);
      && Green(once.signals.phase) == Green(twice.signals.phase) == {lane}
      && Expired(once.signals.timers, lane) && !Expired(twice.signals.timers, lane)
  {
    var expired := AfterStep(j, TimerRuns(lane, 0, true, now));
    FirstExpiry(j, lane, now);
    LoneExpiryIsServedTwice(expired, lane);
    var steps := [TimerRuns(lane, 0, true, now), PhaseEnd];
    assert steps[1..] == [PhaseEnd] && [PhaseEnd][1..] == [];
    assert Run(expired, [PhaseEnd]) == Run(AfterPhaseEnd(expired), []);
  }

  lemma FirstExpiry(j: Junction, lane: Lane, now: int)
    requires IsInitial(j) && lane in j.signals.timers
    ensures var s := AfterStep(j, TimerRuns(lane, 0, true, now)).signals;
      && SignalsOk(s) && s.jumps == [] && !Resets(s, lane)
      && forall l: Lane :: Expired(s.timers, l) <==> l == lane
  {
    InitialSignals(j);
    StepKeepsSignals(j, TimerRuns(lane, 0, true, now));
    LanesOfNames();
  }

  lemma EffectOfOneExpiry(s: Signals, s': Signals, red: uint16, lane: Lane)
    requires SignalsOk(s) && PhaseEndEffect(s, s', red) && s.jumps == []
    requires forall l: Lane :: Expired(s.timers, l) <==> l == lane
    ensures Green(s'.phase) == {lane} && s'.jumps == [] && Resets(s', lane)
    ensures forall l: Lane :: Expired(s'.timers, l) <==> l == lane && !Resets(s, lane)
  {
    OnlyExpiredIsRequested(s.timers, lane);
    var name := [LaneToChar(lane)];
    assert RequestQueue(s) == [name];
    assert Green(s'.phase) == {lane} by {
      SingleLaneJump(lane);
    }
    ResetCoversGreen(s'.phase);
    forall l: Lane
      ensures Expired(s'.timers, l) <==> l == lane && !Resets(s, lane)
    {
      EffectOnExpiry(s, s', red, l);
    }
  }

  lemma SingleLaneJump(lane: Lane)
    ensures var p := JumpTarget([LaneToChar(lane)]); p.Some? && Green(p.value) == {lane}
  {
  }
}
