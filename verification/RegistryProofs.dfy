/** Proofs about who is registered, which emergency vehicles wait, and how the cars are counted. */
module RegistryProofs {
  import opened Integers
  import opened JunctionModel
  import opened Lanes

  // ---------------------------------------------------------------- one lane per client

  ghost predicate Disjoint(r: Registry) {
    forall a: Lane, b: Lane, ip | ip in ClientsOn(r, a) && ip in ClientsOn(r, b) :: a == b
  }

  lemma {:induction false} FirstLaneFinds(r: Registry, ip: IpAddress, from: nat)
    requires from <= |LANES|
    ensures var f := FirstLane(r, ip, from);
      && (f.Some? ==> ip in ClientsOn(r, f.value))
      && (f.None? ==> forall i :: from <= i < |LANES| ==> ip !in ClientsOn(r, LANES[i]))
    decreases |LANES| - from
  {
    if from < |LANES| {
      FirstLaneFinds(r, ip, from + 1);
    }
  }

  /** A client is found exactly when some lane has it, and then on a lane that has it. */
  lemma FirstLaneIsLane(r: Registry, ip: IpAddress)
    ensures FirstLane(r, ip, 0).Some? <==> exists lane: Lane :: ip in ClientsOn(r, lane)
    ensures FirstLane(r, ip, 0).Some? ==> ip in ClientsOn(r, FirstLane(r, ip, 0).value)
  {
    FirstLaneFinds(r, ip, 0);
    assert LANES[0] == E && LANES[1] == W && LANES[2] == N && LANES[3] == S;
    forall lane: Lane | ip in ClientsOn(r, lane) ensures FirstLane(r, ip, 0).Some? {
      match lane case E => case W => case N => case S =>
    }
  }

  lemma JoiningKeepsDisjoint(r: Registry, lane: Lane, ip: IpAddress)
    requires Disjoint(r) && FirstLane(r, ip, 0).None?
    ensures Disjoint(Joined(r, lane, ip))
  {
    FirstLaneIsLane(r, ip);
    assert forall l: Lane :: ClientsOn(Joined(r, lane, ip), l) == ClientsOn(r, l) + if l == lane then {ip} else {};
  }

  lemma DepartureKeepsDisjoint(r: Registry, lane: Lane, ip: IpAddress)
    requires Disjoint(r) && ip in ClientsOn(r, lane)
    ensures Disjoint(Departed(r, lane, ip))
    ensures forall l: Lane :: ip !in ClientsOn(Departed(r, lane, ip), l)
  {
    assert forall l: Lane :: ClientsOn(Departed(r, lane, ip), l) == ClientsOn(r, l) - if l == lane then {ip} else {};
  }

  lemma SameClientsSameDisjoint(r: Registry, r': Registry)
    requires Disjoint(r) && r'.clients == r.clients
    ensures Disjoint(r')
  {
    assert forall lane: Lane :: ClientsOn(r', lane) == ClientsOn(r, lane);
  }

  lemma RegisterKeepsDisjoint(j: Junction, lane: Lane, ip: IpAddress, leftLane: uint8, n: nat, other: uint16)
    requires Disjoint(j.registry)
    ensures Disjoint(AfterRegister(j, lane, ip, leftLane, n, other).registry)
  {
    if FirstLane(j.registry, ip, 0).None? {
      JoiningKeepsDisjoint(j.registry, lane, ip);
    }
  }

  lemma UnregisterKeepsDisjoint(j: Junction, ip: IpAddress)
    requires Disjoint(j.registry)
    ensures Disjoint(AfterUnregister(j, ip).registry)
  {
    FirstLaneIsLane(j.registry, ip);
    if FirstLane(j.registry, ip, 0).Some? {
      DepartureKeepsDisjoint(j.registry, FirstLane(j.registry, ip, 0).value, ip);
    }
  }

  lemma StepKeepsDisjoint(j: Junction, step: Step)
    requires Disjoint(j.registry)
    ensures Disjoint(AfterStep(j, step).registry)
  {
    var r' := AfterStep(j, step).registry;
    match step
    case RegisterClient(lane, ip, leftLane, n, other) => RegisterKeepsDisjoint(j, lane, ip, leftLane, n, other);
    case StartEmergency(lane, ip, other) =>
      RegisterKeepsDisjoint(j, lane, ip, j.config.usingLeftLane, 1, other);
      SameClientsSameDisjoint(AfterRegister(j, lane, ip, j.config.usingLeftLane, 1, other).registry, r');
    case UnregisterClient(ip) => UnregisterKeepsDisjoint(j, ip);
    case EndEmergency(ip) =>
      UnregisterKeepsDisjoint(j, ip);
      SameClientsSameDisjoint(AfterUnregister(j, ip).registry, r');
    case _ => SameClientsSameDisjoint(j.registry, r');
  }

  lemma {:induction false} RunKeepsDisjoint(j: Junction, steps: seq<Step>)
    requires Disjoint(j.registry)
    ensures Disjoint(Run(j, steps).registry)
    decreases |steps|
  {
    if steps != [] {
      StepKeepsDisjoint(j, steps[0]);
      RunKeepsDisjoint(AfterStep(j, steps[0]), steps[1..]);
    }
  }

  /**
   In every run no client is connected on two lanes. So although `unregisterClient` erases it from
   one lane only, a successful call leaves it on none, and it may then register on any lane.
   */
  lemma UnregisterLeavesNoTrace(j: Junction, steps: seq<Step>, ip: IpAddress, lane: Lane)
    requires IsInitial(j) && MayUnregister(Run(j, steps).registry, ip)
    ensures Disjoint(Run(j, steps).registry)
    ensures var r := AfterUnregister(Run(j, steps), ip).registry;
      !Connected(r, Vehicle(lane, ip)) && MayRegister(r, lane, ip)
  {
    RunKeepsDisjoint(j, steps);
    var before := Run(j, steps).registry;
    FirstLaneIsLane(before, ip);
    var found := FirstLane(before, ip, 0).value;
    DepartureKeepsDisjoint(before, found, ip);
    FirstLaneIsLane(Departed(before, found, ip), ip);
  }

  // ---------------------------------------------------------------- the emergency queue

  /** The queued vehicles that are still connected, in queue order. */
  function StillConnected(r: Registry, q: seq<Vehicle>): seq<Vehicle> {
    if q == [] then []
    else (if Connected(r, q[0]) then [q[0]] else []) + StillConnected(r, q[1..])
  }

  lemma {:induction false} StillConnectedConcat(r: Registry, a: seq<Vehicle>, b: seq<Vehicle>)
    ensures StillConnected(r, a + b) == StillConnected(r, a) + StillConnected(r, b)
  {
    if a == [] {
      assert a + b == b;
    } else {
      assert (a + b)[1..] == a[1..] + b;
      StillConnectedConcat(r, a[1..], b);
    }
  }

  /**
   The rotation: with nobody left connected the queue empties; otherwise a prefix of departed
   vehicles is dropped, the first connected vehicle moves to the back and nothing else moves.
   */
  lemma {:induction false} RotatedMovesFirst(r: Registry, q: seq<Vehicle>) returns (k: nat)
    ensures var live := StillConnected(r, q); var q' := Rotated(r, q);
      if live == [] then k == |q| && q' == []
      else k < |q| && Connected(r, q[k]) && q' == q[k + 1..] + [q[k]]
           && StillConnected(r, q') == live[1..] + [live[0]]
    ensures forall i :: 0 <= i < k ==> !Connected(r, q[i])
  {
    k := 0;
    if q != [] {
      if Connected(r, q[0]) {
        FirstMovesLast(r, q);
      } else {
        k := RotatedMovesFirst(r, q[1..]);
        k := k + 1;
        assert StillConnected(r, q) == StillConnected(r, q[1..]);
      }
    }
  }

  lemma FirstMovesLast(r: Registry, q: seq<Vehicle>)
    requires q != [] && Connected(r, q[0])
    ensures StillConnected(r, q)[0] == q[0]
    ensures StillConnected(r, q[1..] + [q[0]]) == StillConnected(r, q)[1..] + [q[0]]
  {
    StillConnectedConcat(r, q[1..], [q[0]]);
    assert [q[0]][1..] == [];
    assert ([q[0]] + StillConnected(r, q[1..]))[1..] == StillConnected(r, q[1..]);
  }

  /**
   When the caller itself was connected, `endEmergencyState` returns true if and only if no queued
   vehicle is still connected; if one is, the connected vehicles are rotated by one and only departed
   vehicles are dropped.
   */
  lemma EndEmergencyRotates(j: Junction, ip: IpAddress)
    requires MayUnregister(j.registry, ip)
    ensures var after := AfterEndEmergency(j, ip).registry;
      var live := StillConnected(after, j.registry.emergencies);
      && (EndsEmergency(j, ip) <==> live == [])
      && (live != [] ==> StillConnected(after, after.emergencies) == live[1..] + [live[0]])
      && (forall v :: v in j.registry.emergencies && Connected(after, v) ==> v in after.emergencies)
  {
    var left := AfterUnregister(j, ip).registry;
    var after := AfterEndEmergency(j, ip).registry;
    SameConnections(left, after, left.emergencies);
    SameConnections(left, after, after.emergencies);
    var k := RotatedMovesFirst(left, left.emergencies);
    forall v | v in j.registry.emergencies && Connected(after, v) ensures v in after.emergencies {
      var i :| 0 <= i < |left.emergencies| && left.emergencies[i] == v;
      NothingLiveDropped(left, left.emergencies, i);
    }
  }

  lemma {:induction false} SameConnections(r: Registry, r': Registry, q: seq<Vehicle>)
    requires r.clients == r'.clients
    ensures StillConnected(r, q) == StillConnected(r', q)
  {
    if q != [] {
      SameConnections(r, r', q[1..]);
    }
  }

  lemma {:induction false} NothingLiveDropped(r: Registry, q: seq<Vehicle>, i: nat)
    requires i < |q| && Connected(r, q[i])
    ensures q[i] in Rotated(r, q)
  {
    if Connected(r, q[0]) {
      if i > 0 {
        assert q[1..][i - 1] == q[i];
      }
    } else {
      NothingLiveDropped(r, q[1..], i - 1);
    }
  }

  /** The vehicle that a step admits to the emergency queue as a client of its lane. */
  function Admits(j: Junction, step: Step): set<Vehicle> {
    match step
    case StartEmergency(lane, ip, _) =>
      if MayRegister(j.registry, lane, ip) && !IsTracker(j.registry, lane, ip) then {Vehicle(lane, ip)} else {}
    case _ => {}
  }

  /** The vehicles admitted in a run, or before it, that have stayed connected ever since. */
  function Waiting(j: Junction, admitted: set<Vehicle>, steps: seq<Step>): set<Vehicle>
    decreases |steps|
  {
    if steps == [] then admitted
    else
      var next := AfterStep(j, steps[0]);
      var stayed := set v | v in admitted + Admits(j, steps[0]) && Connected(next.registry, v);
      Waiting(next, stayed, steps[1..])
  }

  lemma StepLosesNoEmergency(j: Junction, v: Vehicle, step: Step)
    requires v in j.registry.emergencies || v in Admits(j, step)
    requires Connected(AfterStep(j, step).registry, v)
    ensures v in AfterStep(j, step).registry.emergencies
  {
    match step
    case EndEmergency(ip) =>
      if MayUnregister(j.registry, ip) {
        EndEmergencyRotates(j, ip);
      }
    case _ =>
  }

  /** No call sequence loses an emergency vehicle that is waiting. */
  lemma {:induction false} NoEmergencyLost(j: Junction, admitted: set<Vehicle>, steps: seq<Step>, v: Vehicle)
    requires forall w <- admitted :: w in j.registry.emergencies
    requires v in Waiting(j, admitted, steps)
    ensures v in Run(j, steps).registry.emergencies
    decreases |steps|
  {
    if steps != [] {
      var next := AfterStep(j, steps[0]);
      var stayed := set w | w in admitted + Admits(j, steps[0]) && Connected(next.registry, w);
      forall w <- stayed ensures w in next.registry.emergencies {
        StepLosesNoEmergency(j, w, steps[0]);
      }
      NoEmergencyLost(next, stayed, steps[1..], v);
    }
  }

  // ---------------------------------------------------------------- conservation of cars

  /** The connected clients of a lane other than the lane's own tracker. */
  function Cars(r: Registry, lane: Lane): set<IpAddress> {
    if lane in r.trackers then ClientsOn(r, lane) - {r.trackers[lane]} else ClientsOn(r, lane)
  }

  lemma OneMore(clients: set<IpAddress>, ip: IpAddress, apart: set<IpAddress>)
    requires ip !in clients && ip !in apart
    ensures |clients + {ip} - apart| == |clients - apart| + 1
  {
    assert clients + {ip} - apart == (clients - apart) + {ip};
  }

  lemma CarsAfterJoining(r: Registry, lane: Lane, ip: IpAddress, l: Lane)
    requires ip !in ClientsOn(r, lane) && !IsTracker(r, lane, ip)
    ensures |Cars(Joined(r, lane, ip), l)| == |Cars(r, l)| + (if l == lane then 1 else 0)
  {
    if l == lane {
      var clients := ClientsOn(r, lane);
      if lane in r.trackers {
        OneMore(clients, ip, {r.trackers[lane]});
      } else {
        assert |clients + {ip}| == |clients| + 1;
      }
    }
  }

  lemma CarsAfterDeparture(r: Registry, lane: Lane, ip: IpAddress, l: Lane)
    requires ip in ClientsOn(r, lane)
    ensures |Cars(Departed(r, lane, ip), l)| == |Cars(r, l)| - (if l == lane && !IsTracker(r, lane, ip) then 1 else 0)
  {
    if l == lane {
      if IsTracker(r, lane, ip) {
        assert Cars(Departed(r, lane, ip), l) == Cars(r, l);
      } else {
        assert Cars(Departed(r, lane, ip), l) == Cars(r, l) - {ip};
      }
    }
  }

  lemma CarsAfterTracking(r: Registry, lane: Lane, ip: IpAddress)
    requires lane !in r.trackers
    ensures |Cars(r.(trackers := r.trackers[lane := ip]), lane)|
      == |Cars(r, lane)| - (if ip in ClientsOn(r, lane) then 1 else 0)
  {
    assert Cars(r.(trackers := r.trackers[lane := ip]), lane) == ClientsOn(r, lane) - {ip};
  }

  /** Cars that came, less cars that left, less cars that are there. */
  function BalanceOf(c: Counts, r: Registry, lane: Lane): int {
    CountOf(c.waiting, lane) - CountOf(c.passed, lane) - |Cars(r, lane)|
  }

  function Balance(j: Junction, lane: Lane): int {
    BalanceOf(j.counts, j.registry, lane)
  }

  /** The step makes a client that is connected on the lane the lane's tracker. */
  predicate Converts(j: Junction, step: Step, lane: Lane) {
    step.RegisterTracker? && step.lane == lane && lane !in j.registry.trackers && step.ip in ClientsOn(j.registry, lane)
  }

  function Conversions(j: Junction, steps: seq<Step>, lane: Lane): nat
    decreases |steps|
  {
    if steps == [] then 0
    else (if Converts(j, steps[0], lane) then 1 else 0) + Conversions(AfterStep(j, steps[0]), steps[1..], lane)
  }

  /** Equal up to the wrap-around of 16-bit counters. */
  ghost predicate Congruent(a: int, b: int) {
    exists k: int :: a == b + k * UINT16_LIMIT
  }

  lemma OneIsNotCongruent(a: int, b: int, c: nat, k: int)
    requires a == b + c + k * UINT16_LIMIT && c <= 1
    ensures Congruent(a, b) <==> c == 0
  {
  }

  lemma IncrementCounts(m: map<Lane, uint16>, lane: Lane, l: Lane) returns (k: int)
    ensures CountOf(Increment(m, lane), l) == CountOf(m, l) + (if l == lane then 1 else 0) + k * UINT16_LIMIT
  {
    k := if l == lane && CountOf(m, lane) == UINT16_LIMIT - 1 then -1 else 0;
  }

  lemma JoiningKeepsBalance(c: Counts, r: Registry, lane: Lane, ip: IpAddress, l: Lane) returns (k: int)
    requires ip !in ClientsOn(r, lane) && !IsTracker(r, lane, ip)
    ensures BalanceOf(c.(waiting := Increment(c.waiting, lane)), Joined(r, lane, ip), l)
      == BalanceOf(c, r, l) + k * UINT16_LIMIT
  {
    k := IncrementCounts(c.waiting, lane, l);
    CarsAfterJoining(r, lane, ip, l);
  }

  lemma DepartureKeepsBalance(c: Counts, r: Registry, lane: Lane, ip: IpAddress, l: Lane) returns (k: int)
    requires ip in ClientsOn(r, lane)
    ensures var c' := if IsTracker(r, lane, ip) then c else c.(passed := Increment(c.passed, lane));
      BalanceOf(c', Departed(r, lane, ip), l) == BalanceOf(c, r, l) + k * UINT16_LIMIT
  {
    CarsAfterDeparture(r, lane, ip, l);
    k := 0;
    if !IsTracker(r, lane, ip) {
      k := IncrementCounts(c.passed, lane, l);
      k := -k;
    }
  }

  /** Only these parts of the state matter to the balance. */
  lemma SameBalance(j: Junction, j': Junction, lane: Lane)
    requires j'.counts.waiting == j.counts.waiting && j'.counts.passed == j.counts.passed
    requires j'.registry.clients == j.registry.clients && j'.registry.trackers == j.registry.trackers
    ensures Balance(j', lane) == Balance(j, lane)
  {
  }

  lemma RegisterKeepsBalance(j: Junction, lane: Lane, ip: IpAddress, leftLane: uint8, n: nat, other: uint16, l: Lane)
    returns (k: int)
    ensures Balance(AfterRegister(j, lane, ip, leftLane, n, other), l) == Balance(j, l) + k * UINT16_LIMIT
  {
    k := 0;
    if MayRegister(j.registry, lane, ip) && !IsTracker(j.registry, lane, ip) {
      FirstLaneIsLane(j.registry, ip);
      k := JoiningKeepsBalance(j.counts, j.registry, lane, ip, l);
    } else {
      SameBalance(j, AfterRegister(j, lane, ip, leftLane, n, other), l);
    }
  }

  lemma UnregisterKeepsBalance(j: Junction, ip: IpAddress, l: Lane) returns (k: int)
    ensures Balance(AfterUnregister(j, ip), l) == Balance(j, l) + k * UINT16_LIMIT
  {
    k := 0;
    FirstLaneIsLane(j.registry, ip);
    if FirstLane(j.registry, ip, 0).Some? {
      k := DepartureKeepsBalance(j.counts, j.registry, FirstLane(j.registry, ip, 0).value, ip, l);
    }
  }

  lemma StartEmergencyKeepsBalance(j: Junction, lane: Lane, ip: IpAddress, other: uint16, l: Lane) returns (k: int)
    ensures Balance(AfterStartEmergency(j, lane, ip, other), l) == Balance(j, l) + k * UINT16_LIMIT
  {
    var registered := AfterRegister(j, lane, ip, j.config.usingLeftLane, 1, other);
    k := RegisterKeepsBalance(j, lane, ip, j.config.usingLeftLane, 1, other, l);
    SameBalance(registered, AfterStartEmergency(j, lane, ip, other), l);
  }

  lemma EndEmergencyKeepsBalance(j: Junction, ip: IpAddress, l: Lane) returns (k: int)
    ensures Balance(AfterEndEmergency(j, ip), l) == Balance(j, l) + k * UINT16_LIMIT
  {
    k := UnregisterKeepsBalance(j, ip, l);
    SameBalance(AfterUnregister(j, ip), AfterEndEmergency(j, ip), l);
  }

  lemma TrackingBalance(j: Junction, lane: Lane, ip: IpAddress, l: Lane)
    ensures Balance(AfterRegisterTracker(j, lane, ip), l)
      == Balance(j, l) + (if Converts(j, RegisterTracker(lane, ip), l) then 1 else 0)
  {
    if lane !in j.registry.trackers {
      CarsAfterTracking(j.registry, lane, ip);
    }
  }

  lemma StepKeepsBalance(j: Junction, step: Step, lane: Lane) returns (k: int)
    requires !step.PhaseEnd?
    ensures Balance(AfterStep(j, step), lane)
      == Balance(j, lane) + (if Converts(j, step, lane) then 1 else 0) + k * UINT16_LIMIT
  {
    match step
    case RegisterClient(l, ip, leftLane, n, other) => k := RegisterKeepsBalance(j, l, ip, leftLane, n, other, lane);
    case StartEmergency(l, ip, other) => k := StartEmergencyKeepsBalance(j, l, ip, other, lane);
    case UnregisterClient(ip) => k := UnregisterKeepsBalance(j, ip, lane);
    case EndEmergency(ip) => k := EndEmergencyKeepsBalance(j, ip, lane);
    case RegisterTracker(l, ip) => TrackingBalance(j, l, ip, lane); k := 0;
    case TimerRuns(_, _, _, _) => SameBalance(j, AfterStep(j, step), lane); k := 0;
  }

  /** A lane that has a tracker keeps it, so that no other client can become one. */
  lemma TrackedOnce(j: Junction, step: Step, lane: Lane)
    ensures lane in j.registry.trackers ==> lane in AfterStep(j, step).registry.trackers && !Converts(j, step, lane)
    ensures Converts(j, step, lane) ==> lane in AfterStep(j, step).registry.trackers
  {
  }

  lemma {:induction false} RunKeepsBalance(j: Junction, steps: seq<Step>, lane: Lane) returns (k: int)
    requires PhaseEnd !in steps
    ensures Balance(Run(j, steps), lane) == Balance(j, lane) + Conversions(j, steps, lane) + k * UINT16_LIMIT
    ensures Conversions(j, steps, lane) <= (if lane in j.registry.trackers then 0 else 1)
    decreases |steps|
  {
    k := 0;
    if steps != [] {
      var next := AfterStep(j, steps[0]);
      var first := StepKeepsBalance(j, steps[0], lane);
      var rest := RunKeepsBalance(next, steps[1..], lane);
      k := first + rest;
      TrackedOnce(j, steps[0], lane);
    }
  }

  /**
   Conservation. Over any run without a phase end, for every lane, cars registered less cars that
   passed less cars connected is the same before and after, up to counter wrap-around, if and only
   if the run does not turn a connected client of the lane into the lane's tracker, which happens at
   most once.
   */
  lemma CarsAreConserved(j: Junction, steps: seq<Step>, lane: Lane)
    requires PhaseEnd !in steps
    ensures Congruent(Balance(Run(j, steps), lane), Balance(j, lane)) <==> Conversions(j, steps, lane) == 0
    ensures Conversions(j, steps, lane) <= 1
  {
    var k := RunKeepsBalance(j, steps, lane);
    OneIsNotCongruent(Balance(Run(j, steps), lane), Balance(j, lane), Conversions(j, steps, lane), k);
  }

  /**
   The failing run: a client that registers on a lane without a tracker and then becomes its tracker
   leaves a car in the balance for good, since its own departure is not counted any more.
   */
  lemma ConversionBreaksBalance(j: Junction, lane: Lane, ip: IpAddress, leftLane: uint8, n: nat, other: uint16)
    requires IsInitial(j)
    ensures var after := Run(j, [RegisterClient(lane, ip, leftLane, n, other), RegisterTracker(lane, ip)]);
      !Congruent(Balance(after, lane), Balance(j, lane))
  {
    var steps := [RegisterClient(lane, ip, leftLane, n, other), RegisterTracker(lane, ip)];
    var registered := AfterStep(j, steps[0]);
    FirstLaneIsLane(j.registry, ip);
    assert steps[1..] == [steps[1]] && Converts(registered, steps[1], lane);
    assert Conversions(registered, steps[1..], lane) >= 1;
    CarsAreConserved(j, steps, lane);
  }
}
