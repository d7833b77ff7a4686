/**
 The junction controller as an object. Every method is proved against the operation of
 `JunctionModel` that it implements; the lane timers are objects of their own, updated in place.
 */
module TrafficLights {
  import opened Integers
  import opened JunctionModel
  import opened Lanes
  import opened RegistryProofs
  import opened Sequences
  import opened Timers
  import opened Wrappers

  class TrafficLightStateMachine {
    const config: Config
    const laneToTimer: map<Lane, Timer>
    const greenLightTimer: Timer

    var phase: Phase
    var nextNormalState: string
    var announced: string
    var jumpTransitionQueue: seq<string>
    var failed: bool

    var laneToTrafficObserverIp: map<Lane, IpAddress>
    var clientsConnected: map<Lane, set<IpAddress>>
    var waitingEmergencyVehicles: seq<Vehicle>

    var carsWaiting: map<Lane, uint16>
    var carsThatPassedJunction: map<Lane, uint16>
    var averageWaitingCars: uint8
    var numberOfTransitionsTakenIntoAccount: uint16

    ghost function TimersView(): map<Lane, TimerState>
      reads laneToTimer.Values
    {
      map lane | lane in laneToTimer :: laneToTimer[lane].View()
    }

    ghost function SignalsView(): Signals
      reads this, laneToTimer.Values, greenLightTimer
    {
      Signals(phase, nextNormalState, announced, jumpTransitionQueue, TimersView(), greenLightTimer.View(), failed)
    }

    ghost function RegistryView(): Registry
      reads this
    {
      Registry(laneToTrafficObserverIp, clientsConnected, waitingEmergencyVehicles)
    }

    ghost function CountsView(): Counts
      reads this
    {
      Counts(carsWaiting, carsThatPassedJunction, averageWaitingCars, numberOfTransitionsTakenIntoAccount)
    }

    ghost function View(): Junction
      reads this, laneToTimer.Values, greenLightTimer
    {
      Junction(config, SignalsView(), RegistryView(), CountsView())
    }

    /** Every lane has a timer of its own, and a missing lane has none. */
    ghost predicate Valid() {
      && greenLightTimer !in laneToTimer.Values
      && (forall a, b :: a in laneToTimer && b in laneToTimer && a != b ==> laneToTimer[a] != laneToTimer[b])
      && (config.missingLane.Some? ==> config.missingLane.value !in laneToTimer)
    }

    constructor (maxWaitingTime: uint16, usingLeftLane: uint8, missingLane: Option<Lane>, clock: int)
      ensures Valid() && IsInitial(View()) && config == ConfigOf(maxWaitingTime, usingLeftLane, missingLane)
      ensures fresh(laneToTimer.Values) && fresh(greenLightTimer)
    {
      var c := ConfigOf(maxWaitingTime, usingLeftLane, missingLane);
      var green := new Timer.Default(clock);
      green.UnfreezeTimer();
      var timers := CreateTimers(c, clock);
      config, laneToTimer, greenLightTimer := c, timers, green;
      phase, nextNormalState, announced := Stopped, "EW", "";
      jumpTransitionQueue, failed := [], false;
      laneToTrafficObserverIp, clientsConnected, waitingEmergencyVehicles := map[], map[], [];
      carsWaiting, carsThatPassedJunction := map[], map[];
      averageWaitingCars, numberOfTransitionsTakenIntoAccount := 0, 1;
    }

    static method CreateTimers(c: Config, clock: int) returns (timers: map<Lane, Timer>)
      ensures fresh(timers.Values)
      ensures forall lane: Lane :: lane in timers <==> c.missingLane != Some(lane)
      ensures forall lane <- timers :: timers[lane].View() == TimerState(c.redLightDuration, false, false, clock)
      ensures forall a, b :: a in timers && b in timers && a != b ==> timers[a] != timers[b]
    {
      timers := map[];
      for laneNr := 0 to |LANES|
        invariant forall lane: Lane :: lane in timers <==> lane in LANES[..laneNr] && c.missingLane != Some(lane)
        invariant forall lane <- timers :: fresh(timers[lane])
        invariant forall lane <- timers :: timers[lane].View() == TimerState(c.redLightDuration, false, false, clock)
        invariant forall a, b :: a in timers && b in timers && a != b ==> timers[a] != timers[b]
      {
        var lane := LANES[laneNr];
        if c.missingLane != Some(lane) {
          var timer := new Timer(c.redLightDuration, clock);
          timer.UnfreezeTimer();
          timers := timers[lane := timer];
        }
      }
      AllLanes();
    }

    // -------------------------------------------------------------- lane timers

    method FreezeLane(lane: Lane)
      requires Valid()
      modifies laneToTimer.Values
      ensures TimersView() == FrozenIn(old(TimersView()), {lane}, {})
    {
      if lane in laneToTimer {
        laneToTimer[lane].FreezeTimer();
      }
    }

    method UnfreezeLane(lane: Lane)
      requires Valid()
      modifies laneToTimer.Values
      ensures TimersView() == FrozenIn(old(TimersView()), {}, {lane})
    {
      if lane in laneToTimer {
        laneToTimer[lane].UnfreezeTimer();
      }
    }

    method ResetLane(lane: Lane)
      requires Valid()
      modifies laneToTimer.Values
      ensures TimersView() == Reset(old(TimersView()), [LaneToChar(lane)], config.redLightDuration)
    {
      if lane in laneToTimer {
        laneToTimer[lane].ResetTimer(config.redLightDuration);
      }
    }

    method FreezeTimers(lanes: string)
      requires Valid()
      modifies laneToTimer.Values
      ensures TimersView() == Frozen(old(TimersView()), lanes)
    {
      ghost var timers := TimersView();
      var lanesLeftForUnfreeze := {E, N, S, W};
      for i := 0 to |lanes|
        invariant TimersView() == FrozenIn(timers, LanesOf(lanes[..i]), {})
        invariant lanesLeftForUnfreeze == {E, N, S, W} - LanesOf(lanes[..i])
      {
        LanesOfOneMore(lanes, i);
        var lane := CharToLane(lanes[i]);
        if lane.Some? {
          FreezeOneMore(timers, LanesOf(lanes[..i]), lane.value);
          lanesLeftForUnfreeze := lanesLeftForUnfreeze - {lane.value};
          FreezeLane(lane.value);
        }
      }
      assert lanes[..|lanes|] == lanes;
      FrozenInAll(timers, lanes);
      UnfreezeLanes(lanesLeftForUnfreeze, timers, LanesOf(lanes));
    }

    method UnfreezeLanes(lanes: set<Lane>, ghost timers: map<Lane, TimerState>, ghost frozen: set<Lane>)
      requires Valid() && lanes !! frozen && TimersView() == FrozenIn(timers, frozen, {})
      modifies laneToTimer.Values
      ensures TimersView() == FrozenIn(timers, frozen, lanes)
    {
      var left := lanes;
      while left != {}
        invariant left <= lanes
        invariant TimersView() == FrozenIn(timers, frozen, lanes - left)
      {
        var lane :| lane in left;
        UnfreezeOneMore(timers, frozen, lanes - left, lane);
        assert lanes - (left - {lane}) == lanes - left + {lane};
        left := left - {lane};
        if config.missingLane != Some(lane) {
          UnfreezeLane(lane);
        }
      }
      assert lanes - left == lanes;
    }

    method ResetTimers(lanes: string)
      requires Valid()
      modifies laneToTimer.Values
      ensures TimersView() == Reset(old(TimersView()), lanes, config.redLightDuration)
    {
      ghost var timers := TimersView();
      for i := 0 to |lanes|
        invariant TimersView() == Reset(timers, lanes[..i], config.redLightDuration)
      {
        ResetOneMore(timers, lanes, i, config.redLightDuration);
        var lane := CharToLane(lanes[i]);
        if lane.Some? {
          ResetLane(lane.value);
        }
      }
      assert lanes[..|lanes|] == lanes;
    }

    // -------------------------------------------------------------- phases

    method UpdateCarCount(lanes: set<Lane>)
      modifies this`carsWaiting, this`averageWaitingCars, this`numberOfTransitionsTakenIntoAccount
      ensures CountsView() == AfterCount(old(CountsView()), lanes)
    {
      ghost var c := CountsView();
      var numberOfCarsThatDidntPass := CountLanes(lanes);
      averageWaitingCars :=
        NextAverage(averageWaitingCars, numberOfTransitionsTakenIntoAccount, numberOfCarsThatDidntPass);
      numberOfTransitionsTakenIntoAccount := (numberOfTransitionsTakenIntoAccount + 1) % UINT16_LIMIT;
    }

    /** The loop over the lanes; the sum of what is left is kept in eight bits. */
    method CountLanes(lanes: set<Lane>) returns (numberOfCarsThatDidntPass: uint8)
      modifies this`carsWaiting
      ensures carsWaiting == AfterCount(old(CountsView()), lanes).waiting
      ensures numberOfCarsThatDidntPass == Sample(old(CountsView()), lanes)
    {
      ghost var c := CountsView();
      numberOfCarsThatDidntPass := 0;
      for laneNr := 0 to |LANES|
        invariant carsWaiting == WaitingUpTo(c, lanes, laneNr)
        invariant numberOfCarsThatDidntPass == SumUpTo(c, lanes, laneNr) % UINT8_LIMIT
      {
        var lane := LANES[laneNr];
        WaitingOneMore(c, lanes, laneNr);
        SumOneMore(c, lanes, laneNr);
        if lane in lanes {
          var left := (CountOf(carsWaiting, lane) - CountOf(carsThatPassedJunction, lane)) % UINT16_LIMIT;
          carsWaiting := carsWaiting[lane := left];
          numberOfCarsThatDidntPass := (numberOfCarsThatDidntPass + left) % UINT8_LIMIT;
        }
      }
      WaitingIsCounted(c, lanes);
      SampleIsSum(c, lanes);
    }

    /** The exit action of the phase that is active; which phase that is does not change yet. */
    method ExitPhase()
      requires Valid()
      modifies this`carsWaiting, this`averageWaitingCars, this`numberOfTransitionsTakenIntoAccount
      modifies this`nextNormalState, laneToTimer.Values
      ensures View() == AfterExit(old(View()))
    {
      if !phase.Stopped? {
        nextNormalState := LeavePhase();
      }
    }

    /** Counts and resets; returns the next normal state, which the original assigns last. */
    method LeavePhase() returns (next: string)
      requires Valid()
      modifies this`carsWaiting, this`averageWaitingCars, this`numberOfTransitionsTakenIntoAccount, laneToTimer.Values
      ensures CountsView() == AfterCount(old(CountsView()), CountedLanes(phase))
      ensures TimersView() == Reset(old(TimersView()), ResetName(phase), config.redLightDuration)
      ensures next == NextNormal(phase, nextNormalState)
    {
      UpdateCarCount(CountedLanes(phase));
      ResetTimers(ResetName(phase));
      next := NextNormal(phase, nextNormalState);
    }

    method ProcessNormalTransition()
      requires Valid()
      modifies this`carsWaiting, this`averageWaitingCars, this`numberOfTransitionsTakenIntoAccount
      modifies this`nextNormalState, this`phase, laneToTimer.Values
      ensures var left := AfterExit(old(View()));
        View() == left.(signals := left.signals.(phase := NormalTarget(old(phase))))
    {
      ExitPhase();
      phase := NormalTarget(phase);
    }

    /** Reacts to a jump; `thrown` reports the "undefined transition" exception. */
    method ProcessJumpTransition(name: string) returns (thrown: bool)
      requires Valid()
      modifies this`carsWaiting, this`averageWaitingCars, this`numberOfTransitionsTakenIntoAccount
      modifies this`nextNormalState, this`phase, laneToTimer.Values
      ensures thrown <==> JumpTarget(name).None?
      ensures thrown ==> View() == old(View())
      ensures !thrown ==> var left := AfterExit(old(View()));
        View() == left.(signals := left.signals.(phase := JumpTarget(name).value))
    {
      match JumpTarget(name)
      case None => thrown := true;
      case Some(target) =>
        thrown := false;
        ExitPhase();
        phase := target;
    }

    // -------------------------------------------------------------- jump requests

    method QueueNextStatesWaiting()
      requires Valid()
      modifies this`jumpTransitionQueue
      ensures View() == old(View()).(signals := old(SignalsView()).(
        jumps := old(jumpTransitionQueue) + Requests(old(TimersView()))))
    {
      var first, second := ExpiredLanes();
      Regroup(jumpTransitionQueue, Request(first), Request(second));
      Enqueue(first);
      Enqueue(second);
    }

    method Enqueue(name: string)
      modifies this`jumpTransitionQueue
      ensures View() == old(View()).(signals := old(SignalsView()).(
        jumps := old(jumpTransitionQueue) + Request(name)))
    {
      if name != "" {
        jumpTransitionQueue := jumpTransitionQueue + [name];
      }
    }

    /** The names of the two axes' expired lanes, the axis with the later expiry first. */
    method ExpiredLanes() returns (first: string, second: string)
      requires Valid()
      ensures Requests(TimersView()) == Request(first) + Request(second)
    {
      var stateTimer, expireTime := ScanTimers();
      RequestsFromAxes(TimersView());
      if stateTimer[0] != "" && stateTimer[1] != "" && expireTime[0] < expireTime[1] {
        return stateTimer[1], stateTimer[0];
      }
      return stateTimer[0], stateTimer[1];
    }

    method ScanTimers() returns (stateTimer: array<string>, expireTime: array<int>)
      requires Valid()
      ensures fresh(stateTimer) && fresh(expireTime) && stateTimer.Length == expireTime.Length == 2
      ensures var timers := TimersView();
        && stateTimer[0] == AxisName(timers, N, S) && expireTime[0] == AxisTime(timers, N, S)
        && stateTimer[1] == AxisName(timers, E, W) && expireTime[1] == AxisTime(timers, E, W)
    {
      ghost var timers := TimersView();
      stateTimer := new string[2](_ => "");
      expireTime := new int[2](_ => MAX_TIME);
      for laneNr := 0 to |LANES|
        invariant TimersView() == timers
        invariant stateTimer[0] == NameUpTo(timers, 0, laneNr) && stateTimer[1] == NameUpTo(timers, 1, laneNr)
        invariant expireTime[0] == TimeUpTo(timers, 0, laneNr) && expireTime[1] == TimeUpTo(timers, 1, laneNr)
      {
        AxisStep(timers, 0, laneNr);
        AxisStep(timers, 1, laneNr);
        ScanLane(LANES[laneNr], stateTimer, expireTime);
      }
      AxesComplete(timers);
    }

    /** Adds a lane whose timer has expired to what is collected for its axis. */
    method ScanLane(lane: Lane, stateTimer: array<string>, expireTime: array<int>)
      requires Valid() && stateTimer.Length == expireTime.Length == 2
      modifies stateTimer, expireTime
      ensures TimersView() == old(TimersView())
      ensures var own := AxisOf(lane); forall axis | 0 <= axis < 2 :: axis != own ==>
        stateTimer[axis] == old(stateTimer[axis]) && expireTime[axis] == old(expireTime[axis])
      ensures var axis, asks := AxisOf(lane), Expired(TimersView(), lane);
        && stateTimer[axis] == old(stateTimer[axis]) + (if asks then [LaneToChar(lane)] else "")
        && expireTime[axis]
           == if asks then Earlier(old(expireTime[axis]), TimersView()[lane].expiredAt) else old(expireTime[axis])
    {
      if lane in laneToTimer && laneToTimer[lane].expired {
        var axis := AxisOf(lane);
        stateTimer[axis] := stateTimer[axis] + [LaneToChar(lane)];
        expireTime[axis] := Earlier(expireTime[axis], laneToTimer[lane].expirationTime);
      }
    }

    method UpdateTrafficState()
      requires Valid()
      modifies this`carsWaiting, this`averageWaitingCars, this`numberOfTransitionsTakenIntoAccount
      modifies this`nextNormalState, this`phase, this`jumpTransitionQueue, this`announced, this`failed
      modifies laneToTimer.Values
      ensures View() == AfterTrafficUpdate(old(View()))
    {
      QueueNextStatesWaiting();
      if jumpTransitionQueue != [] {
        var name := PopTransition();
        Jump(name);
      } else {
        Advance();
      }
    }

    method PopTransition() returns (name: string)
      requires jumpTransitionQueue != []
      modifies this`jumpTransitionQueue
      ensures name == old(jumpTransitionQueue)[0]
      ensures View() == old(View()).(signals := old(SignalsView()).(jumps := old(jumpTransitionQueue)[1..]))
    {
      name := jumpTransitionQueue[0];
      jumpTransitionQueue := jumpTransitionQueue[1..];
    }

    method Jump(name: string)
      requires Valid()
      modifies this`carsWaiting, this`averageWaitingCars, this`numberOfTransitionsTakenIntoAccount
      modifies this`nextNormalState, this`phase, this`announced, this`failed, laneToTimer.Values
      ensures View() == AfterJump(old(View()), name)
    {
      FreezeTimers(name);
      var thrown := ProcessJumpTransition(name);
      if thrown {
        failed := true;
      } else {
        UpdateWindowWithNewTrafficState(name);
      }
    }

    method UpdateWindowWithNewTrafficState(name: string)
      modifies this`announced
      ensures View() == old(View()).(signals := old(SignalsView()).(announced := name))
    {
      announced := name;
    }

    method Advance()
      requires Valid()
      modifies this`carsWaiting, this`averageWaitingCars, this`numberOfTransitionsTakenIntoAccount
      modifies this`nextNormalState, this`phase, this`announced, laneToTimer.Values
      ensures View() == AfterNormal(old(View()))
    {
      ProcessNormalTransition();
      FreezeTimers(nextNormalState);
      UpdateWindowWithNewTrafficState(nextNormalState);
    }

    /** The green light's timer has expired: the phase ends. */
    method GreenLightExpireCallback()
      requires Valid()
      modifies this`carsWaiting, this`averageWaitingCars, this`numberOfTransitionsTakenIntoAccount
      modifies this`nextNormalState, this`phase, this`jumpTransitionQueue, this`announced, this`failed
      modifies laneToTimer.Values, greenLightTimer
      ensures View() == AfterPhaseEnd(old(View()))
    {
      if failed {
        return;
      }
      UpdateTrafficState();
      if !failed {
        greenLightTimer.ResetTimer(config.greenLightDuration);
      }
    }

    // -------------------------------------------------------------- clients

    predicate IsVehicleTracker(lane: Lane, ip: IpAddress)
      reads this
      ensures IsVehicleTracker(lane, ip) == IsTracker(RegistryView(), lane, ip)
    {
      lane in laneToTrafficObserverIp && laneToTrafficObserverIp[lane] == ip
    }

    /** The first lane on which the client is connected. */
    method FindClient(ip: IpAddress) returns (found: Option<Lane>)
      ensures found == FirstLane(RegistryView(), ip, 0)
    {
      for laneNr := 0 to |LANES|
        invariant FirstLane(RegistryView(), ip, 0) == FirstLane(RegistryView(), ip, laneNr)
      {
        var lane := LANES[laneNr];
        if lane in clientsConnected && ip in clientsConnected[lane] {
          return Some(lane);
        }
      }
      found := None;
    }

    /** Whether the client may register; a client that may, and is no tracker, is connected at once. */
    method IsClientValid(lane: Lane, ip: IpAddress) returns (valid: bool)
      modifies this`clientsConnected
      ensures valid == MayRegister(old(RegistryView()), lane, ip)
      ensures valid ==> View() == old(View()).(registry := Entered(old(RegistryView()), lane, ip))
      ensures !valid ==> View() == old(View())
    {
      if !IsVehicleTracker(lane, ip) {
        var connected := FindClient(ip);
        if connected.Some? {
          return false;
        }
        var clients := if lane in clientsConnected then clientsConnected[lane] else {};
        clientsConnected := clientsConnected[lane := clients + {ip}];
      }
      valid := true;
    }

    method DecreaseTimer(lane: Lane, ip: IpAddress, numberOfRegistrations: nat, other: uint16)
      requires Valid()
      modifies laneToTimer.Values
      ensures TimersView() == Shortened(old(TimersView()), RegistryView(), lane, ip, numberOfRegistrations, other)
    {
      if lane in laneToTimer {
        var timeLeft := laneToTimer[lane].timeLeft;
        var decrease := other;
        if IsVehicleTracker(lane, ip) && CeilPercent(timeLeft, numberOfRegistrations) < UINT16_LIMIT {
          decrease := CeilPercent(timeLeft, numberOfRegistrations);
        }
        laneToTimer[lane].DecreaseTimer(decrease);
      }
    }

    method RegisterClient(lane: Lane, ip: IpAddress, leftLane: uint8, numberOfRegistrations: nat, other: uint16)
      returns (ok: bool)
      requires Valid()
      modifies this`clientsConnected, this`carsWaiting, laneToTimer.Values
      ensures ok == MayRegister(old(RegistryView()), lane, ip)
      ensures View() == AfterRegister(old(View()), lane, ip, leftLane, numberOfRegistrations, other)
    {
      var valid := IsClientValid(lane, ip);
      if !valid {
        return false;
      }
      Admit(lane, ip, leftLane, numberOfRegistrations, other);
      ok := true;
      RegisterInTwo(old(View()), lane, ip, leftLane, numberOfRegistrations, other);
    }

    /** What a registration that is accepted does to the lane's timer and to the count of cars. */
    method Admit(lane: Lane, ip: IpAddress, leftLane: uint8, numberOfRegistrations: nat, other: uint16)
      requires Valid()
      modifies this`carsWaiting, laneToTimer.Values
      ensures View() == Admitted(old(View()), lane, ip, leftLane, numberOfRegistrations, other)
    {
      if leftLane == config.usingLeftLane {
        DecreaseTimer(lane, ip, numberOfRegistrations, other);
      }
      if !IsVehicleTracker(lane, ip) {
        CountCar(lane);
      }
    }

    method CountCar(lane: Lane)
      modifies this`carsWaiting
      ensures View() == old(View()).(counts := old(CountsView()).(waiting := Increment(old(carsWaiting), lane)))
    {
      carsWaiting := Increment(carsWaiting, lane);
    }

    method UnregisterClient(ip: IpAddress) returns (ok: bool)
      modifies this`clientsConnected, this`carsThatPassedJunction
      ensures ok == MayUnregister(old(RegistryView()), ip)
      ensures View() == AfterUnregister(old(View()), ip)
    {
      var correspondingLane := FindClient(ip);
      if correspondingLane.None? {
        return false;
      }
      FirstLaneIsLane(RegistryView(), ip);
      var lane := correspondingLane.value;
      if !IsVehicleTracker(lane, ip) {
        CountPassedCar(lane);
      }
      clientsConnected := clientsConnected[lane := clientsConnected[lane] - {ip}];
      ok := true;
    }

    method CountPassedCar(lane: Lane)
      modifies this`carsThatPassedJunction
      ensures View() == old(View()).(counts := old(CountsView()).(passed := Increment(old(carsThatPassedJunction), lane)))
    {
      carsThatPassedJunction := Increment(carsThatPassedJunction, lane);
    }

    method StartEmergencyState(lane: Lane, ip: IpAddress, other: uint16) returns (ok: bool)
      requires Valid()
      modifies this`clientsConnected, this`carsWaiting, this`waitingEmergencyVehicles, laneToTimer.Values
      ensures ok == MayRegister(old(RegistryView()), lane, ip)
      ensures View() == AfterStartEmergency(old(View()), lane, ip, other)
    {
      ok := RegisterClient(lane, ip, config.usingLeftLane, 1, other);
      if !ok {
        return;
      }
      waitingEmergencyVehicles := waitingEmergencyVehicles + [Vehicle(lane, ip)];
    }

    predicate IsInEmergencyState()
      reads this
    {
      waitingEmergencyVehicles != []
    }

    method EndEmergencyState(ip: IpAddress) returns (ended: bool)
      modifies this`clientsConnected, this`carsThatPassedJunction, this`waitingEmergencyVehicles
      ensures ended == EndsEmergency(old(View()), ip)
      ensures View() == AfterEndEmergency(old(View()), ip)
    {
      var ok := UnregisterClient(ip);
      if !ok {
        return false;
      }
      ended := RotateEmergencies();
    }

    /** Drops departed vehicles and moves the first that is still connected to the back, if there is one. */
    method RotateEmergencies() returns (ended: bool)
      modifies this`waitingEmergencyVehicles
      ensures waitingEmergencyVehicles == Rotated(old(RegistryView()), old(waitingEmergencyVehicles))
      ensures ended <==> waitingEmergencyVehicles == []
    {
      ghost var r := RegistryView();
      while waitingEmergencyVehicles != []
        invariant Rotated(r, waitingEmergencyVehicles) == Rotated(r, old(waitingEmergencyVehicles))
        decreases |waitingEmergencyVehicles|
      {
        ghost var q := waitingEmergencyVehicles;
        var last := waitingEmergencyVehicles[0];
        waitingEmergencyVehicles := waitingEmergencyVehicles[1..];
        if last.lane in clientsConnected && last.ip in clientsConnected[last.lane] {
          waitingEmergencyVehicles := waitingEmergencyVehicles + [last];
          assert Connected(r, q[0]) && waitingEmergencyVehicles == Rotated(r, q);
          return false;
        }
      }
      ended := true;
    }

    method RegisterVehicleTrackerIpAddress(lane: Lane, ip: IpAddress) returns (ok: bool)
      modifies this`laneToTrafficObserverIp
      ensures ok == MayTrack(old(RegistryView()), lane, ip)
      ensures View() == AfterRegisterTracker(old(View()), lane, ip)
    {
      if lane in laneToTrafficObserverIp && laneToTrafficObserverIp[lane] != ip {
        return false;
      } else if lane in laneToTrafficObserverIp && laneToTrafficObserverIp[lane] == ip {
        assert laneToTrafficObserverIp[lane := ip] == laneToTrafficObserverIp;
        return true;
      }
      laneToTrafficObserverIp := laneToTrafficObserverIp[lane := ip];
      ok := true;
    }
  }

  // ---------------------------------------------------------------- vocabulary of the loops

  /** The timers when those of some lanes have been frozen and those of others unfrozen. */
  ghost function FrozenIn(timers: map<Lane, TimerState>, frozen: set<Lane>, unfrozen: set<Lane>): map<Lane, TimerState> {
    map lane | lane in timers ::
      if lane in frozen then timers[lane].(frozen := true)
      else if lane in unfrozen then timers[lane].(frozen := false)
      else timers[lane]
  }

  lemma FreezeOneMore(timers: map<Lane, TimerState>, frozen: set<Lane>, lane: Lane)
    ensures FrozenIn(FrozenIn(timers, frozen, {}), {lane}, {}) == FrozenIn(timers, frozen + {lane}, {})
  {
  }

  lemma UnfreezeOneMore(timers: map<Lane, TimerState>, frozen: set<Lane>, unfrozen: set<Lane>, lane: Lane)
    requires lane !in frozen
    ensures FrozenIn(FrozenIn(timers, frozen, unfrozen), {}, {lane}) == FrozenIn(timers, frozen, unfrozen + {lane})
  {
  }

  lemma FrozenInAll(timers: map<Lane, TimerState>, name: string)
    ensures FrozenIn(timers, LanesOf(name), {E, N, S, W} - LanesOf(name)) == Frozen(timers, name)
  {
  }

  lemma ResetOneMore(timers: map<Lane, TimerState>, name: string, i: nat, red: uint16)
    requires i < |name|
    ensures var lane := CharToLane(name[i]);
      Reset(timers, name[..i + 1], red)
      == if lane.Some? then Reset(Reset(timers, name[..i], red), [LaneToChar(lane.value)], red)
         else Reset(timers, name[..i], red)
  {
    LanesOfOneMore(name, i);
    assert CharToLane(name[i]).Some? ==>
      LanesOf([LaneToChar(CharToLane(name[i]).value)]) == {CharToLane(name[i]).value};
  }

  lemma LanesOfOneMore(name: string, i: nat)
    requires i < |name|
    ensures var lane := CharToLane(name[i]);
      LanesOf(name[..i + 1]) == LanesOf(name[..i]) + if lane.Some? then {lane.value} else {}
  {
    assert name[..i + 1] == name[..i] + [name[i]];
  }

  lemma AllLanes()
    ensures LANES[..|LANES|] == LANES && forall lane: Lane :: lane in LANES
  {
    assert LANES[0] == E && LANES[1] == W && LANES[2] == N && LANES[3] == S;
    forall lane: Lane ensures lane in LANES {
      match lane case E => case W => case N => case S =>
    }
  }

  /** The waiting counters, and the cars still there, when the first `n` lanes have been dealt with. */
  ghost function WaitingUpTo(c: Counts, lanes: set<Lane>, n: nat): map<Lane, uint16>
    requires n <= |LANES|
  {
    if n == 0 then c.waiting
    else
      var before, lane := WaitingUpTo(c, lanes, n - 1), LANES[n - 1];
      if lane in lanes then before[lane := Remaining(c, lane)] else before
  }

  ghost function SumUpTo(c: Counts, lanes: set<Lane>, n: nat): nat
    requires n <= |LANES|
  {
    if n == 0 then 0
    else SumUpTo(c, lanes, n - 1) + if LANES[n - 1] in lanes then Remaining(c, LANES[n - 1]) else 0
  }

  lemma LanesDiffer(i: nat, k: nat)
    requires i < |LANES| && k < |LANES| && i != k
    ensures LANES[i] != LANES[k]
  {
    assert LANES[0] == E && LANES[1] == W && LANES[2] == N && LANES[3] == S;
  }

  /** Lane `i`'s counter when the first `n` lanes have been dealt with. */
  lemma {:induction false} WaitingOf(c: Counts, lanes: set<Lane>, n: nat, i: nat)
    requires n <= |LANES| && i < |LANES|
    ensures var lane, waiting := LANES[i], WaitingUpTo(c, lanes, n); var counted := i < n && lane in lanes;
      && (lane in waiting <==> lane in c.waiting || counted)
      && (lane in waiting ==> waiting[lane] == if counted then Remaining(c, lane) else c.waiting[lane])
  {
    if n > 0 {
      WaitingOf(c, lanes, n - 1, i);
      if i != n - 1 {
        LanesDiffer(i, n - 1);
      }
    }
  }

  lemma WaitingOneMore(c: Counts, lanes: set<Lane>, n: nat)
    requires n < |LANES|
    ensures var lane := LANES[n]; var waiting := WaitingUpTo(c, lanes, n);
      var left := (CountOf(waiting, lane) - CountOf(c.passed, lane)) % UINT16_LIMIT;
      left == Remaining(c, lane) && WaitingUpTo(c, lanes, n + 1) == if lane in lanes then waiting[lane := left] else waiting
  {
    WaitingOf(c, lanes, n, n);
  }

  lemma SumOneMore(c: Counts, lanes: set<Lane>, n: nat)
    requires n < |LANES|
    ensures SumUpTo(c, lanes, n + 1) % UINT8_LIMIT
      == if LANES[n] in lanes then (SumUpTo(c, lanes, n) % UINT8_LIMIT + Remaining(c, LANES[n])) % UINT8_LIMIT
         else SumUpTo(c, lanes, n) % UINT8_LIMIT
  {
    WrapOnce(SumUpTo(c, lanes, n), Remaining(c, LANES[n]));
  }

  lemma WaitingIsCounted(c: Counts, lanes: set<Lane>)
    ensures WaitingUpTo(c, lanes, |LANES|) == AfterCount(c, lanes).waiting
  {
    AllLanes();
    forall lane: Lane
      ensures var all := WaitingUpTo(c, lanes, |LANES|);
        && (lane in all <==> lane in c.waiting || lane in lanes)
        && (lane in all ==> all[lane] == if lane in lanes then Remaining(c, lane) else c.waiting[lane])
    {
      assert lane in LANES;
      var i :| 0 <= i < |LANES| && LANES[i] == lane;
      WaitingOf(c, lanes, |LANES|, i);
    }
  }

  lemma SampleIsSum(c: Counts, lanes: set<Lane>)
    ensures Sample(c, lanes) == SumUpTo(c, lanes, |LANES|) % UINT8_LIMIT
  {
    assert LANES[0] == E && LANES[1] == W && LANES[2] == N && LANES[3] == S;
    assert SumUpTo(c, lanes, 1) == if E in lanes then Remaining(c, E) else 0;
    assert SumUpTo(c, lanes, 2) == SumUpTo(c, lanes, 1) + if W in lanes then Remaining(c, W) else 0;
    assert SumUpTo(c, lanes, 3) == SumUpTo(c, lanes, 2) + if N in lanes then Remaining(c, N) else 0;
  }

  lemma WrapOnce(a: nat, b: nat)
    ensures (a % UINT8_LIMIT + b) % UINT8_LIMIT == (a + b) % UINT8_LIMIT
  {
    var q, r := a / UINT8_LIMIT, (a % UINT8_LIMIT + b) % UINT8_LIMIT;
    var k := (a % UINT8_LIMIT + b) / UINT8_LIMIT;
    assert a + b == (q + k) * UINT8_LIMIT + r;
    RemainderIs(a + b, q + k, r);
  }

  lemma RemainderIs(x: nat, q: nat, r: uint8)
    requires x == q * UINT8_LIMIT + r
    ensures x % UINT8_LIMIT == r
  {
  }

  /** The request that a name gives rise to; an empty name gives none. */
  ghost function Request(name: string): seq<string> {
    if name == "" then [] else [name]
  }

  /** The position of a lane's axis: E and W on 1, N and S on 0. */
  function AxisOf(lane: Lane): (axis: nat)
    ensures axis < 2
  {
    if lane == E || lane == W then 1 else 0
  }

  ghost function NameUpTo(timers: map<Lane, TimerState>, axis: nat, n: nat): string
    requires n <= |LANES|
  {
    if n == 0 then ""
    else
      var before, lane := NameUpTo(timers, axis, n - 1), LANES[n - 1];
      if AxisOf(lane) == axis && Expired(timers, lane) then before + [LaneToChar(lane)] else before
  }

  ghost function TimeUpTo(timers: map<Lane, TimerState>, axis: nat, n: nat): int
    requires n <= |LANES|
  {
    if n == 0 then MAX_TIME
    else if AxisOf(LANES[n - 1]) == axis && Expired(timers, LANES[n - 1])
      then Earlier(TimeUpTo(timers, axis, n - 1), timers[LANES[n - 1]].expiredAt)
    else TimeUpTo(timers, axis, n - 1)
  }

  lemma AxisStep(timers: map<Lane, TimerState>, axis: nat, n: nat)
    requires n < |LANES|
    ensures var lane := LANES[n]; var asks := AxisOf(lane) == axis && Expired(timers, lane);
      && NameUpTo(timers, axis, n + 1) == (NameUpTo(timers, axis, n) + if asks then [LaneToChar(lane)] else "")
      && TimeUpTo(timers, axis, n + 1)
         == (if asks then Earlier(TimeUpTo(timers, axis, n), timers[lane].expiredAt) else TimeUpTo(timers, axis, n))
  {
  }

  lemma RequestsFromAxes(timers: map<Lane, TimerState>)
    ensures var ns, ew := AxisName(timers, N, S), AxisName(timers, E, W);
      Requests(timers)
      == if ns != "" && ew != "" && AxisTime(timers, N, S) < AxisTime(timers, E, W) then Request(ew) + Request(ns)
         else Request(ns) + Request(ew)
  {
  }

  lemma AxesComplete(timers: map<Lane, TimerState>)
    ensures NameUpTo(timers, 0, |LANES|) == AxisName(timers, N, S) && NameUpTo(timers, 1, |LANES|) == AxisName(timers, E, W)
    ensures TimeUpTo(timers, 0, |LANES|) == AxisTime(timers, N, S) && TimeUpTo(timers, 1, |LANES|) == AxisTime(timers, E, W)
  {
    assert LANES[0] == E && LANES[1] == W && LANES[2] == N && LANES[3] == S;
    assert NameUpTo(timers, 0, 2) == NameUpTo(timers, 0, 1) == NameUpTo(timers, 0, 0);
    assert NameUpTo(timers, 0, 3) == if Expired(timers, N) then "N" else "";
    assert NameUpTo(timers, 1, 1) == if Expired(timers, E) then "E" else "";
    assert NameUpTo(timers, 1, 4) == NameUpTo(timers, 1, 3) == NameUpTo(timers, 1, 2);
    assert TimeUpTo(timers, 1, 1) == if Expired(timers, E) then Earlier(MAX_TIME, timers[E].expiredAt) else MAX_TIME;
    assert TimeUpTo(timers, 0, 2) == TimeUpTo(timers, 0, 1) == TimeUpTo(timers, 0, 0);
    assert TimeUpTo(timers, 0, 3) == if Expired(timers, N) then Earlier(MAX_TIME, timers[N].expiredAt) else MAX_TIME;
    assert TimeUpTo(timers, 1, 4) == TimeUpTo(timers, 1, 3) == TimeUpTo(timers, 1, 2);
  }

  /** A registration in two parts: the client enters its lane, and the lane's timer and count change. */
  function Entered(r: Registry, lane: Lane, ip: IpAddress): Registry {
    if IsTracker(r, lane, ip) then r else Joined(r, lane, ip)
  }

  function Admitted(j: Junction, lane: Lane, ip: IpAddress, leftLane: uint8, n: nat, other: uint16): Junction {
    var r := j.registry;
    j.(signals := if leftLane != j.config.usingLeftLane then j.signals
                  else j.signals.(timers := Shortened(j.signals.timers, r, lane, ip, n, other)),
       counts := if IsTracker(r, lane, ip) then j.counts
                 else j.counts.(waiting := Increment(j.counts.waiting, lane)))
  }

  lemma RegisterInTwo(j: Junction, lane: Lane, ip: IpAddress, leftLane: uint8, n: nat, other: uint16)
    requires MayRegister(j.registry, lane, ip)
    ensures var entered := j.(registry := Entered(j.registry, lane, ip));
      AfterRegister(j, lane, ip, leftLane, n, other) == Admitted(entered, lane, ip, leftLane, n, other)
  {
    ShortenedByTrackers(j.signals.timers, j.registry, Entered(j.registry, lane, ip), lane, ip, n, other);
  }

  /** How much a registration takes off a timer depends on the trackers only. */
  lemma ShortenedByTrackers(
    timers: map<Lane, TimerState>, r: Registry, r': Registry, lane: Lane, ip: IpAddress, n: nat, other: uint16)
    requires r.trackers == r'.trackers
    ensures Shortened(timers, r, lane, ip, n, other) == Shortened(timers, r', lane, ip, n, other)
  {
  }
}
