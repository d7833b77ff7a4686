/**
 The junction controller on values: its state, its atomic operations and its runs.

 The traffic lights' statechart, the queue of jump requests and the lanes' timers form the signals;
 trackers, connected clients and waiting emergency vehicles form the registry; the car counters and
 the running average form the counts.
 */
module JunctionModel {
  import opened Integers
  import opened Lanes
  import opened Timers
  import opened Wrappers

  type IpAddress = string

  datatype Vehicle = Vehicle(lane: Lane, ip: IpAddress)

  datatype Config = Config(
    usingLeftLane: uint8,
    missingLane: Option<Lane>,
    redLightDuration: uint16,
    greenLightDuration: uint16)

  /** `announced` is the name last given to the lane timers and to the display. */
  datatype Signals = Signals(
    phase: Phase,
    nextNormalState: string,
    announced: string,
    jumps: seq<string>,
    timers: map<Lane, TimerState>,
    greenTimer: TimerState,
    failed: bool)

  datatype Registry = Registry(
    trackers: map<Lane, IpAddress>,
    clients: map<Lane, set<IpAddress>>,
    emergencies: seq<Vehicle>)

  datatype Counts = Counts(
    waiting: map<Lane, uint16>,
    passed: map<Lane, uint16>,
    average: uint8,
    transitions: uint16)

  datatype Junction = Junction(config: Config, signals: Signals, registry: Registry, counts: Counts)

  // ---------------------------------------------------------------- signals

  function ConfigOf(maxWaitingTime: uint16, usingLeftLane: uint8, missingLane: Option<Lane>): Config {
    var green := maxWaitingTime / 5;
    Config(usingLeftLane, missingLane, (green * 3) % UINT16_LIMIT, green)
  }

  /** A counter of a lane that was never counted reads as zero. */
  function CountOf(m: map<Lane, uint16>, lane: Lane): uint16 {
    if lane in m then m[lane] else 0
  }

  /** Freeze the named lanes' timers and unfreeze all the others'. */
  function Frozen(timers: map<Lane, TimerState>, name: string): map<Lane, TimerState> {
    map lane | lane in timers :: timers[lane].(frozen := lane in LanesOf(name))
  }

  function Reset(timers: map<Lane, TimerState>, name: string, red: uint16): map<Lane, TimerState> {
    map lane | lane in timers :: if lane in LanesOf(name) then AfterReset(timers[lane], red) else timers[lane]
  }

  predicate Expired(timers: map<Lane, TimerState>, lane: Lane) {
    lane in timers && timers[lane].expired
  }

  /** The name that asks for those of two lanes, in this order, whose timers have expired. */
  function AxisName(timers: map<Lane, TimerState>, first: Lane, second: Lane): string {
    (if Expired(timers, first) then [LaneToChar(first)] else "")
    + (if Expired(timers, second) then [LaneToChar(second)] else "")
  }

  const MAX_TIME := 0x7fff_ffff_ffff_ffff

  function Earlier(a: int, b: int): int {
    if b < a then b else a
  }

  /** When the earlier of an axis's expired timers expired. */
  function AxisTime(timers: map<Lane, TimerState>, first: Lane, second: Lane): int {
    var t := if Expired(timers, first) then Earlier(MAX_TIME, timers[first].expiredAt) else MAX_TIME;
    if Expired(timers, second) then Earlier(t, timers[second].expiredAt) else t
  }

  /** The jump requests that one phase end queues: at most one per axis, none that is empty. */
  function Requests(timers: map<Lane, TimerState>): seq<string> {
    var ns, ew := AxisName(timers, N, S), AxisName(timers, E, W);
    var swap := ns != "" && ew != "" && AxisTime(timers, N, S) < AxisTime(timers, E, W);
    var first, second := if swap then ew else ns, if swap then ns else ew;
    (if first == "" then [] else [first]) + (if second == "" then [] else [second])
  }

  /** `updateCarCount` on leaving a phase: fold the lanes' remaining cars into the running average. */
  function Remaining(c: Counts, lane: Lane): uint16 {
    (CountOf(c.waiting, lane) - CountOf(c.passed, lane)) % UINT16_LIMIT
  }

  function Sample(c: Counts, lanes: set<Lane>): uint8 {
    ((if E in lanes then Remaining(c, E) else 0) + (if W in lanes then Remaining(c, W) else 0)
     + (if N in lanes then Remaining(c, N) else 0) + (if S in lanes then Remaining(c, S) else 0)) % UINT8_LIMIT
  }

  function NextAverage(average: uint8, transitions: uint16, sample: uint8): uint8 {
    ((average * transitions + sample) / (transitions + 1)) % UINT8_LIMIT
  }

  function AfterCount(c: Counts, lanes: set<Lane>): Counts {
    Counts(
      c.waiting + (map lane | lane in lanes :: Remaining(c, lane)),
      c.passed,
      NextAverage(c.average, c.transitions, Sample(c, lanes)),
      (c.transitions + 1) % UINT16_LIMIT)
  }

  /** A phase's exit action; `Stopped` has none. */
  function AfterExit(j: Junction): Junction {
    var p := j.signals.phase;
    if p.Stopped? then j
    else j.(
      counts := AfterCount(j.counts, CountedLanes(p)),
      signals := j.signals.(
        timers := Reset(j.signals.timers, ResetName(p), j.config.redLightDuration),
        nextNormalState := NextNormal(p, j.signals.nextNormalState)))
  }

  /** A jump leaves the whole composite state, so the old phase's exit action runs here too. */
  function AfterJump(j: Junction, name: string): Junction {
    var frozen := j.(signals := j.signals.(timers := Frozen(j.signals.timers, name)));
    match JumpTarget(name)
    case None => frozen.(signals := frozen.signals.(failed := true))
    case Some(p) =>
      var left := AfterExit(frozen);
      left.(signals := left.signals.(phase := p, announced := name))
  }

  function AfterNormal(j: Junction): Junction {
    var left := AfterExit(j);
    var name := left.signals.nextNormalState;
    left.(signals := left.signals.(
      phase := NormalTarget(j.signals.phase),
      timers := Frozen(left.signals.timers, name),
      announced := name))
  }

  /** `updateTrafficState`: queue the expired lanes, then serve the oldest request, if there is one. */
  function AfterTrafficUpdate(j: Junction): Junction {
    var queue := j.signals.jumps + Requests(j.signals.timers);
    if queue == [] then AfterNormal(j)
    else AfterJump(j.(signals := j.signals.(jumps := queue[1..])), queue[0])
  }

  /** `greenLightExpireCallback`; an exception escapes before the green timer is restarted. */
  function AfterPhaseEnd(j: Junction): Junction {
    if j.signals.failed then j
    else
      var u := AfterTrafficUpdate(j);
      if u.signals.failed then u
      else u.(signals := u.signals.(greenTimer := AfterReset(u.signals.greenTimer, j.config.greenLightDuration)))
  }

  // ---------------------------------------------------------------- registry

  predicate IsTracker(r: Registry, lane: Lane, ip: IpAddress) {
    lane in r.trackers && r.trackers[lane] == ip
  }

  function ClientsOn(r: Registry, lane: Lane): set<IpAddress> {
    if lane in r.clients then r.clients[lane] else {}
  }

  predicate Connected(r: Registry, v: Vehicle) {
    v.ip in ClientsOn(r, v.lane)
  }

  /** The first lane, in enumerator order from position `from`, on which the client is connected. */
  function FirstLane(r: Registry, ip: IpAddress, from: nat): Option<Lane>
    requires from <= |LANES|
    decreases |LANES| - from
  {
    if from == |LANES| then None
    else if ip in ClientsOn(r, LANES[from]) then Some(LANES[from])
    else FirstLane(r, ip, from + 1)
  }

  function CeilPercent(timeLeft: uint16, n: nat): nat {
    (timeLeft * n + 99) / 100
  }

  /**
   How much a registration takes off a lane's timer. For the lane's own tracker it is `n` percent of
   the time left, rounded up; `other` stands for what the branch for vehicles, or a conversion of
   more than 16 bits, yields.
   */
  function TimeDecrease(r: Registry, lane: Lane, ip: IpAddress, timeLeft: uint16, n: nat, other: uint16): uint16 {
    if IsTracker(r, lane, ip) && CeilPercent(timeLeft, n) < UINT16_LIMIT then CeilPercent(timeLeft, n) else other
  }

  /** The timers when a registration has shortened its lane's. */
  function Shortened(
    timers: map<Lane, TimerState>, r: Registry, lane: Lane, ip: IpAddress, n: nat, other: uint16
  ): map<Lane, TimerState> {
    if lane !in timers then timers
    else
      timers[lane := AfterDecrease(timers[lane], TimeDecrease(r, lane, ip, timers[lane].timeLeft, n, other))]
  }

  predicate MayRegister(r: Registry, lane: Lane, ip: IpAddress) {
    IsTracker(r, lane, ip) || FirstLane(r, ip, 0).None?
  }

  function Increment(m: map<Lane, uint16>, lane: Lane): map<Lane, uint16> {
    m[lane := (CountOf(m, lane) + 1) % UINT16_LIMIT]
  }

  function Joined(r: Registry, lane: Lane, ip: IpAddress): Registry {
    r.(clients := r.clients[lane := ClientsOn(r, lane) + {ip}])
  }

  function Departed(r: Registry, lane: Lane, ip: IpAddress): Registry {
    r.(clients := r.clients[lane := ClientsOn(r, lane) - {ip}])
  }

  function AfterRegister(j: Junction, lane: Lane, ip: IpAddress, leftLane: uint8, n: nat, other: uint16): Junction {
    var r := j.registry;
    if !MayRegister(r, lane, ip) then j
    else
      j.(registry := if IsTracker(r, lane, ip) then r else Joined(r, lane, ip),
         signals := if leftLane != j.config.usingLeftLane then j.signals
                    else j.signals.(timers := Shortened(j.signals.timers, r, lane, ip, n, other)),
         counts := if IsTracker(r, lane, ip) then j.counts
                   else j.counts.(waiting := Increment(j.counts.waiting, lane)))
  }

  predicate MayUnregister(r: Registry, ip: IpAddress) {
    FirstLane(r, ip, 0).Some?
  }

  function AfterUnregister(j: Junction, ip: IpAddress): Junction {
    var r := j.registry;
    match FirstLane(r, ip, 0)
    case None => j
    case Some(lane) =>
      j.(registry := Departed(r, lane, ip),
         counts := if IsTracker(r, lane, ip) then j.counts
                   else j.counts.(passed := Increment(j.counts.passed, lane)))
  }

  function AfterStartEmergency(j: Junction, lane: Lane, ip: IpAddress, other: uint16): Junction {
    var registered := AfterRegister(j, lane, ip, j.config.usingLeftLane, 1, other);
    if !MayRegister(j.registry, lane, ip) then registered
    else registered.(registry := registered.registry.(
      emergencies := registered.registry.emergencies + [Vehicle(lane, ip)]))
  }

  /** The pops of `endEmergencyState`: departed vehicles are dropped, the first connected one goes last. */
  function Rotated(r: Registry, q: seq<Vehicle>): seq<Vehicle> {
    if q == [] then []
    else if Connected(r, q[0]) then q[1..] + [q[0]]
    else Rotated(r, q[1..])
  }

  function AfterEndEmergency(j: Junction, ip: IpAddress): Junction {
    var left := AfterUnregister(j, ip);
    if !MayUnregister(j.registry, ip) then left
    else left.(registry := left.registry.(emergencies := Rotated(left.registry, left.registry.emergencies)))
  }

  /** What `endEmergencyState` returns. */
  predicate EndsEmergency(j: Junction, ip: IpAddress) {
    MayUnregister(j.registry, ip) && AfterEndEmergency(j, ip).registry.emergencies == []
  }

  predicate MayTrack(r: Registry, lane: Lane, ip: IpAddress) {
    lane in r.trackers ==> r.trackers[lane] == ip
  }

  function AfterRegisterTracker(j: Junction, lane: Lane, ip: IpAddress): Junction {
    if !MayTrack(j.registry, lane, ip) then j
    else j.(registry := j.registry.(trackers := j.registry.trackers[lane := ip]))
  }

  // ---------------------------------------------------------------- runs

  datatype Step =
    | PhaseEnd
    | RegisterClient(lane: Lane, ip: IpAddress, leftLane: uint8, registrations: nat, other: uint16)
    | UnregisterClient(ip: IpAddress)
    | StartEmergency(lane: Lane, ip: IpAddress, other: uint16)
    | EndEmergency(ip: IpAddress)
    | RegisterTracker(lane: Lane, ip: IpAddress)
    | TimerRuns(lane: Lane, timeLeft: uint16, expires: bool, now: int)

  function AfterTimerRuns(j: Junction, lane: Lane, timeLeft: uint16, expires: bool, now: int): Junction {
    var timers := j.signals.timers;
    if lane !in timers then j
    else j.(signals := j.signals.(timers := timers[lane := AfterRunning(timers[lane], timeLeft, expires, now)]))
  }

  function AfterStep(j: Junction, step: Step): Junction {
    match step
    case PhaseEnd => AfterPhaseEnd(j)
    case RegisterClient(lane, ip, leftLane, n, other) => AfterRegister(j, lane, ip, leftLane, n, other)
    case UnregisterClient(ip) => AfterUnregister(j, ip)
    case StartEmergency(lane, ip, other) => AfterStartEmergency(j, lane, ip, other)
    case EndEmergency(ip) => AfterEndEmergency(j, ip)
    case RegisterTracker(lane, ip) => AfterRegisterTracker(j, lane, ip)
    case TimerRuns(lane, timeLeft, expires, now) => AfterTimerRuns(j, lane, timeLeft, expires, now)
  }

  function Run(j: Junction, steps: seq<Step>): Junction
    decreases |steps|
  {
    if steps == [] then j else Run(AfterStep(j, steps[0]), steps[1..])
  }

  /** How many phases end in a run. */
  function PhaseEnds(steps: seq<Step>): nat {
    if steps == [] then 0 else (if steps[0].PhaseEnd? then 1 else 0) + PhaseEnds(steps[1..])
  }

  /** The controller as its constructor leaves it, with whatever the expiry clocks happen to read. */
  ghost predicate IsInitial(j: Junction) {
    && j.signals.phase.Stopped? && j.signals.nextNormalState == "EW" && j.signals.announced == ""
    && j.signals.jumps == [] && !j.signals.failed
    && j.signals.greenTimer.timeLeft == 2 && !j.signals.greenTimer.expired && !j.signals.greenTimer.frozen
    && (forall lane: Lane :: lane in j.signals.timers <==> j.config.missingLane != Some(lane))
    && (forall lane <- j.signals.timers ::
          var t := j.signals.timers[lane];
          t.timeLeft == j.config.redLightDuration && !t.expired && !t.frozen)
    && j.registry == Registry(map[], map[], [])
    && j.counts == Counts(map[], map[], 0, 1)
  }
}
