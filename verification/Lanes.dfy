/** Lanes, their one-letter names, and the phases of the junction's statechart. */
module Lanes {
  import opened Wrappers

  datatype Lane = E | W | N | S

  /** The lanes in the order of their enumerators, which is also the order of a map's keys. */
  const LANES: seq<Lane> := [E, W, N, S]

  function CharToLane(c: char): Option<Lane> {
    if c == 'E' then Some(E) else if c == 'W' then Some(W)
    else if c == 'S' then Some(S) else if c == 'N' then Some(N) else None
  }

  function LaneToChar(lane: Lane): char {
    match lane case E => 'E' case W => 'W' case N => 'N' case S => 'S'
  }

  /** The lanes that a transition name such as "EW" stands for. */
  function LanesOf(name: string): set<Lane> {
    set lane: Lane | LaneToChar(lane) in name
  }

  datatype Phase =
    | Stopped
    | EWTransition | NTransition | STransition | EWTransitionCpy
    | NSTransition | ETransition | WTransition | NSTransitionCpy

  /** The lanes whose lights a phase turns green. */
  function Green(p: Phase): set<Lane> {
    match p
    case Stopped => {}
    case EWTransition => {E, W}
    case NTransition => {N}
    case STransition => {S}
    case EWTransitionCpy => {E, W}
    case NSTransition => {N, S}
    case ETransition => {E}
    case WTransition => {W}
    case NSTransitionCpy => {N, S}
  }

  /** `BaseState::react`: where a jump leads; `None` stands for the "undefined transition" exception. */
  function JumpTarget(name: string): Option<Phase> {
    if name == "EW" then Some(EWTransition)
    else if name == "N" then Some(NTransition)
    else if name == "S" then Some(STransition)
    else if name == "NS" then Some(NSTransition)
    else if name == "E" then Some(ETransition)
    else if name == "W" then Some(WTransition)
    else None
  }

  /** The transition table of the normal cycle. */
  function NormalTarget(p: Phase): Phase {
    match p
    case Stopped => EWTransition
    case EWTransition => NTransition
    case NTransition => STransition
    case STransition => EWTransitionCpy
    case EWTransitionCpy => NSTransition
    case NSTransition => ETransition
    case ETransition => WTransition
    case WTransition => NSTransitionCpy
    case NSTransitionCpy => EWTransition
  }

  /** The lanes whose cars are counted when a phase is left. */
  function CountedLanes(p: Phase): set<Lane> {
    Green(p)
  }

  /** The name whose timers a phase resets when it is left; W resets those of E too. */
  function ResetName(p: Phase): string {
    match p
    case Stopped => ""
    case EWTransition => "EW"
    case NTransition => "N"
    case STransition => "S"
    case EWTransitionCpy => "EW"
    case NSTransition => "NS"
    case ETransition => "E"
    case WTransition => "EW"
    case NSTransitionCpy => "NS"
  }

  /** What a phase that is left writes to `nextNormalState_`; W and Stopped write nothing. */
  function NextNormal(p: Phase, before: string): string {
    match p
    case Stopped => before
    case EWTransition => "N"
    case NTransition => "S"
    case STransition => "EW"
    case EWTransitionCpy => "NS"
    case NSTransition => "E"
    case ETransition => "W"
    case WTransition => before
    case NSTransitionCpy => "EW"
  }
}
