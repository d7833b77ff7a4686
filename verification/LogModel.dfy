/**
 The de-interleaving logger as a transition system on values.

 Writers append entries under the log's mutex; the serializer thread follows a cursor through the
 entries of one "current" thread until one of them flushes, and then turns to the owner of the
 oldest entry left. Both sides hold the mutex, so one write and one pass of the serializer are
 atomic steps.
 */
module LogModel {
  import opened Sequences
  import opened Wrappers

  type ThreadId = int

  /** One queued functor: who queued it, the text it streams, and whether streaming it syncs. */
  datatype Entry = Entry(owner: ThreadId, text: string, syncs: bool)

  type Block = seq<Entry>

  /**
   `cursor` is `None` for the list's end iterator: unlike an index, `end` stays `end` when an entry
   is appended. `stream` holds the executed entries whose text is not printed yet, `blocks` what
   each call of `flush` printed.
   */
  datatype LogState = LogState(
    queue: seq<Entry>,
    cursor: Option<nat>,
    current: Option<ThreadId>,
    stream: Block,
    blocks: seq<Block>,
    closing: bool,
    stopped: bool)

  const EMPTY_LOG := LogState([], None, None, [], [], false, false)

  datatype Step = Write(entry: Entry) | Serialize | Close

  // ---------------------------------------------------------------- sequences of entries

  function OwnedBy(w: seq<Entry>, t: ThreadId): seq<Entry> {
    if w == [] then []
    else if w[0].owner == t then [w[0]] + OwnedBy(w[1..], t)
    else OwnedBy(w[1..], t)
  }

  function OwnedByOthers(w: seq<Entry>, t: ThreadId): (r: seq<Entry>)
    ensures |r| <= |w|
    ensures w != [] && w[0].owner == t ==> |r| < |w|
  {
    if w == [] then []
    else if w[0].owner == t then OwnedByOthers(w[1..], t)
    else [w[0]] + OwnedByOthers(w[1..], t)
  }

  ghost predicate AllOwnedBy(w: seq<Entry>, t: ThreadId) {
    forall i :: 0 <= i < |w| ==> w[i].owner == t
  }

  ghost predicate NoneOwnedBy(w: seq<Entry>, t: ThreadId) {
    forall i :: 0 <= i < |w| ==> w[i].owner != t
  }

  ghost predicate NoneSyncs(w: seq<Entry>) {
    forall i :: 0 <= i < |w| ==> !w[i].syncs
  }

  // ---------------------------------------------------------------- the atomic steps

  /** The first entry of thread `t` at position `from` or later (`std::find_if`). */
  function NextOf(q: seq<Entry>, t: ThreadId, from: nat): (r: Option<nat>)
    requires from <= |q|
    ensures r.Some? ==> from <= r.value < |q| && q[r.value].owner == t && NoneOwnedBy(q[from..r.value], t)
    ensures r.None? ==> NoneOwnedBy(q[from..], t)
    decreases |q| - from
  {
    if from == |q| then None
    else if q[from].owner == t then Some(from)
    else
      var r := NextOf(q, t, from + 1);
      assert q[from..] == [q[from]] + q[from + 1..];
      assert r.Some? ==> q[from..r.value] == [q[from]] + q[from + 1..r.value];
      r
  }

  /** `Log::write`: append, and wake the cursor if it was waiting for this thread or for anyone. */
  function AfterWrite(s: LogState, e: Entry): LogState {
    var q := s.queue + [e];
    if s.current.None? then s.(queue := q, cursor := Some(0), current := Some(q[0].owner))
    else if s.current == Some(e.owner) && s.cursor.None? then s.(queue := q, cursor := Some(|q| - 1))
    else s.(queue := q)
  }

  predicate CanExecute(s: LogState) {
    s.cursor.Some? && s.cursor.value < |s.queue| && s.current == Some(s.queue[s.cursor.value].owner)
  }

  /** The list without the entry at position `c`. */
  function Erase(q: seq<Entry>, c: nat): seq<Entry>
    requires c < |q|
  {
    q[..c] + q[c + 1..]
  }

  /** One turn of the serializer's do-while loop: run the functor under the cursor and move on. */
  function Execute(s: LogState): LogState
    requires CanExecute(s)
  {
    var c := s.cursor.value;
    var rest := Erase(s.queue, c);
    var out := s.stream + [s.queue[c]];
    if s.queue[c].syncs then
      s.(queue := rest, stream := [], blocks := s.blocks + [out],
         cursor := if rest == [] then None else Some(0),
         current := if rest == [] then None else Some(rest[0].owner))
    else
      s.(queue := rest, stream := out, cursor := NextOf(rest, s.current.value, c))
  }

  /** One pass of the serializer while the log is open: turn after turn until the cursor is at `end`. */
  function Pass(s: LogState): LogState
    decreases |s.queue|
  {
    if CanExecute(s) then Pass(Execute(s)) else s
  }

  /** Entries grouped by thread, the thread of the oldest entry first. */
  function Grouped(q: seq<Entry>): seq<Entry>
    decreases |q|
  {
    if q == [] then [] else OwnedBy(q, q[0].owner) + Grouped(OwnedByOthers(q, q[0].owner))
  }

  /** The order in which the shutdown drain executes what is pending. */
  function DrainOrder(s: LogState): seq<Entry> {
    if s.cursor.Some? && s.current.Some?
    then OwnedBy(s.queue, s.current.value) + Grouped(OwnedByOthers(s.queue, s.current.value))
    else Grouped(s.queue)
  }

  /** The serializer's last pass: execute everything that is pending, flush once, and stop. */
  function Drained(s: LogState): LogState {
    var order := DrainOrder(s);
    s.(queue := [], cursor := None, stream := [], blocks := s.blocks + [s.stream + order],
       current := if order == [] then s.current else Some(order[|order| - 1].owner),
       stopped := true)
  }

  /** One wake-up of the serializer thread; a stopped or waiting serializer does nothing. */
  function AfterSerialize(s: LogState): LogState {
    if s.stopped then s
    else if s.closing then Drained(s)
    else if s.cursor.Some? then Pass(s)
    else s
  }

  function AfterStep(s: LogState, step: Step): LogState {
    match step
    case Write(e) => AfterWrite(s, e)
    case Serialize => AfterSerialize(s)
    case Close => s.(closing := true)
  }

  // ---------------------------------------------------------------- runs

  /** The state after a run of steps, in any interleaving, from an empty log. */
  function Run(steps: seq<Step>): LogState {
    if steps == [] then EMPTY_LOG else AfterStep(Run(steps[..|steps| - 1]), steps[|steps| - 1])
  }

  /** Everything that was written in a run, in the order in which the mutex admitted it. */
  function Writes(steps: seq<Step>): seq<Entry> {
    if steps == [] then []
    else
      var before := Writes(steps[..|steps| - 1]);
      match steps[|steps| - 1]
      case Write(e) => before + [e]
      case _ => before
  }

  predicate StaysOpen(steps: seq<Step>) {
    Close !in steps
  }

  // ---------------------------------------------------------------- what the log promises

  /**
   Taking one block of thread `t` off a sequence of writes: either its entries up to and including
   its first syncing one, or, when it has none, the unfinished line and everybody else's entries.
   */
  datatype Taken =
    | Finished(block: Block, rest: seq<Entry>)
    | Unfinished(line: Block, others: seq<Entry>)

  function TakeBlock(w: seq<Entry>, t: ThreadId): (r: Taken)
    ensures r.Finished? ==> |r.rest| < |w|
  {
    if w == [] then Unfinished([], [])
    else if w[0].owner == t && w[0].syncs then Finished([w[0]], w[1..])
    else
      match TakeBlock(w[1..], t)
      case Finished(b, rest) =>
        if w[0].owner == t then Finished([w[0]] + b, rest) else Finished(b, [w[0]] + rest)
      case Unfinished(l, others) =>
        if w[0].owner == t then Unfinished([w[0]] + l, others) else Unfinished(l, [w[0]] + others)
  }

  /** What a log that was written `w` has printed, has streamed and still holds. */
  datatype Outcome = Outcome(blocks: seq<Block>, line: Block, waiting: seq<Entry>)

  /**
   The reference semantics, free of cursors and schedules: serve the owner of the oldest write
   until its first flush, then start again with what is left; a thread that does not finish its
   line holds up everyone behind it.
   */
  function Reference(w: seq<Entry>): Outcome
    decreases |w|
  {
    if w == [] then Outcome([], [], [])
    else
      match TakeBlock(w, w[0].owner)
      case Finished(b, rest) =>
        var r := Reference(rest);
        r.(blocks := [b] + r.blocks)
      case Unfinished(l, others) => Outcome([], l, others)
  }

  /** One thread's writes cut after every syncing one; the unfinished tail is dropped. */
  function Lines(w: seq<Entry>): seq<Block> {
    if w == [] then []
    else if w[0].syncs then [[w[0]]] + Lines(w[1..])
    else
      var r := Lines(w[1..]);
      if r == [] then [] else [[w[0]] + r[0]] + r[1..]
  }

  /** A block of one thread that ends with its only syncing entry. */
  ghost predicate IsLine(b: Block) {
    b != [] && AllOwnedBy(b, b[0].owner) && b[|b| - 1].syncs && NoneSyncs(b[..|b| - 1])
  }

  /** The blocks among `bs` that thread `t` printed. */
  function BlocksOf(bs: seq<Block>, t: ThreadId): seq<Block> {
    if bs == [] then []
    else if bs[0] != [] && bs[0][0].owner == t then [bs[0]] + BlocksOf(bs[1..], t)
    else BlocksOf(bs[1..], t)
  }

  /** No thread's entries are interrupted by another thread's. */
  ghost predicate Contiguous(b: Block) {
    forall i, j, k :: 0 <= i <= j <= k < |b| && b[i].owner == b[k].owner ==> b[j].owner == b[i].owner
  }

  /** Whether the thread's last write, if it wrote at all, was a syncing one. */
  predicate EndsLine(w: seq<Entry>) {
    w == [] || w[|w| - 1].syncs
  }

  /** The invariant of a log whose serializer still runs. */
  ghost predicate Consistent(s: LogState) {
    && (s.current.None? ==> s.queue == [] && s.cursor.None? && s.stream == [])
    && (s.cursor.Some? ==> CanExecute(s) && NoneOwnedBy(s.queue[..s.cursor.value], s.current.value))
    && (s.cursor.None? && s.current.Some? ==> NoneOwnedBy(s.queue, s.current.value) && s.stream != [])
    && (s.current.Some? ==> AllOwnedBy(s.stream, s.current.value))
    && NoneSyncs(s.stream)
    && (forall i :: 0 <= i < |s.blocks| ==> IsLine(s.blocks[i]))
  }

  /** Everything the log has taken in: printed, streamed or queued. */
  function Accounted(s: LogState): seq<Entry> {
    Flatten(s.blocks) + s.stream + s.queue
  }
}
