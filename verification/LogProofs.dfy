/** Proofs about the logger's transition system, for every run and every interleaving. */
module LogProofs {
  import opened Wrappers
  import opened LogModel
  import opened Sequences

  // ---------------------------------------------------------------- selecting one thread's entries

  lemma {:induction false} OwnedByConcat(a: seq<Entry>, b: seq<Entry>, t: ThreadId)
    ensures OwnedBy(a + b, t) == OwnedBy(a, t) + OwnedBy(b, t)
  {
    if a == [] {
      assert a + b == b;
    } else {
      assert (a + b)[1..] == a[1..] + b;
      OwnedByConcat(a[1..], b, t);
    }
  }

  lemma {:induction false} OthersConcat(a: seq<Entry>, b: seq<Entry>, t: ThreadId)
    ensures OwnedByOthers(a + b, t) == OwnedByOthers(a, t) + OwnedByOthers(b, t)
  {
    if a == [] {
      assert a + b == b;
    } else {
      assert (a + b)[1..] == a[1..] + b;
      OthersConcat(a[1..], b, t);
    }
  }

  lemma {:induction false} OwnedByAll(w: seq<Entry>, t: ThreadId)
    requires AllOwnedBy(w, t)
    ensures OwnedBy(w, t) == w && OwnedByOthers(w, t) == []
  {
    if w != [] {
      OwnedByAll(w[1..], t);
    }
  }

  lemma {:induction false} OwnedByNone(w: seq<Entry>, t: ThreadId)
    requires NoneOwnedBy(w, t)
    ensures OwnedBy(w, t) == [] && OwnedByOthers(w, t) == w
  {
    if w != [] {
      OwnedByNone(w[1..], t);
    }
  }

  lemma {:induction false} OwnedByIsOwned(w: seq<Entry>, t: ThreadId)
    ensures AllOwnedBy(OwnedBy(w, t), t)
    ensures NoneOwnedBy(OwnedByOthers(w, t), t)
    ensures forall u :: NoneOwnedBy(w, u) ==> NoneOwnedBy(OwnedByOthers(w, t), u)
  {
    if w != [] {
      OwnedByIsOwned(w[1..], t);
      forall u | NoneOwnedBy(w, u) ensures NoneOwnedBy(OwnedByOthers(w, t), u) {
        assert NoneOwnedBy(w[1..], u);
      }
    }
  }

  /** Removing one thread's entries leaves every other thread's entries, in order. */
  lemma {:induction false} OwnedByAfterRemoval(w: seq<Entry>, t: ThreadId, u: ThreadId)
    requires t != u
    ensures OwnedBy(OwnedByOthers(w, t), u) == OwnedBy(w, u)
    ensures OwnedBy(OwnedBy(w, t), u) == []
  {
    if w != [] {
      OwnedByAfterRemoval(w[1..], t, u);
    }
  }

  // ---------------------------------------------------------------- the invariant

  lemma NextOfErased(q: seq<Entry>, c: nat, t: ThreadId)
    requires c < |q| && NoneOwnedBy(q[..c], t)
    ensures var r := NextOf(Erase(q, c), t, c);
      if r.Some? then NoneOwnedBy(Erase(q, c)[..r.value], t) else NoneOwnedBy(Erase(q, c), t)
  {
    var rest := Erase(q, c);
    var r := NextOf(rest, t, c);
    assert rest[..c] == q[..c];
    if r.Some? {
      assert rest[..r.value] == rest[..c] + rest[c..r.value];
    } else {
      assert rest == rest[..c] + rest[c..];
    }
  }

  lemma ExecuteKeepsConsistent(s: LogState)
    requires Consistent(s) && CanExecute(s)
    ensures Consistent(Execute(s))
  {
    var e := s.queue[s.cursor.value];
    if e.syncs {
      SyncingEndsLine(s.stream, e);
    } else {
      NextOfErased(s.queue, s.cursor.value, s.current.value);
    }
  }

  lemma SyncingEndsLine(stream: Block, e: Entry)
    requires AllOwnedBy(stream, e.owner) && NoneSyncs(stream) && e.syncs
    ensures IsLine(stream + [e])
  {
    assert (stream + [e])[..|stream|] == stream;
  }

  lemma WriteKeepsConsistent(s: LogState, e: Entry)
    requires Consistent(s)
    ensures Consistent(AfterWrite(s, e))
  {
    var q := s.queue + [e];
    if s.cursor.Some? {
      assert q[..s.cursor.value] == s.queue[..s.cursor.value];
    } else if s.current.Some? {
      assert q[..|q| - 1] == s.queue;
    }
  }

  lemma {:induction false} PassKeepsConsistent(s: LogState)
    requires Consistent(s)
    ensures Consistent(Pass(s)) && Pass(s).cursor.None?
    ensures s.blocks <= Pass(s).blocks
    ensures Pass(s).closing == s.closing && Pass(s).stopped == s.stopped
    decreases |s.queue|
  {
    if CanExecute(s) {
      ExecuteKeepsConsistent(s);
      PassKeepsConsistent(Execute(s));
    }
  }

  /** Every reachable state of a log whose serializer has not stopped is consistent. */
  lemma {:induction false} RunIsConsistent(steps: seq<Step>)
    ensures !Run(steps).stopped ==> Consistent(Run(steps))
    ensures StaysOpen(steps) ==> !Run(steps).closing && !Run(steps).stopped
  {
    if steps != [] {
      var before := steps[..|steps| - 1];
      RunIsConsistent(before);
      var s := Run(before);
      if !s.stopped {
        match steps[|steps| - 1]
        case Write(e) => WriteKeepsConsistent(s, e);
        case Serialize => PassKeepsConsistent(s);
        case Close =>
      }
    }
  }

  // ---------------------------------------------------------------- writes commute with the serializer

  lemma {:induction false} NextOfAppended(q: seq<Entry>, e: Entry, t: ThreadId, from: nat)
    requires from <= |q|
    ensures NextOf(q + [e], t, from) ==
      (if NextOf(q, t, from).Some? then NextOf(q, t, from)
       else if e.owner == t then Some(|q|) else None)
    decreases |q| - from
  {
    if from == |q| {
      assert NextOf(q + [e], t, |q| + 1) == None;
    } else {
      NextOfAppended(q, e, t, from + 1);
    }
  }

  /** A turn of the serializer does the same before and after an append. */
  lemma ExecuteCommutesWithWrite(s: LogState, e: Entry)
    requires Consistent(s) && CanExecute(s)
    ensures CanExecute(AfterWrite(s, e))
    ensures AfterWrite(Execute(s), e) == Execute(AfterWrite(s, e))
  {
    EraseBeforeAppend(s.queue, s.cursor.value, e);
    if s.queue[s.cursor.value].syncs {
      FlushCommutesWithWrite(s, e);
    } else {
      NextOfAppended(Erase(s.queue, s.cursor.value), e, s.current.value, s.cursor.value);
    }
  }

  lemma FlushCommutesWithWrite(s: LogState, e: Entry)
    requires CanExecute(s) && s.queue[s.cursor.value].syncs
    ensures AfterWrite(Execute(s), e) == Execute(AfterWrite(s, e))
  {
    EraseBeforeAppend(s.queue, s.cursor.value, e);
  }

  lemma EraseBeforeAppend(q: seq<Entry>, c: nat, e: Entry)
    requires c < |q|
    ensures Erase(q + [e], c) == Erase(q, c) + [e]
    ensures (q + [e])[c] == q[c]
  {
  }

  /** A pass may as well wait for the next write. */
  lemma {:induction false} PassAbsorbsWrite(s: LogState, e: Entry)
    requires Consistent(s)
    ensures Pass(AfterWrite(Pass(s), e)) == Pass(AfterWrite(s, e))
    decreases |s.queue|
  {
    if CanExecute(s) {
      ExecuteCommutesWithWrite(s, e);
      ExecuteKeepsConsistent(s);
      PassAbsorbsWrite(Execute(s), e);
    }
  }

  lemma {:induction false} PassIsIdempotent(s: LogState)
    requires Consistent(s)
    ensures Pass(Pass(s)) == Pass(s)
  {
    PassKeepsConsistent(s);
  }

  /** The log that is written `w` while its serializer sleeps. */
  function AllWritten(w: seq<Entry>): LogState {
    if w == [] then EMPTY_LOG else AfterWrite(AllWritten(w[..|w| - 1]), w[|w| - 1])
  }

  /** Whenever the passes happened, one more pass leads where a single pass over everything leads. */
  lemma {:induction false} RunSettles(steps: seq<Step>)
    requires StaysOpen(steps)
    ensures Pass(Run(steps)) == Pass(AllWritten(Writes(steps)))
  {
    if steps != [] {
      var before := steps[..|steps| - 1];
      assert StaysOpen(before);
      RunSettles(before);
      RunIsConsistent(before);
      var s := Run(before);
      match steps[|steps| - 1]
      case Write(e) =>
        var w := Writes(before);
        assert Writes(steps)[..|w|] == w;
        AllWrittenIsConsistent(w);
        PassAbsorbsWrite(s, e);
        PassAbsorbsWrite(AllWritten(w), e);
      case Serialize => PassIsIdempotent(s);
      case Close => assert false;
    }
  }

  lemma {:induction false} AllWrittenIsConsistent(w: seq<Entry>)
    ensures Consistent(AllWritten(w))
  {
    if w != [] {
      AllWrittenIsConsistent(w[..|w| - 1]);
      WriteKeepsConsistent(AllWritten(w[..|w| - 1]), w[|w| - 1]);
    }
  }

  lemma {:induction false} AllWrittenState(w: seq<Entry>)
    ensures AllWritten(w) ==
      (if w == [] then EMPTY_LOG else EMPTY_LOG.(queue := w, cursor := Some(0), current := Some(w[0].owner)))
  {
    if w != [] {
      AllWrittenState(w[..|w| - 1]);
      assert w == w[..|w| - 1] + [w[|w| - 1]];
    }
  }

  // ---------------------------------------------------------------- the serializer computes the reference

  lemma {:induction false} TakeBlockSkips(pre: seq<Entry>, w: seq<Entry>, t: ThreadId)
    requires NoneOwnedBy(pre, t)
    ensures TakeBlock(pre + w, t) ==
      (match TakeBlock(w, t)
       case Finished(b, rest) => Finished(b, pre + rest)
       case Unfinished(l, others) => Unfinished(l, pre + others))
  {
    if pre == [] {
      assert pre + w == w;
      match TakeBlock(w, t)
      case Finished(b, rest) => assert pre + rest == rest;
      case Unfinished(l, others) => assert pre + others == others;
    } else {
      assert (pre + w)[1..] == pre[1..] + w;
      TakeBlockSkips(pre[1..], w, t);
      match TakeBlock(w, t)
      case Finished(b, rest) => assert pre + rest == [pre[0]] + (pre[1..] + rest);
      case Unfinished(l, others) => assert pre + others == [pre[0]] + (pre[1..] + others);
    }
  }

  /** The state in which thread `t` is served, with `q` queued and `line` already streamed. */
  function Serving(q: seq<Entry>, t: ThreadId, line: Block, blocks: seq<Block>): LogState {
    EMPTY_LOG.(queue := q, cursor := NextOf(q, t, 0), current := Some(t), stream := line, blocks := blocks)
  }

  function StartOver(q: seq<Entry>, blocks: seq<Block>): LogState {
    if q == [] then EMPTY_LOG.(blocks := blocks) else Serving(q, q[0].owner, [], blocks)
  }

  lemma {:induction false} NextOfFromStart(q: seq<Entry>, t: ThreadId, c: nat)
    requires c <= |q| && NoneOwnedBy(q[..c], t)
    ensures NextOf(q, t, 0) == NextOf(q, t, c)
  {
    if c != 0 {
      assert q[..c][..c - 1] == q[..c - 1];
      assert q[c - 1] == q[..c][c - 1];
      NextOfFromStart(q, t, c - 1);
    }
  }

  lemma ServingExecutes(q: seq<Entry>, t: ThreadId, line: Block, blocks: seq<Block>, c: nat)
    requires NextOf(q, t, 0) == Some(c)
    ensures NoneOwnedBy(q[..c], t)
    ensures CanExecute(Serving(q, t, line, blocks))
    ensures Execute(Serving(q, t, line, blocks)) ==
      if q[c].syncs then StartOver(Erase(q, c), blocks + [line + [q[c]]])
      else Serving(Erase(q, c), t, line + [q[c]], blocks)
  {
    assert q[0..c] == q[..c];
    var rest := Erase(q, c);
    assert rest[..c] == q[..c];
    NextOfFromStart(rest, t, c);
  }

  /** Taking a block when its first entry stands at position `c`. */
  lemma TakeBlockAt(q: seq<Entry>, t: ThreadId, c: nat)
    requires c < |q| && q[c].owner == t && NoneOwnedBy(q[..c], t)
    ensures TakeBlock(q, t) ==
      if q[c].syncs then Finished([q[c]], Erase(q, c))
      else match TakeBlock(Erase(q, c), t)
           case Finished(b, rest) => Finished([q[c]] + b, rest)
           case Unfinished(l, others) => Unfinished([q[c]] + l, others)
  {
    var pre, post := q[..c], q[c + 1..];
    var w := [q[c]] + post;
    assert w[1..] == post;
    assert q == pre + w;
    TakeBlockSkips(pre, w, t);
    TakeBlockSkips(pre, post, t);
  }

  /** While one thread is served, a pass streams its line and, if it ends, starts over without it. */
  lemma {:induction false} PassServesBlock(q: seq<Entry>, t: ThreadId, line: Block, blocks: seq<Block>)
    ensures Pass(Serving(q, t, line, blocks)) ==
      (match TakeBlock(q, t)
       case Finished(b, rest) => Pass(StartOver(rest, blocks + [line + b]))
       case Unfinished(l, others) => Serving(others, t, line + l, blocks).(cursor := None))
    decreases |q|
  {
    if NextOf(q, t, 0).None? {
      assert q[0..] == q && q + [] == q && line + [] == line;
      TakeBlockSkips(q, [], t);
    } else {
      var c := NextOf(q, t, 0).value;
      ServingExecutes(q, t, line, blocks, c);
      TakeBlockAt(q, t, c);
      if !q[c].syncs {
        PassServesBlock(Erase(q, c), t, line + [q[c]], blocks);
        var taken := TakeBlock(Erase(q, c), t);
        Regroup(line, [q[c]], if taken.Finished? then taken.block else taken.line);
      }
    }
  }

  ghost predicate ShowsOutcome(s: LogState, before: seq<Block>, r: Outcome) {
    s.blocks == before + r.blocks && s.stream == r.line && s.queue == r.waiting
  }

  lemma {:induction false} PassComputesReference(q: seq<Entry>, blocks: seq<Block>)
    ensures ShowsOutcome(Pass(StartOver(q, blocks)), blocks, Reference(q))
    decreases |q|
  {
    if q == [] {
      assert blocks + [] == blocks;
    } else {
      PassServesBlock(q, q[0].owner, [], blocks);
      match TakeBlock(q, q[0].owner)
      case Finished(b, rest) =>
        assert [] + b == b;
        PassComputesReference(rest, blocks + [b]);
        Regroup(blocks, [b], Reference(rest).blocks);
      case Unfinished(l, others) =>
        assert [] + l == l && blocks + [] == blocks;
    }
  }

  /**
   Schedule independence. In every interleaving of writes and passes, what has been printed is a
   prefix of what the reference semantics prints for the same writes, and whenever the serializer
   is back at rest the printed blocks, the unfinished line and the waiting entries are exactly the
   reference's.
   */
  lemma OutputIsReference(steps: seq<Step>)
    requires StaysOpen(steps)
    ensures Run(steps).blocks <= Reference(Writes(steps)).blocks
    ensures Run(steps).cursor.None? ==> ShowsOutcome(Run(steps), [], Reference(Writes(steps)))
    ensures ShowsOutcome(Pass(Run(steps)), [], Reference(Writes(steps)))
  {
    var w := Writes(steps);
    RunIsConsistent(steps);
    RunSettles(steps);
    PassKeepsConsistent(Run(steps));
    AllWrittenState(w);
    assert AllWritten(w) == StartOver(w, []);
    PassComputesReference(w, []);
  }

  // ---------------------------------------------------------------- nothing lost, nothing reordered

  /** An entry may overtake entries of other threads without disturbing any thread's order. */
  lemma OvertakingKeepsOrder(pre: seq<Entry>, e: Entry, post: seq<Entry>, t: ThreadId)
    requires NoneOwnedBy(pre, e.owner)
    ensures OwnedBy([e] + (pre + post), t) == OwnedBy(pre + ([e] + post), t)
  {
    OwnedByConcat([e], pre + post, t);
    OwnedByConcat(pre, post, t);
    OwnedByConcat(pre, [e] + post, t);
    OwnedByConcat([e], post, t);
    if t == e.owner {
      OwnedByNone(pre, t);
    } else {
      OwnedByNone([e], t);
    }
  }

  /** Executing an entry moves it, in the account, to before the queued entries it overtakes. */
  lemma ExecuteMovesEntry(s: LogState, done: seq<Entry>, pre: seq<Entry>, e: Entry, post: seq<Entry>)
    requires CanExecute(s) && done == Flatten(s.blocks) + s.stream
    requires var c := s.cursor.value; e == s.queue[c] && pre == s.queue[..c] && post == s.queue[c + 1..]
    ensures Accounted(s) == done + (pre + ([e] + post))
    ensures Accounted(Execute(s)) == done + ([e] + (pre + post))
  {
    assert s.queue == pre + ([e] + post);
    var out := s.stream + [e];
    Regroup(done, [e], pre + post);
    Regroup(Flatten(s.blocks), s.stream, [e]);
    if e.syncs {
      FlattenConcat(s.blocks, [out]);
      assert Flatten([out]) == out + Flatten([]) == out;
      assert Flatten(s.blocks) + out + [] == Flatten(s.blocks) + out;
    }
  }

  lemma ExecuteKeepsAccount(s: LogState, t: ThreadId)
    requires Consistent(s) && CanExecute(s)
    ensures OwnedBy(Accounted(Execute(s)), t) == OwnedBy(Accounted(s), t)
  {
    var c := s.cursor.value;
    var done := Flatten(s.blocks) + s.stream;
    var e, pre, post := s.queue[c], s.queue[..c], s.queue[c + 1..];
    ExecuteMovesEntry(s, done, pre, e, post);
    OvertakingKeepsOrder(pre, e, post, t);
    OwnedByConcat(done, [e] + (pre + post), t);
    OwnedByConcat(done, pre + ([e] + post), t);
  }

  lemma {:induction false} PassKeepsAccount(s: LogState, t: ThreadId)
    requires Consistent(s)
    ensures OwnedBy(Accounted(Pass(s)), t) == OwnedBy(Accounted(s), t)
    decreases |s.queue|
  {
    if CanExecute(s) {
      ExecuteKeepsAccount(s, t);
      ExecuteKeepsConsistent(s);
      PassKeepsAccount(Execute(s), t);
    }
  }

  lemma {:induction false} GroupedKeepsOrder(q: seq<Entry>, t: ThreadId)
    ensures OwnedBy(Grouped(q), t) == OwnedBy(q, t)
    decreases |q|
  {
    if q != [] {
      var u := q[0].owner;
      GroupedKeepsOrder(OwnedByOthers(q, u), t);
      SplitKeepsOrder(q, u, Grouped(OwnedByOthers(q, u)), t);
    }
  }

  /** One thread's entries followed by any rearrangement of the others' that keeps `t`'s order. */
  lemma SplitKeepsOrder(q: seq<Entry>, u: ThreadId, others: seq<Entry>, t: ThreadId)
    requires OwnedBy(others, t) == OwnedBy(OwnedByOthers(q, u), t)
    ensures OwnedBy(OwnedBy(q, u) + others, t) == OwnedBy(q, t)
  {
    OwnedByConcat(OwnedBy(q, u), others, t);
    OwnedByIsOwned(q, u);
    if t == u {
      OwnedByAll(OwnedBy(q, u), u);
      OwnedByNone(OwnedByOthers(q, u), u);
    } else {
      OwnedByAfterRemoval(q, u, t);
    }
  }

  lemma DrainKeepsOrder(s: LogState, t: ThreadId)
    ensures OwnedBy(DrainOrder(s), t) == OwnedBy(s.queue, t)
  {
    if s.cursor.Some? && s.current.Some? {
      var u := s.current.value;
      GroupedKeepsOrder(OwnedByOthers(s.queue, u), t);
      SplitKeepsOrder(s.queue, u, Grouped(OwnedByOthers(s.queue, u)), t);
    } else {
      GroupedKeepsOrder(s.queue, t);
    }
  }

  lemma DrainKeepsAccount(s: LogState, t: ThreadId)
    ensures OwnedBy(Accounted(Drained(s)), t) == OwnedBy(Accounted(s), t)
  {
    var order := DrainOrder(s);
    var done := Flatten(s.blocks) + s.stream;
    FlattenConcat(s.blocks, [s.stream + order]);
    assert Flatten([s.stream + order]) == s.stream + order + Flatten([]);
    assert Accounted(Drained(s)) == done + order;
    OwnedByConcat(done, order, t);
    OwnedByConcat(done, s.queue, t);
    DrainKeepsOrder(s, t);
  }

  lemma WriteExtendsAccount(s: LogState, e: Entry)
    ensures Accounted(AfterWrite(s, e)) == Accounted(s) + [e]
  {
    var after := AfterWrite(s, e);
    assert after.blocks == s.blocks && after.stream == s.stream && after.queue == s.queue + [e];
    Regroup(Flatten(s.blocks) + s.stream, s.queue, [e]);
  }

  /**
   In every run, closing or not, what a thread has printed, streamed and queued is together
   everything it wrote, in the order in which it wrote it.
   */
  lemma {:induction false} NothingLost(steps: seq<Step>, t: ThreadId)
    ensures OwnedBy(Accounted(Run(steps)), t) == OwnedBy(Writes(steps), t)
  {
    if steps != [] {
      var before := steps[..|steps| - 1];
      NothingLost(before, t);
      RunIsConsistent(before);
      var s := Run(before);
      match steps[|steps| - 1]
      case Write(e) =>
        WriteExtendsAccount(s, e);
        OwnedByConcat(Accounted(s), [e], t);
        OwnedByConcat(Writes(before), [e], t);
      case Serialize =>
        if !s.stopped {
          PassKeepsAccount(s, t);
          DrainKeepsAccount(s, t);
        }
      case Close =>
    }
  }

  // ---------------------------------------------------------------- whole lines only

  lemma {:induction false} LinesTakesLine(b: Block, w: seq<Entry>)
    requires IsLine(b)
    ensures Lines(b + w) == [b] + Lines(w)
  {
    assert (b + w)[1..] == b[1..] + w;
    if |b| > 1 {
      var tail := b[1..];
      assert tail[..|tail| - 1] == b[..|b| - 1][1..];
      assert !b[..|b| - 1][0].syncs;
      LinesTakesLine(tail, w);
      assert [b[0]] + tail == b;
      assert ([tail] + Lines(w))[1..] == Lines(w);
    } else {
      assert b == [b[0]];
    }
  }

  lemma {:induction false} LinesOfBlocks(bs: seq<Block>, w: seq<Entry>)
    requires forall i :: 0 <= i < |bs| ==> IsLine(bs[i])
    ensures Lines(Flatten(bs) + w) == bs + Lines(w)
  {
    if bs == [] {
      assert [] + w == w;
    } else {
      LinesOfBlocks(bs[1..], w);
      Regroup(bs[0], Flatten(bs[1..]), w);
      FirstAndRest(bs);
      Regroup([bs[0]], bs[1..], Lines(w));
      LinesTakesLine(bs[0], Flatten(bs[1..]) + w);
    }
  }

  lemma {:induction false} LinesOfUnfinished(w: seq<Entry>)
    requires NoneSyncs(w)
    ensures Lines(w) == []
  {
    if w != [] {
      LinesOfUnfinished(w[1..]);
    }
  }

  lemma {:induction false} BlocksOfOwned(bs: seq<Block>, t: ThreadId)
    requires forall i :: 0 <= i < |bs| ==> IsLine(bs[i])
    ensures OwnedBy(Flatten(bs), t) == Flatten(BlocksOf(bs, t))
    ensures forall i :: 0 <= i < |BlocksOf(bs, t)| ==> IsLine(BlocksOf(bs, t)[i]) && BlocksOf(bs, t)[i] in bs
  {
    if bs != [] {
      BlocksOfOwned(bs[1..], t);
      OwnedByConcat(bs[0], Flatten(bs[1..]), t);
      var u := bs[0][0].owner;
      if u == t {
        OwnedByAll(bs[0], t);
      } else {
        OwnedByNone(bs[0], t);
      }
    }
  }

  /**
   No interleaving tears a line apart. Until the log is drained, every printed block is a single
   thread's, and a thread's blocks are its first lines: its writes cut after each flushing one.
   At rest, the thread being served, and every thread with nothing queued, has had all of its
   finished lines printed.
   */
  lemma BlocksAreLines(steps: seq<Step>, t: ThreadId)
    requires !Run(steps).stopped
    ensures forall i :: 0 <= i < |Run(steps).blocks| ==> IsLine(Run(steps).blocks[i])
    ensures BlocksOf(Run(steps).blocks, t) <= Lines(OwnedBy(Writes(steps), t))
    ensures NoneOwnedBy(Run(steps).queue, t) ==>
      BlocksOf(Run(steps).blocks, t) == Lines(OwnedBy(Writes(steps), t))
  {
    var s := Run(steps);
    RunIsConsistent(steps);
    NothingLost(steps, t);
    var printed := BlocksOf(s.blocks, t);
    var left := OwnedBy(s.stream + s.queue, t);
    assert Accounted(s) == Flatten(s.blocks) + (s.stream + s.queue);
    OwnedByConcat(Flatten(s.blocks), s.stream + s.queue, t);
    BlocksOfOwned(s.blocks, t);
    LinesOfBlocks(printed, left);
    if NoneOwnedBy(s.queue, t) {
      OwnedByConcat(s.stream, s.queue, t);
      OwnedByNone(s.queue, t);
      if s.current == Some(t) {
        OwnedByAll(s.stream, t);
      } else {
        OwnedByNone(s.stream, t);
      }
      LinesOfUnfinished(left);
    }
  }

  // ---------------------------------------------------------------- when everything gets printed

  lemma {:induction false} FlattenEndsLine(bs: seq<Block>)
    requires forall i :: 0 <= i < |bs| ==> IsLine(bs[i])
    ensures EndsLine(Flatten(bs))
  {
    if bs != [] {
      FlattenEndsLine(bs[1..]);
    }
  }

  /**
   The serializer is only ever at rest with work left because of an unfinished line: at rest, the
   log has printed everything and serves no one if and only if every thread's last write flushed;
   otherwise the thread it serves is one whose last write did not.
   */
  lemma RestMeansPrinted(steps: seq<Step>)
    requires !Run(steps).stopped && Run(steps).cursor.None?
    ensures var s := Run(steps);
      (s.queue == [] && s.stream == [] && s.current.None?)
      <==> forall t :: EndsLine(OwnedBy(Writes(steps), t))
    ensures Run(steps).current.Some? ==> !EndsLine(OwnedBy(Writes(steps), Run(steps).current.value))
  {
    var s := Run(steps);
    RunIsConsistent(steps);
    if s.current.Some? {
      var t := s.current.value;
      NothingLost(steps, t);
      OwnedByConcat(Flatten(s.blocks) + s.stream, s.queue, t);
      OwnedByConcat(Flatten(s.blocks), s.stream, t);
      OwnedByAll(s.stream, t);
      OwnedByNone(s.queue, t);
    } else {
      forall t ensures EndsLine(OwnedBy(Writes(steps), t)) {
        NothingLost(steps, t);
        assert Accounted(s) == Flatten(s.blocks);
        BlocksOfOwned(s.blocks, t);
        FlattenEndsLine(BlocksOf(s.blocks, t));
      }
    }
  }

  /** A wake-up of the serializer on an open log leaves nothing for it to do: it ends at rest. */
  lemma SerializeEndsAtRest(steps: seq<Step>)
    requires StaysOpen(steps)
    ensures Run(steps + [Serialize]).cursor.None?
    ensures (forall t :: EndsLine(OwnedBy(Writes(steps), t))) ==>
      var s := Run(steps + [Serialize]);
      s.queue == [] && s.stream == [] && s.current.None?
  {
    var all := steps + [Serialize];
    assert all[..|all| - 1] == steps;
    RunIsConsistent(steps);
    PassKeepsConsistent(Run(steps));
    RestMeansPrinted(all);
  }

  // ---------------------------------------------------------------- shutdown

  lemma ContiguousConcat(a: Block, b: Block, t: ThreadId)
    requires AllOwnedBy(a, t) && NoneOwnedBy(b, t) && Contiguous(b)
    ensures Contiguous(a + b)
  {
    var w := a + b;
    forall i, j, k | 0 <= i <= j <= k < |w| && w[i].owner == w[k].owner
      ensures w[j].owner == w[i].owner
    {
      if i >= |a| {
        assert b[j - |a|].owner == b[i - |a|].owner;
      } else if k >= |a| {
        assert b[k - |a|].owner != t;
      }
    }
  }

  lemma {:induction false} GroupedIsContiguous(q: seq<Entry>)
    ensures Contiguous(Grouped(q))
    ensures forall t :: NoneOwnedBy(q, t) ==> NoneOwnedBy(Grouped(q), t)
    decreases |q|
  {
    if q != [] {
      var u := q[0].owner;
      var others := OwnedByOthers(q, u);
      OwnedByIsOwned(q, u);
      GroupedIsContiguous(others);
      ContiguousConcat(OwnedBy(q, u), Grouped(others), u);
      forall t | NoneOwnedBy(q, t) ensures NoneOwnedBy(Grouped(q), t) {
        assert NoneOwnedBy(others, t);
      }
    }
  }

  lemma DrainIsContiguous(s: LogState)
    requires Consistent(s)
    ensures Contiguous(s.stream + DrainOrder(s))
  {
    if s.cursor.Some? {
      var t := s.current.value;
      var others := OwnedByOthers(s.queue, t);
      OwnedByIsOwned(s.queue, t);
      GroupedIsContiguous(others);
      ContiguousConcat(s.stream + OwnedBy(s.queue, t), Grouped(others), t);
      Regroup(s.stream, OwnedBy(s.queue, t), Grouped(others));
    } else {
      GroupedIsContiguous(s.queue);
      if s.current.Some? {
        ContiguousConcat(s.stream, Grouped(s.queue), s.current.value);
      } else {
        assert s.stream + Grouped(s.queue) == Grouped(s.queue);
      }
    }
  }

  /** The position of a thread's first entry. */
  function FirstOf(q: seq<Entry>, t: ThreadId): (i: nat)
    ensures i <= |q|
    ensures i < |q| ==> q[i].owner == t
    ensures forall k :: 0 <= k < i ==> q[k].owner != t
  {
    if q == [] || q[0].owner == t then 0 else 1 + FirstOf(q[1..], t)
  }

  /** The groups follow one another in the order of their threads' oldest entries. */
  ghost predicate OldestFirst(g: seq<Entry>, q: seq<Entry>) {
    forall i, k :: 0 <= i < k < |g| ==> FirstOf(q, g[i].owner) <= FirstOf(q, g[k].owner)
  }

  /** Taking out one thread's entries does not change which of two others comes first. */
  lemma {:induction false} FirstAmongOthers(q: seq<Entry>, t: ThreadId, u: ThreadId, v: ThreadId)
    requires t != u && t != v && FirstOf(OwnedByOthers(q, t), u) <= FirstOf(OwnedByOthers(q, t), v)
    ensures FirstOf(q, u) <= FirstOf(q, v)
  {
    if q != [] && u != v && q[0].owner != u {
      if q[0].owner == t {
        FirstAmongOthers(q[1..], t, u, v);
      } else if q[0].owner != v {
        assert OwnedByOthers(q, t)[1..] == OwnedByOthers(q[1..], t);
        FirstAmongOthers(q[1..], t, u, v);
      }
    }
  }

  lemma {:induction false} GroupedIsOldestFirst(q: seq<Entry>)
    ensures OldestFirst(Grouped(q), q)
    decreases |q|
  {
    if q != [] {
      var t := q[0].owner;
      var mine, others := OwnedBy(q, t), OwnedByOthers(q, t);
      GroupedIsOldestFirst(others);
      OwnedByIsOwned(q, t);
      GroupedIsContiguous(others);
      forall i, k | 0 <= i < k < |mine + Grouped(others)|
        ensures FirstOf(q, (mine + Grouped(others))[i].owner) <= FirstOf(q, (mine + Grouped(others))[k].owner)
      {
        if i >= |mine| {
          FirstAmongOthers(q, t, Grouped(others)[i - |mine|].owner, Grouped(others)[k - |mine|].owner);
        }
      }
    }
  }

  /**
   The order of the shutdown drain: the thread being served comes first, if its entries are still
   to be executed, and then the others in the order of their oldest pending entries.
   */
  lemma DrainServesOldestFirst(s: LogState)
    requires Consistent(s)
    ensures var order := DrainOrder(s);
      if s.cursor.Some? then
        var mine := OwnedBy(s.queue, s.current.value);
        mine <= order && OldestFirst(order[|mine|..], OwnedByOthers(s.queue, s.current.value))
      else OldestFirst(order, s.queue)
  {
    GroupedIsOldestFirst(s.queue);
    if s.cursor.Some? {
      GroupedIsOldestFirst(OwnedByOthers(s.queue, s.current.value));
    }
  }

  /**
   Closing the log from any reachable state prints everything: the serializer's last pass leaves
   nothing queued or streamed, every thread's output is everything it wrote, once and in order, and
   within the final block no thread's text is interrupted by another's.
   */
  lemma ShutdownPrintsEverything(steps: seq<Step>, t: ThreadId)
    requires !Run(steps).stopped
    ensures var s := Run(steps + [Close, Serialize]);
      && s.stopped && s.queue == [] && s.stream == []
      && OwnedBy(Flatten(s.blocks), t) == OwnedBy(Writes(steps), t)
      && |s.blocks| == |Run(steps).blocks| + 1
      && s.blocks[..|s.blocks| - 1] == Run(steps).blocks
      && Contiguous(s.blocks[|s.blocks| - 1])
  {
    var closed := steps + [Close];
    var all := steps + [Close, Serialize];
    assert closed[..|closed| - 1] == steps && all[..|all| - 1] == closed;
    var s := Run(all);
    assert s == Drained(Run(closed));
    RunIsConsistent(closed);
    DrainIsContiguous(Run(closed));
    NothingLost(all, t);
    assert Accounted(s) == Flatten(s.blocks);
  }
}
