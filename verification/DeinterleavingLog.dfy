/**
 The log object. Its methods work in place, as the original's do, and each is proved against the
 step of `LogModel` it implements.
 */
module DeinterleavingLog {
  import opened Wrappers
  import opened LogModel
  import opened LogProofs
  import opened Sequences

  /** The text that streaming the entries one after the other produces. */
  function Render(w: seq<Entry>): string {
    if w == [] then "" else Render(w[..|w| - 1]) + w[|w| - 1].text
  }

  /** Entry after entry, nothing in between: rendering is a homomorphism. */
  lemma {:induction false} RenderConcat(a: seq<Entry>, b: seq<Entry>)
    ensures Render(a + b) == Render(a) + Render(b)
  {
    if b == [] {
      AppendToNothing(a);
      AppendToNothing(Render(a));
    } else {
      var n := |b| - 1;
      assert (a + b)[..|a + b| - 1] == a + b[..n];
      RenderConcat(a, b[..n]);
      Regroup(Render(a), Render(b[..n]), b[n].text);
    }
  }

  lemma RenderOne(e: Entry)
    ensures Render([e]) == e.text
  {
    assert [e][..0] == [];
    AppendToNothing(e.text);
  }

  function TextsOf(w: seq<Entry>): (r: seq<string>)
    ensures |r| == |w| && forall i :: 0 <= i < |w| ==> r[i] == w[i].text
  {
    if w == [] then [] else [w[0].text] + TextsOf(w[1..])
  }

  /** What is printed for a block is the texts of its entries, one after the other. */
  lemma {:induction false} RenderIsTexts(w: seq<Entry>)
    ensures Render(w) == Flatten(TextsOf(w))
  {
    if w != [] {
      FirstAndRest(w);
      RenderConcat([w[0]], w[1..]);
      RenderOne(w[0]);
      RenderIsTexts(w[1..]);
      assert TextsOf(w)[1..] == TextsOf(w[1..]);
    }
  }

  class Log {
    var logQueue: seq<Entry>
    var currentLog: Option<nat>
    var currentThreadId: Option<ThreadId>
    var closing: bool
    var flushed: bool
    var stopped: bool
    /** The text in the stream buffer, and what each flush has sent to the console. */
    var buffer: string
    var console: seq<string>

    ghost var stream: Block
    ghost var blocks: seq<Block>

    ghost function View(): LogState
      reads this
    {
      LogState(logQueue, currentLog, currentThreadId, stream, blocks, closing, stopped)
    }

    /** The buffer and the console show the text of the entries in `stream` and `blocks`. */
    ghost predicate TextMatches()
      reads this
    {
      && buffer == Render(stream)
      && |console| == |blocks|
      && forall i :: 0 <= i < |console| ==> console[i] == Render(blocks[i])
    }

    ghost predicate Valid()
      reads this
    {
      TextMatches() && !flushed && (!stopped ==> Consistent(View()))
    }

    constructor ()
      ensures Valid() && View() == EMPTY_LOG
    {
      logQueue, currentLog, currentThreadId := [], None, None;
      closing, flushed, stopped := false, false, false;
      buffer, console := "", [];
      stream, blocks := [], [];
    }

    /** Appends an entry; `notified` says whether the serializer's condition variable was signalled. */
    method Write(e: Entry) returns (notified: bool)
      requires Valid()
      modifies this
      ensures Valid() && View() == AfterWrite(old(View()), e)
      ensures notified <==> old(currentThreadId).None? || old(currentThreadId) == Some(e.owner)
      ensures old(currentLog).None? && currentLog.Some? ==> notified
    {
      if !stopped {
        WriteKeepsConsistent(View(), e);
      }
      logQueue := logQueue + [e];
      notified := false;
      if currentThreadId.None? {
        currentLog := Some(0);
        currentThreadId := Some(logQueue[0].owner);
        notified := true;
      } else if currentThreadId == Some(e.owner) {
        if currentLog.None? {
          currentLog := Some(|logQueue| - 1);
        }
        notified := true;
      }
    }

    /** The destructor's first half: from now on the serializer drains instead of serving lines. */
    method Close()
      requires Valid()
      modifies this
      ensures Valid() && View() == old(View()).(closing := true)
    {
      closing := true;
    }

    method HandleSync()
      modifies this`flushed
      ensures flushed
    {
      flushed := true;
    }

    /** Runs a functor: its text goes to the stream, and a syncing one calls back into `HandleSync`. */
    method RunFunctor(e: Entry)
      requires TextMatches()
      modifies this`buffer, this`flushed, this`stream
      ensures TextMatches() && View() == old(View()).(stream := old(stream) + [e])
      ensures flushed == (old(flushed) || e.syncs)
    {
      buffer := buffer + e.text;
      stream := stream + [e];
      assert stream[..|stream| - 1] == old(stream);
      if e.syncs {
        HandleSync();
      }
    }

    method Flush()
      requires TextMatches()
      modifies this`buffer, this`console, this`flushed, this`stream, this`blocks
      ensures TextMatches() && !flushed
      ensures blocks == old(blocks) + [old(stream)] && stream == []
    {
      console := console + [buffer];
      blocks := blocks + [stream];
      buffer, stream := "", [];
      flushed := false;
    }

    method FindNext(from: nat, t: ThreadId) returns (r: Option<nat>)
      requires from <= |logQueue|
      ensures r == NextOf(logQueue, t, from)
    {
      var i := from;
      while i < |logQueue| && logQueue[i].owner != t
        invariant from <= i <= |logQueue|
        invariant NextOf(logQueue, t, from) == NextOf(logQueue, t, i)
      {
        i := i + 1;
      }
      r := if i == |logQueue| then None else Some(i);
    }

    /** Serves the owner of the oldest entry from now on, or no one if the list is empty. */
    method ServeOldest()
      modifies this`currentLog, this`currentThreadId
      ensures currentLog == if logQueue == [] then None else Some(0)
      ensures currentThreadId == if logQueue == [] then None else Some(logQueue[0].owner)
    {
      currentLog := if logQueue == [] then None else Some(0);
      currentThreadId := if logQueue == [] then None else Some(logQueue[0].owner);
    }

    /** One turn of the do-while loop; `again` is the loop's condition. */
    method Turn() returns (again: bool)
      requires TextMatches() && !flushed && CanExecute(View())
      modifies this
      ensures TextMatches() && !flushed && View() == Execute(old(View()))
      ensures again == CanExecute(View())
    {
      var c := currentLog.value;
      RunFunctor(logQueue[c]);
      if flushed {
        FlushAndErase(c);
      } else {
        EraseAndFind(c);
      }
      again := OnCurrentThread();
    }

    method OnCurrentThread() returns (yes: bool)
      requires currentLog.Some? ==> currentLog.value < |logQueue|
      ensures yes == CanExecute(View())
    {
      yes := currentLog.Some? && currentThreadId == Some(logQueue[currentLog.value].owner);
    }

    /** The functor flushed: print, and serve the owner of the oldest entry left. */
    method FlushAndErase(c: nat)
      requires TextMatches() && c < |logQueue|
      modifies this
      ensures TextMatches() && !flushed
      ensures var rest := Erase(old(logQueue), c);
        View() == old(View()).(queue := rest, stream := [], blocks := old(blocks) + [old(stream)],
          cursor := if rest == [] then None else Some(0),
          current := if rest == [] then None else Some(rest[0].owner))
    {
      Flush();
      logQueue := Erase(logQueue, c);
      ServeOldest();
    }

    /** The functor did not flush: on to the next entry of the same thread. */
    method EraseAndFind(c: nat)
      requires TextMatches() && c < |logQueue| && currentThreadId.Some?
      modifies this`logQueue, this`currentLog
      ensures TextMatches()
      ensures var rest := Erase(old(logQueue), c);
        View() == old(View()).(queue := rest, cursor := NextOf(rest, currentThreadId.value, c))
    {
      logQueue := Erase(logQueue, c);
      currentLog := FindNext(c, currentThreadId.value);
    }

    /**
     One iteration of the serializer thread's outer loop. `more` tells whether it goes on: it
     returns at once if the condition it waits for does not hold, and leaves its loop after a drain.
     */
    method Serialize() returns (more: bool)
      requires Valid() && !stopped
      modifies this
      ensures Valid() && View() == AfterSerialize(old(View()))
      ensures more == !stopped
    {
      if !closing && currentLog.None? {
        return true;
      }
      if closing {
        Drain();
        return false;
      }
      var again := true;
      while again
        invariant Valid() && !stopped && !closing
        invariant again == CanExecute(View())
        invariant Pass(View()) == Pass(old(View()))
        decreases |logQueue|
      {
        ExecuteKeepsConsistent(View());
        again := Turn();
      }
      more := true;
    }

    /** The shutdown branch: execute everything, flush once and stop. */
    method Drain()
      requires Valid() && !stopped && closing
      modifies this
      ensures Valid() && View() == Drained(old(View()))
    {
      ghost var order := DrainOrder(View());
      DrainList();
      assert stream == old(stream) + order && currentThreadId == LastOwner(order, old(currentThreadId));
      Flush();
      stopped := true;
    }

    /** The outer loop of the drain: pass after pass over the list, one thread's entries at a time. */
    method DrainList()
      requires TextMatches() && (currentLog.Some? ==> CursorIsFirst())
      modifies this`logQueue, this`currentLog, this`currentThreadId, this`buffer, this`flushed, this`stream
      ensures TextMatches() && logQueue == [] && currentLog.None?
      ensures var order := Pending(old(logQueue), old(currentLog), old(currentThreadId));
        stream == old(stream) + order && currentThreadId == LastOwner(order, old(currentThreadId))
    {
      ghost var order := Pending(logQueue, currentLog, currentThreadId);
      ghost var executed: seq<Entry> := [];
      assert stream == stream + executed && order == executed + order;
      while logQueue != []
        invariant TextMatches() && stream == old(stream) + executed
        invariant currentLog.Some? ==> CursorIsFirst()
        invariant order == executed + Pending(logQueue, currentLog, currentThreadId)
        invariant currentThreadId == LastOwner(executed, old(currentThreadId))
        decreases |logQueue|
      {
        ghost var mine := DrainPass();
        Regroup(old(stream), executed, mine);
        Regroup(executed, mine, Grouped(logQueue));
        executed := executed + mine;
      }
      assert executed + [] == executed;
    }

    /** The cursor stands on the first pending entry of the current thread. */
    ghost predicate CursorIsFirst()
      reads this
    {
      CanExecute(View()) && NoneOwnedBy(logQueue[..currentLog.value], currentThreadId.value)
    }

    /** One turn of the outer loop: choose the oldest entry's thread if none is being served. */
    method DrainPass() returns (ghost mine: seq<Entry>)
      requires TextMatches() && logQueue != [] && (currentLog.Some? ==> CursorIsFirst())
      modifies this`logQueue, this`currentLog, this`currentThreadId, this`buffer, this`flushed, this`stream
      ensures TextMatches() && currentLog.None? && |logQueue| < |old(logQueue)|
      ensures mine != [] && stream == old(stream) + mine && currentThreadId == LastOwner(mine, None)
      ensures Pending(old(logQueue), old(currentLog), old(currentThreadId)) == mine + Grouped(logQueue)
    {
      if currentLog.None? {
        currentLog := Some(0);
        currentThreadId := Some(logQueue[0].owner);
      }
      mine := OwnedBy(logQueue, currentThreadId.value);
      DrainThread();
    }

    /** The inner loop of the drain: execute what the current thread still has in the list. */
    method DrainThread()
      requires TextMatches() && CursorIsFirst()
      modifies this`logQueue, this`currentLog, this`buffer, this`flushed, this`stream
      ensures TextMatches() && currentLog.None?
      ensures var t := currentThreadId.value; var mine := OwnedBy(old(logQueue), t);
        && logQueue == OwnedByOthers(old(logQueue), t) && |logQueue| < |old(logQueue)|
        && stream == old(stream) + mine && mine != [] && mine[|mine| - 1].owner == t
    {
      ghost var q, t := logQueue, currentThreadId.value;
      ghost var c := currentLog.value;
      ghost var done := c;   // how much of the original list the cursor has passed
      ScanStart(q, t, c);
      ghost var mine := [];
      while currentLog.Some?
        invariant TextMatches() && c <= done <= |q|
        invariant currentLog == ScanCursor(q, t, done)
        invariant logQueue == Scanned(q, t, done)
        invariant mine == OwnedBy(q[..done], t) && stream == old(stream) + mine
        decreases |q| - done
      {
        ghost var ran := ScanTurn(q, t, done);
        Regroup(old(stream), mine, ran);
        mine, done := mine + ran, done + 1;
      }
      ScanEnd(q, t, c);
    }

    method RunAndErase(c: nat)
      requires TextMatches() && c < |logQueue|
      modifies this`logQueue, this`buffer, this`flushed, this`stream
      ensures TextMatches() && stream == old(stream) + [old(logQueue)[c]] && logQueue == Erase(old(logQueue), c)
    {
      RunFunctor(logQueue[c]);
      logQueue := Erase(logQueue, c);
    }

    /** One turn of the inner loop, with the cursor on the entry at position `done` of the original list. */
    method ScanTurn(ghost q: seq<Entry>, ghost t: ThreadId, ghost done: nat) returns (ghost ran: seq<Entry>)
      requires TextMatches() && currentThreadId == Some(t) && done < |q|
      requires logQueue == Scanned(q, t, done) && currentLog == ScanCursor(q, t, done)
      modifies this`logQueue, this`currentLog, this`buffer, this`flushed, this`stream
      ensures TextMatches()
      ensures logQueue == Scanned(q, t, done + 1) && currentLog == ScanCursor(q, t, done + 1)
      ensures stream == old(stream) + ran && OwnedBy(q[..done + 1], t) == OwnedBy(q[..done], t) + ran
    {
      ScanStep(q, t, done);
      var c := currentLog.value;
      ran := if q[done].owner == t then [q[done]] else [];
      if currentThreadId == Some(logQueue[c].owner) {
        RunAndErase(c);
      } else {
        c := c + 1;
      }
      currentLog := if c == |logQueue| then None else Some(c);
    }
  }

  /** The texts of the entries of each block, one after the other. */
  function Printed(blocks: seq<Block>): (r: seq<string>)
    ensures |r| == |blocks| && forall i :: 0 <= i < |blocks| ==> r[i] == Flatten(TextsOf(blocks[i]))
  {
    if blocks == [] then [] else [Flatten(TextsOf(blocks[0]))] + Printed(blocks[1..])
  }

  /** In every state of the object the console shows the entries' texts, and the buffer the rest. */
  lemma ConsoleIsPrinted(log: Log)
    requires log.Valid()
    ensures log.console == Printed(log.blocks) && log.buffer == Flatten(TextsOf(log.stream))
  {
    RenderIsTexts(log.stream);
    forall i | 0 <= i < |log.console|
      ensures log.console[i] == Flatten(TextsOf(log.blocks[i]))
    {
      RenderIsTexts(log.blocks[i]);
    }
  }

  /**
   The output as text. A log that has gone through any run of writes and wake-ups has sent to the
   console, flush by flush, the texts of the blocks of the reference semantics, in their order; at
   rest it has sent all of them, and its buffer holds the text of the unfinished line.
   */
  lemma ConsoleShowsReference(log: Log, steps: seq<Step>)
    requires log.Valid() && log.View() == Run(steps) && StaysOpen(steps)
    ensures log.console <= Printed(Reference(Writes(steps)).blocks)
    ensures log.currentLog.None? ==> log.console == Printed(Reference(Writes(steps)).blocks)
    ensures log.currentLog.None? ==> log.buffer == Flatten(TextsOf(Reference(Writes(steps)).line))
  {
    ConsoleIsPrinted(log);
    OutputIsReference(steps);
  }

  /** What the drain still has to execute, from any point between two of its scans. */
  ghost function Pending(q: seq<Entry>, cursor: Option<nat>, current: Option<ThreadId>): seq<Entry> {
    DrainOrder(EMPTY_LOG.(queue := q, cursor := cursor, current := current))
  }

  ghost function LastOwner(w: seq<Entry>, otherwise: Option<ThreadId>): Option<ThreadId> {
    if w == [] then otherwise else Some(w[|w| - 1].owner)
  }

  // ---------------------------------------------------------------- one scan of the drain

  /** The list when the cursor has passed `done` of its original entries, erasing those of `t`. */
  ghost function Scanned(q: seq<Entry>, t: ThreadId, done: nat): seq<Entry>
    requires done <= |q|
  {
    OwnedByOthers(q[..done], t) + q[done..]
  }

  /** Where the cursor stands then. */
  ghost function ScanCursor(q: seq<Entry>, t: ThreadId, done: nat): Option<nat>
    requires done <= |q|
  {
    if done == |q| then None else Some(|OwnedByOthers(q[..done], t)|)
  }

  lemma ScanStart(q: seq<Entry>, t: ThreadId, c: nat)
    requires c <= |q| && NoneOwnedBy(q[..c], t)
    ensures Scanned(q, t, c) == q && |OwnedByOthers(q[..c], t)| == c && OwnedBy(q[..c], t) == []
  {
    OwnedByNone(q[..c], t);
    assert q[..c] + q[c..] == q;
  }

  lemma ScanStep(q: seq<Entry>, t: ThreadId, done: nat)
    requires done < |q|
    ensures var c := |OwnedByOthers(q[..done], t)|; var list := Scanned(q, t, done);
      && c < |list| && list[c] == q[done]
      && Scanned(q, t, done + 1) == (if q[done].owner == t then Erase(list, c) else list)
      && |OwnedByOthers(q[..done + 1], t)| == (if q[done].owner == t then c else c + 1)
      && OwnedBy(q[..done + 1], t) == OwnedBy(q[..done], t) + (if q[done].owner == t then [q[done]] else [])
  {
    SelectOneMore(q, t, done);
    assert q[done..] == [q[done]] + q[done + 1..];
    EraseBetween(OwnedByOthers(q[..done], t), q[done], q[done + 1..]);
  }

  lemma SelectOneMore(q: seq<Entry>, t: ThreadId, done: nat)
    requires done < |q|
    ensures OwnedBy(q[..done + 1], t) == OwnedBy(q[..done], t) + (if q[done].owner == t then [q[done]] else [])
    ensures OwnedByOthers(q[..done + 1], t)
      == OwnedByOthers(q[..done], t) + (if q[done].owner == t then [] else [q[done]])
  {
    assert q[..done + 1] == q[..done] + [q[done]];
    OwnedByConcat(q[..done], [q[done]], t);
    OthersConcat(q[..done], [q[done]], t);
  }

  lemma EraseBetween(pre: seq<Entry>, e: Entry, post: seq<Entry>)
    ensures var list := pre + ([e] + post);
      list[|pre|] == e && Erase(list, |pre|) == pre + post && list == pre + [e] + post
  {
  }

  lemma ScanEnd(q: seq<Entry>, t: ThreadId, c: nat)
    requires c < |q| && q[c].owner == t
    ensures q[..|q|] == q && Scanned(q, t, |q|) == OwnedByOthers(q, t)
    ensures var mine := OwnedBy(q, t); mine != [] && mine[|mine| - 1].owner == t
    ensures |OwnedByOthers(q, t)| < |q|
  {
    assert q == q[..c] + ([q[c]] + q[c + 1..]);
    OwnedByConcat(q[..c], [q[c]] + q[c + 1..], t);
    OthersConcat(q[..c], [q[c]] + q[c + 1..], t);
    OwnedByIsOwned(q, t);
  }
}
