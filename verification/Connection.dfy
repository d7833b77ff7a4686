/**
 The connection's reader and writer. The socket is modelled by what the peer's bytes look like
 when they arrive (the fragments), by what has been written to it, and by how much it still takes
 before it fails.
 */
module Connections {
  import opened Wrappers
  import opened Bytes
  import opened Messages
  import opened Framing
  import opened Sequences

  /** No message without priority comes before one with priority. */
  ghost predicate PriorityFirst(ms: seq<MessageValue>) {
    forall i, j :: 0 <= i < j < |ms| && ms[j].header.hasPriority ==> ms[i].header.hasPriority
  }

  /** Nothing in the queue has to be served before `m`. */
  predicate IsTop(m: MessageValue, queue: multiset<MessageValue>) {
    m.header.hasPriority || forall other <- queue :: !other.header.hasPriority
  }

  class Connection {
    /** What read_some will still return, fragment by fragment; when none is left it fails. */
    var fragments: seq<seq<byte>>
    /** What the socket has taken, and how many more bytes it takes before it fails, if it will. */
    var written: seq<byte>
    var room: Option<nat>
    var connected: bool
    var isReading: bool
    var isWriting: bool
    /** The queue shared by all connections, in the order of pushing. */
    var incoming: seq<MessageValue>
    var outgoing: multiset<MessageValue>
    const temporary: Message

    ghost predicate Valid()
      reads this
    {
      forall f <- fragments :: |f| > 0
    }

    ghost function Unread(): seq<byte>
      reads this
    {
      Flatten(fragments)
    }

    constructor (fragments: seq<seq<byte>>, room: Option<nat>, incoming: seq<MessageValue>)
      requires forall f <- fragments :: |f| > 0
      ensures Valid() && fresh(temporary)
      ensures this.fragments == fragments && this.room == room && this.incoming == incoming
      ensures written == [] && outgoing == multiset{} && temporary.View() == EMPTY_MESSAGE && connected
    {
      this.fragments, this.room, this.incoming := fragments, room, incoming;
      written, outgoing := [], multiset{};
      connected, isReading, isWriting := true, true, false;
      temporary := new Message();
    }

    // -------------------------------------------------------------- the socket

    /**
     The socket's read_some: at least one byte and at most `most` go to the buffer at `offset`, or
     there is an error; a fragment that does not fit is cut.
     */
    method ReadSome(buffer: array<byte>, offset: nat, most: nat) returns (read: nat, failed: bool)
      requires Valid() && 0 < most && offset + most <= buffer.Length
      modifies this`fragments, buffer
      ensures Valid()
      ensures failed <==> old(fragments) == []
      ensures failed ==> read == 0 && fragments == [] && buffer[..] == old(buffer[..])
      ensures !failed ==> 0 < read <= most
      ensures !failed ==> buffer[..offset + read] + Unread() == old(buffer[..offset] + Unread())
    {
      if fragments == [] {
        return 0, true;
      }
      var first := fragments[0];
      read := if |first| < most then |first| else most;
      CopyTo(buffer, offset, first[..read]);
      fragments := (if read < |first| then [first[read..]] else []) + fragments[1..];
      failed := false;
      CutFragment(old(fragments), read);
      Regroup(old(buffer[..offset]), first[..read], Unread());
    }

    static method CopyTo(buffer: array<byte>, offset: nat, data: seq<byte>)
      requires offset + |data| <= buffer.Length
      modifies buffer
      ensures buffer[..offset + |data|] == old(buffer[..offset]) + data
    {
      forall i | 0 <= i < |data| {
        buffer[offset + i] := data[i];
      }
    }

    /** The socket's write: all the bytes, or as many as it takes and an error. */
    method Write(data: seq<byte>) returns (failed: bool)
      modifies this`written, this`room
      ensures failed <==> !Fits(data, old(room))
      ensures Wrote(old(written), old(room), data, written, room)
    {
      failed := room.Some? && room.value < |data|;
      written := written + if failed then data[..room.value] else data;
      room := match room
        case None => None
        case Some(r) => Some(if failed then 0 else r - |data|);
    }

    method Disconnect()
      modifies this`connected
      ensures !connected
    {
      connected := false;
    }

    // -------------------------------------------------------------- the reader

    method ReadData(buffer: array<byte>, toRead: nat) returns (ok: bool)
      requires Valid() && toRead <= buffer.Length
      modifies this`fragments, this`connected, buffer
      ensures Valid()
      ensures ok <==> toRead <= |old(Unread())|
      ensures ok ==> old(Unread()) == buffer[..toRead] + Unread() && connected == old(connected)
      ensures !ok ==> Unread() == [] && !connected
    {
      var left := toRead;
      assert buffer[..0] == [];
      while left > 0
        invariant Valid() && 0 <= left <= toRead && connected == old(connected)
        invariant old(Unread()) == buffer[..toRead - left] + Unread()
      {
        var offset := toRead - left;
        var read, failed := ReadSome(buffer, offset, left);
        if failed {
          Disconnect();
          return false;
        }
        left := left - read;
      }
      ok := true;
    }

    method ReadHeader() returns (ok: bool)
      requires Valid()
      modifies this`fragments, this`connected, temporary
      ensures Valid() && temporary.body == old(temporary.body)
      ensures ok <==> |old(Unread())| >= HEADER_SIZE
      ensures ok ==> temporary.header == DecodeHeader(old(Unread())[..HEADER_SIZE])
      ensures ok ==> Unread() == old(Unread())[HEADER_SIZE..] && connected == old(connected)
      ensures !ok ==> Unread() == [] && !connected && temporary.View() == old(temporary.View())
    {
      var buffer := new byte[HEADER_SIZE];
      ok := ReadData(buffer, HEADER_SIZE);
      if ok {
        assert old(Unread())[..HEADER_SIZE] == buffer[..];
        temporary.header := DecodeHeader(buffer[..]);
      }
    }

    method ReadBody() returns (ok: bool)
      requires Valid() && temporary.body == []
      modifies this`fragments, this`connected, temporary
      ensures Valid()
      ensures ok <==> |old(Unread())| >= old(temporary.header.size)
      ensures ok ==> temporary.View() == MessageValue(old(temporary.header), old(Unread())[..old(temporary.header.size)])
      ensures ok ==> Unread() == old(Unread())[old(temporary.header.size)..] && connected == old(connected)
      ensures !ok ==> Unread() == [] && !connected && temporary.View() == old(temporary.View())
    {
      var size := temporary.header.size;
      var buffer := new byte[size];
      ok := ReadData(buffer, size);
      if ok {
        assert old(Unread())[..size] == buffer[..];
        temporary.Push(buffer[..]);
      }
    }

    method AddToIncomingMessageQueue()
      modifies this`incoming, temporary
      ensures incoming == old(incoming) + [old(temporary.View())]
      ensures temporary.View() == Cleared(old(temporary.View()))
    {
      incoming := incoming + [MessageValue(temporary.header, temporary.body)];
      temporary.Clear();
    }

    /**
     Reads until the socket fails. However the bytes were cut, what is queued is what the stream of
     bytes carries; an incomplete last frame is dropped.
     */
    method ReadMessages()
      requires Valid() && temporary.body == []
      modifies this`fragments, this`connected, this`incoming, this`isReading, temporary
      ensures Valid() && !isReading && !connected && Unread() == []
      ensures incoming == old(incoming) + ParseStream(old(Unread()))
    {
      ghost var delivered: seq<MessageValue> := [];
      while true
        invariant Valid() && temporary.body == []
        invariant incoming == old(incoming) + delivered
        invariant ParseStream(old(Unread())) == delivered + ParseStream(Unread())
        decreases |Unread()|
      {
        ghost var stream := Unread();
        var header := ReadHeader();
        if !header {
          AppendToNothing(delivered);
          break;
        }
        var body := ReadBody();
        if !body {
          AppendToNothing(delivered);
          break;
        }
        ghost var message := temporary.View();
        AddToIncomingMessageQueue();
        FirstMessageRead(stream, message, Unread());
        Regroup(delivered, [message], ParseStream(Unread()));
        Regroup(old(incoming), delivered, [message]);
        delivered := delivered + [message];
      }
      isReading := false;
    }

    // -------------------------------------------------------------- the writer

    method Send(m: Message)
      modifies this`outgoing, this`isWriting
      ensures outgoing == old(outgoing) + multiset{m.View()} && isWriting
    {
      outgoing := outgoing + multiset{MessageValue(m.header, m.body)};
      isWriting := true;
    }

    /** Takes one of the messages that nothing else in the queue precedes. */
    method Pop() returns (m: MessageValue)
      requires outgoing != multiset{}
      modifies this`outgoing
      ensures m in old(outgoing) && IsTop(m, old(outgoing))
      ensures outgoing == old(outgoing) - multiset{m}
    {
      SomeTop(outgoing);
      m :| m in outgoing && IsTop(m, outgoing);
      outgoing := outgoing - multiset{m};
    }

    method WriteHeader(m: MessageValue, padding: Padding) returns (ok: bool)
      modifies this`written, this`room, this`connected
      ensures ok <==> Fits(HeaderBytes(m.header, padding), old(room))
      ensures Wrote(old(written), old(room), HeaderBytes(m.header, padding), written, room)
      ensures connected == (ok && old(connected))
    {
      var failed := Write(HeaderBytes(m.header, padding));
      if failed {
        Disconnect();
      }
      ok := !failed;
    }

    method WriteBody(m: MessageValue) returns (ok: bool)
      modifies this`written, this`room, this`connected
      ensures ok <==> Fits(m.body, old(room))
      ensures Wrote(old(written), old(room), m.body, written, room)
      ensures connected == (ok && old(connected))
    {
      var failed := Write(m.body);
      if failed {
        Disconnect();
      }
      ok := !failed;
    }

    /** Writes one message, a header and a body unless that is empty. */
    method WriteMessage(m: MessageValue, padding: Padding) returns (ok: bool)
      modifies this`written, this`room, this`connected
      ensures ok <==> Fits(FrameBytes(m, padding), old(room))
      ensures Wrote(old(written), old(room), FrameBytes(m, padding), written, room)
      ensures connected == (ok && old(connected))
    {
      ok := WriteHeader(m, padding);
      ghost var before, left := written, room;
      if ok && m.header.size > 0 {
        ok := WriteBody(m);
      }
      WroteMore(old(written), old(room), HeaderBytes(m.header, padding), before, left,
                if m.header.size > 0 then m.body else [], written, room);
    }

    /** Writes the message at the top of the queue; when that fails, the queue is cleared. */
    method WriteNext() returns (m: MessageValue, padding: Padding, ok: bool)
      requires outgoing != multiset{}
      modifies this`written, this`room, this`connected, this`outgoing
      ensures m in old(outgoing) && IsTop(m, old(outgoing))
      ensures outgoing == if ok then old(outgoing) - multiset{m} else multiset{}
      ensures ok <==> Fits(FrameBytes(m, padding), old(room))
      ensures Wrote(old(written), old(room), FrameBytes(m, padding), written, room)
      ensures connected == (ok && old(connected))
    {
      m := Pop();
      padding := *;
      ok := WriteMessage(m, padding);
      if !ok {
        outgoing := multiset{};
      }
    }

    /**
     Writes until the queue is empty or the socket fails. `order` are the messages that were taken
     from the queue: those with priority first, all of them unless the socket failed. The socket has
     taken their frames one after the other, as far as it could.
     */
    method WriteMessages() returns (ghost order: seq<MessageValue>, ghost paddings: seq<Padding>)
      modifies this`written, this`room, this`connected, this`outgoing, this`isWriting
      ensures outgoing == multiset{} && !isWriting
      ensures |order| == |paddings| && PriorityFirst(order)
      ensures multiset(order) <= old(outgoing)
      ensures written == old(written) + Taken(Wire(order, paddings), old(room))
      ensures Fits(Wire(order, paddings), old(room)) ==> multiset(order) == old(outgoing) && connected == old(connected)
      ensures !Fits(Wire(order, paddings), old(room)) ==> !connected && AllButLastFit(order, paddings, old(room))
    {
      ghost var all, start, space := outgoing, written, room;
      ghost var left;
      order, paddings, left := WriteQueue();
      ProgressEnds(all, start, space, order, paddings, left, written, room);
      isWriting := false;
    }

    /** The loop over the queue; `left` is what was still in it when the socket failed, if it did. */
    method WriteQueue()
      returns (ghost order: seq<MessageValue>, ghost paddings: seq<Padding>, ghost left: multiset<MessageValue>)
      modifies this`written, this`room, this`connected, this`outgoing
      ensures outgoing == multiset{}
      ensures Progress(old(outgoing), old(written), old(room), order, paddings, left, written, room)
      ensures if Fits(Wire(order, paddings), old(room)) then left == multiset{} && connected == old(connected)
              else !connected && AllButLastFit(order, paddings, old(room))
    {
      order, paddings, left := [], [], outgoing;
      AppendToNothing(written);
      while outgoing != multiset{}
        invariant Progress(old(outgoing), old(written), old(room), order, paddings, left, written, room)
        invariant outgoing == left && Fits(Wire(order, paddings), old(room)) && connected == old(connected)
        decreases outgoing
      {
        ghost var before, space := written, room;
        var m, padding, ok := WriteNext();
        ProgressMore(old(outgoing), old(written), old(room), order, paddings, left, before, space,
                     m, padding, written, room);
        order, paddings, left := order + [m], paddings + [padding], left - multiset{m};
        if !ok {
          break;
        }
      }
    }
  }

  // ---------------------------------------------------------------- what a failing socket takes

  predicate Fits(data: seq<byte>, room: Option<nat>) {
    room.None? || |data| <= room.value
  }

  /** The bytes taken: as many of the first as there is room for. */
  function Taken(data: seq<byte>, room: Option<nat>): (taken: seq<byte>)
    ensures taken <= data
    ensures |taken| == if room.None? || |data| <= room.value then |data| else room.value
  {
    if Fits(data, room) then data else data[..room.value]
  }

  function Remaining(data: seq<byte>, room: Option<nat>): (left: Option<nat>)
    ensures left.Some? == room.Some?
    ensures room.Some? ==> left.value + |Taken(data, room)| == room.value
  {
    match room
    case None => None
    case Some(r) => Some(if r < |data| then 0 else r - |data|)
  }

  /** What the socket had taken and could still take, before and after it was given `data`. */
  predicate Wrote(before: seq<byte>, room: Option<nat>, data: seq<byte>, after: seq<byte>, left: Option<nat>) {
    after == before + Taken(data, room) && left == Remaining(data, room)
  }

  lemma WroteMore(s: seq<byte>, room: Option<nat>, a: seq<byte>, s': seq<byte>, room': Option<nat>, b: seq<byte>,
                  s'': seq<byte>, room'': Option<nat>)
    requires Wrote(s, room, a, s', room')
    requires if Fits(a, room) then Wrote(s', room', b, s'', room'') else s'' == s' && room'' == room'
    ensures Wrote(s, room, a + b, s'', room'')
    ensures Fits(a + b, room) <==> Fits(a, room) && Fits(b, room')
  {
    if Fits(a, room) {
      Regroup(s, a, Taken(b, room'));
    }
  }

  ghost predicate AllButLastFit(order: seq<MessageValue>, paddings: seq<Padding>, room: Option<nat>)
    requires |order| == |paddings|
  {
    var n := |order| - 1;
    n >= 0 && Fits(Wire(order[..n], paddings[..n]), room)
  }

  /** What has been taken from a queue and what is left of it. */
  ghost predicate InOrder(order: seq<MessageValue>, queue: multiset<MessageValue>, all: multiset<MessageValue>) {
    && multiset(order) + queue == all
    && PriorityFirst(order)
    && forall m <- queue, n <- order :: m.header.hasPriority ==> n.header.hasPriority
  }

  lemma InOrderAppend(order: seq<MessageValue>, queue: multiset<MessageValue>, all: multiset<MessageValue>, m: MessageValue)
    requires InOrder(order, queue, all) && m in queue && IsTop(m, queue)
    ensures InOrder(order + [m], queue - multiset{m}, all)
  {
    assert multiset(order + [m]) == multiset(order) + multiset{m};
    forall i, j | 0 <= i < j < |order + [m]| && (order + [m])[j].header.hasPriority
      ensures (order + [m])[i].header.hasPriority
    {
      assert order[i] in order;
    }
  }

  /** How far a writer is that found a queue, a socket's bytes and its room: what it took and wrote. */
  ghost predicate Progress(
    all: multiset<MessageValue>, start: seq<byte>, space: Option<nat>,
    order: seq<MessageValue>, paddings: seq<Padding>, queue: multiset<MessageValue>, written: seq<byte>, room: Option<nat>)
  {
    |order| == |paddings| && InOrder(order, queue, all) && Wrote(start, space, Wire(order, paddings), written, room)
  }

  lemma ProgressEnds(
    all: multiset<MessageValue>, start: seq<byte>, space: Option<nat>,
    order: seq<MessageValue>, paddings: seq<Padding>, queue: multiset<MessageValue>, written: seq<byte>, room: Option<nat>)
    requires Progress(all, start, space, order, paddings, queue, written, room)
    ensures PriorityFirst(order) && multiset(order) <= all && (queue == multiset{} ==> multiset(order) == all)
    ensures written == start + Taken(Wire(order, paddings), space)
  {
    assert queue == multiset{} ==> multiset(order) + queue == multiset(order);
  }

  lemma ProgressMore(
    all: multiset<MessageValue>, start: seq<byte>, space: Option<nat>,
    order: seq<MessageValue>, paddings: seq<Padding>, queue: multiset<MessageValue>, before: seq<byte>, left: Option<nat>,
    m: MessageValue, padding: Padding, written: seq<byte>, room: Option<nat>)
    requires Progress(all, start, space, order, paddings, queue, before, left) && Fits(Wire(order, paddings), space)
    requires m in queue && IsTop(m, queue) && Wrote(before, left, FrameBytes(m, padding), written, room)
    ensures Progress(all, start, space, order + [m], paddings + [padding], queue - multiset{m}, written, room)
    ensures Fits(Wire(order + [m], paddings + [padding]), space) <==> Fits(FrameBytes(m, padding), left)
    ensures AllButLastFit(order + [m], paddings + [padding], space)
  {
    WireAppend(order, paddings, m, padding);
    WroteMore(start, space, Wire(order, paddings), before, left, FrameBytes(m, padding), written, room);
    InOrderAppend(order, queue, all, m);
    assert (order + [m])[..|order|] == order && (paddings + [padding])[..|order|] == paddings;
  }

  lemma {:induction false} WireAppend(ms: seq<MessageValue>, ps: seq<Padding>, m: MessageValue, p: Padding)
    requires |ms| == |ps|
    ensures Wire(ms + [m], ps + [p]) == Wire(ms, ps) + FrameBytes(m, p)
  {
    if ms == [] {
      assert Wire([m][1..], [p][1..]) == [];
      AppendToNothing(FrameBytes(m, p));
    } else {
      assert (ms + [m])[1..] == ms[1..] + [m] && (ps + [p])[1..] == ps[1..] + [p];
      WireAppend(ms[1..], ps[1..], m, p);
      Regroup(FrameBytes(ms[0], ps[0]), Wire(ms[1..], ps[1..]), FrameBytes(m, p));
    }
  }

  lemma SomeTop(queue: multiset<MessageValue>)
    requires queue != multiset{}
    ensures exists m :: m in queue && IsTop(m, queue)
  {
    var any :| any in queue;
    if !IsTop(any, queue) {
      var m :| m in queue && m.header.hasPriority;
      assert IsTop(m, queue);
    }
  }

  lemma CutFragment(fragments: seq<seq<byte>>, n: nat)
    requires fragments != [] && n <= |fragments[0]|
    ensures Flatten(fragments) == fragments[0][..n]
      + Flatten((if n < |fragments[0]| then [fragments[0][n..]] else []) + fragments[1..])
  {
    var first, others := fragments[0], fragments[1..];
    if n < |first| {
      FlattenConcat([first[n..]], others);
      FlattenOne(first[n..]);
      SplitAt(first, n);
      Regroup(first[..n], first[n..], Flatten(others));
    } else {
      AppendToNothing(others);
      SplitAt(first, n);
    }
  }

  lemma FirstMessageRead(stream: seq<byte>, m: MessageValue, rest: seq<byte>)
    requires HasFrame(stream)
    requires m.header == DecodeHeader(stream[..HEADER_SIZE])
    requires m.body == stream[HEADER_SIZE..][..m.header.size]
    requires rest == stream[HEADER_SIZE..][m.header.size..]
    ensures ParseStream(stream) == [m] + ParseStream(rest)
  {
    assert stream[HEADER_SIZE..FrameSize(stream)] == m.body;
    assert stream[FrameSize(stream)..] == rest;
  }

  /** As far as a socket takes the bytes, they carry a prefix of the messages, and all only if it takes all. */
  lemma TakenCarriesPrefix(order: seq<MessageValue>, paddings: seq<Padding>, room: Option<nat>)
    requires |order| == |paddings| && forall m <- order :: Sendable(m)
    ensures ParseStream(Taken(Wire(order, paddings), room)) <= order
    ensures ParseStream(Taken(Wire(order, paddings), room)) == order <==> Fits(Wire(order, paddings), room)
  {
    if Fits(Wire(order, paddings), room) {
      WireCarriesMessages(order, paddings);
    } else {
      PrefixDeliversPrefix(order, paddings, room.value);
      ArrivedIsLargest(order, paddings, room.value, |order|);
      assert order[..|order|] == order && paddings[..|order|] == paddings;
    }
  }

  // ---------------------------------------------------------------- from a sender to a receiver

  /** The fragments of these sizes in which some bytes arrive, as far as the sizes go; none is empty. */
  function Cut(data: seq<byte>, sizes: seq<nat>): (fragments: seq<seq<byte>>)
    ensures Flatten(fragments) == data
    ensures forall f <- fragments :: |f| > 0
    decreases |sizes|
  {
    if data == [] then []
    else if sizes == [] || sizes[0] >= |data| then FlattenOne(data); [data]
    else if sizes[0] == 0 then Cut(data, sizes[1..])
    else SplitAt(data, sizes[0]); [data[..sizes[0]]] + Cut(data[sizes[0]..], sizes[1..])
  }

  function Sizes(fragments: seq<seq<byte>>): seq<nat> {
    if fragments == [] then [] else [|fragments[0]|] + Sizes(fragments[1..])
  }

  /** Every way of cutting the bytes into fragments that are not empty is one of these. */
  lemma {:induction false} EveryCut(fragments: seq<seq<byte>>)
    requires forall f <- fragments :: |f| > 0
    ensures Cut(Flatten(fragments), Sizes(fragments)) == fragments
  {
    if fragments != [] {
      var first, others := fragments[0], fragments[1..];
      EveryCut(others);
      assert (first + Flatten(others))[..|first|] == first && (first + Flatten(others))[|first|..] == Flatten(others);
      if others == [] {
        AppendToNothing(first);
      } else {
        assert others[0] in fragments;
      }
    }
  }

  lemma PrefixOfOrder(part: seq<MessageValue>, order: seq<MessageValue>, all: multiset<MessageValue>)
    requires part <= order && PriorityFirst(order) && multiset(order) <= all
    ensures PriorityFirst(part)
    ensures part != order ==> multiset(part) != all
  {
    if part != order {
      assert |multiset(part)| == |part| && |multiset(order)| == |order|;
      assert all == multiset(order) + (all - multiset(order));
    }
  }

  /** What has arrived, compared with what was queued. */
  ghost predicate Arrives(
    incoming: seq<MessageValue>, order: seq<MessageValue>, all: multiset<MessageValue>, complete: bool)
  {
    && multiset(order) <= all && PriorityFirst(order) && PriorityFirst(incoming)
    && incoming <= order && (incoming == order <==> complete)
    && (multiset(incoming) == all <==> complete)
  }

  lemma QueueArrives(
    incoming: seq<MessageValue>, order: seq<MessageValue>, paddings: seq<Padding>, all: multiset<MessageValue>,
    room: Option<nat>)
    requires |order| == |paddings| && PriorityFirst(order) && multiset(order) <= all
    requires Fits(Wire(order, paddings), room) ==> multiset(order) == all
    requires forall m <- all :: Sendable(m)
    requires incoming == ParseStream(Taken(Wire(order, paddings), room))
    ensures Arrives(incoming, order, all, Fits(Wire(order, paddings), room))
  {
    forall m <- order
      ensures Sendable(m)
    {
      assert m in multiset(order);
    }
    TakenCarriesPrefix(order, paddings, room);
    PrefixOfOrder(incoming, order, all);
  }

  /**
   From the sender's queue to the receiver's. The sender writes its queue; the bytes its socket took
   arrive at the receiver in whatever fragments, and there the connection ends. Then the receiver has
   queued a prefix of the messages in the order in which the sender took them, priority first, and
   all of the sender's messages if and only if its socket took all the bytes.
   */
  method Deliver(sender: Connection, sizes: seq<nat>)
    returns (receiver: Connection, ghost order: seq<MessageValue>, ghost paddings: seq<Padding>)
    requires forall m <- sender.outgoing :: Sendable(m)
    modifies sender
    ensures fresh(receiver) && sender.outgoing == multiset{} && |order| == |paddings|
    ensures sender.written == old(sender.written) + Taken(Wire(order, paddings), old(sender.room))
    ensures Arrives(receiver.incoming, order, old(sender.outgoing), Fits(Wire(order, paddings), old(sender.room)))
  {
    var sent := |sender.written|;
    order, paddings := sender.WriteMessages();
    var bytes := sender.written[sent..];
    assert bytes == Taken(Wire(order, paddings), old(sender.room));
    receiver := new Connection(Cut(bytes, sizes), None, []);
    receiver.ReadMessages();
    AppendToNothing(ParseStream(bytes));
    QueueArrives(receiver.incoming, order, paddings, old(sender.outgoing), old(sender.room));
  }
}
