/**
 Network messages: a header and a body that serves as a stack of bytes. A value is pushed by
 appending the bytes of its representation and popped by taking as many off the end.
 */
module Messages {
  import opened Bytes
  import opened Integers
  import opened Sequences

  datatype Header = Header(kind: byte, id: uint16, hasPriority: bool, disconnecting: bool, size: nat)

  datatype MessageValue = MessageValue(header: Header, body: seq<byte>)

  const EMPTY_MESSAGE := MessageValue(Header(0, 0, false, false, 0), [])

  predicate WellFormed(m: MessageValue) {
    m.header.size == |m.body|
  }

  function WithBody(m: MessageValue, body: seq<byte>): MessageValue {
    MessageValue(m.header.(size := |body|), body)
  }

  /** `operator<<`, for a single value, a vector and a string alike. */
  function Pushed(m: MessageValue, data: seq<byte>): MessageValue {
    WithBody(m, m.body + data)
  }

  /** The message and the destination after a pop. */
  datatype Pop = Pop(rest: MessageValue, data: seq<byte>)

  /** `operator>>` into a destination that holds `data`: too short a message changes neither. */
  function Popped(m: MessageValue, data: seq<byte>): (r: Pop)
    ensures |r.data| == |data|
  {
    if |m.body| < |data| then Pop(m, data)
    else
      var after := |m.body| - |data|;
      Pop(WithBody(m, m.body[..after]), m.body[after..])
  }

  function Cleared(m: MessageValue): MessageValue {
    MessageValue(m.header.(id := 0, hasPriority := false, size := 0), [])
  }

  // ---------------------------------------------------------------- the stack discipline

  function PushAll(m: MessageValue, items: seq<seq<byte>>): MessageValue
    decreases |items|
  {
    if items == [] then m else PushAll(Pushed(m, items[0]), items[1..])
  }

  datatype Pops = Pops(rest: MessageValue, data: seq<seq<byte>>)

  function PopAll(m: MessageValue, data: seq<seq<byte>>): Pops
    decreases |data|
  {
    if data == [] then Pops(m, [])
    else
      var first := Popped(m, data[0]);
      var others := PopAll(first.rest, data[1..]);
      Pops(others.rest, [first.data] + others.data)
  }

  function Reversed<T>(s: seq<T>): seq<T> {
    if s == [] then [] else Reversed(s[1..]) + [s[0]]
  }

  /** Destinations that can take the items: one of the same size for each. */
  ghost predicate SameSizes(data: seq<seq<byte>>, items: seq<seq<byte>>) {
    |data| == |items| && forall i :: 0 <= i < |data| ==> |data[i]| == |items[i]|
  }

  lemma PopUndoesPush(m: MessageValue, item: seq<byte>, data: seq<byte>)
    requires |data| == |item|
    ensures Popped(Pushed(m, item), data) == Pop(WithBody(m, m.body), item)
  {
  }

  lemma {:induction false} PopAllConcat(m: MessageValue, a: seq<seq<byte>>, b: seq<seq<byte>>)
    ensures var first := PopAll(m, a); var second := PopAll(first.rest, b);
      PopAll(m, a + b) == Pops(second.rest, first.data + second.data)
    decreases |a|
  {
    if a == [] {
      AppendToNothing(b);
      AppendToNothing(PopAll(m, b).data);
    } else {
      assert (a + b)[1..] == a[1..] + b;
      var first := Popped(m, a[0]);
      PopAllConcat(first.rest, a[1..], b);
      Regroup([first.data], PopAll(first.rest, a[1..]).data, PopAll(PopAll(first.rest, a[1..]).rest, b).data);
    }
  }

  lemma {:induction false} ReversedLength<T>(s: seq<T>)
    ensures |Reversed(s)| == |s|
  {
    if s != [] {
      ReversedLength(s[1..]);
    }
  }

  /**
   The body is a stack: whatever is pushed, in whatever sizes, comes back by popping in reverse
   order, and the message is as before.
   */
  lemma {:induction false} PopAllUndoesPushAll(m: MessageValue, items: seq<seq<byte>>, data: seq<seq<byte>>)
    requires WellFormed(m) && SameSizes(data, Reversed(items))
    ensures PopAll(PushAll(m, items), data) == Pops(m, Reversed(items))
    decreases |items|
  {
    if items != [] {
      var n := |data| - 1;
      ReversedLength(items[1..]);
      assert Reversed(items)[..n] == Reversed(items[1..]) && Reversed(items)[n] == items[0];
      assert data == data[..n] + [data[n]];
      var pushed := Pushed(m, items[0]);
      assert SameSizes(data[..n], Reversed(items[1..]));
      PopAllUndoesPushAll(pushed, items[1..], data[..n]);
      PopAllConcat(PushAll(m, items), data[..n], [data[n]]);
      PopUndoesPush(m, items[0], data[n]);
      PopOne(pushed, data[n]);
    }
  }

  lemma PopOne(m: MessageValue, data: seq<byte>)
    ensures PopAll(m, [data]) == Pops(Popped(m, data).rest, [Popped(m, data).data])
  {
    assert [data][1..] == [];
  }

  // ---------------------------------------------------------------- runs of operations

  datatype Operation = Push(data: seq<byte>) | PopInto(destination: seq<byte>) | Clear

  function Applied(m: MessageValue, op: Operation): MessageValue {
    match op
    case Push(data) => Pushed(m, data)
    case PopInto(destination) => Popped(m, destination).rest
    case Clear => Cleared(m)
  }

  function AppliedAll(m: MessageValue, ops: seq<Operation>): MessageValue
    decreases |ops|
  {
    if ops == [] then m else AppliedAll(Applied(m, ops[0]), ops[1..])
  }

  /** In every run the header's size stays that of the body, and the type is never touched. */
  lemma {:induction false} RunKeepsSize(m: MessageValue, ops: seq<Operation>)
    requires WellFormed(m)
    ensures WellFormed(AppliedAll(m, ops))
    ensures AppliedAll(m, ops).header.kind == m.header.kind
    ensures AppliedAll(m, ops).header.disconnecting == m.header.disconnecting
    decreases |ops|
  {
    if ops != [] {
      RunKeepsSize(Applied(m, ops[0]), ops[1..]);
    }
  }

  /** The body's length after an operation, and after a run: a pop that is too long takes nothing. */
  function LengthAfter(n: nat, op: Operation): nat {
    match op
    case Push(data) => n + |data|
    case PopInto(destination) => if |destination| <= n then n - |destination| else n
    case Clear => 0
  }

  function LengthAfterAll(n: nat, ops: seq<Operation>): nat {
    if ops == [] then n else LengthAfter(LengthAfterAll(n, ops[..|ops| - 1]), ops[|ops| - 1])
  }

  /** The byte at a place of the body: written by the last push that reached the place, or there from the start. */
  function ByteAt(body: seq<byte>, ops: seq<Operation>, k: nat): byte {
    if ops == [] then if k < |body| then body[k] else 0
    else
      var before := LengthAfterAll(|body|, ops[..|ops| - 1]);
      var last := ops[|ops| - 1];
      if last.Push? && before <= k < before + |last.data| then last.data[k - before]
      else ByteAt(body, ops[..|ops| - 1], k)
  }

  lemma {:induction false} AppliedAllLast(m: MessageValue, ops: seq<Operation>)
    requires ops != []
    ensures AppliedAll(m, ops) == Applied(AppliedAll(m, ops[..|ops| - 1]), ops[|ops| - 1])
    decreases |ops|
  {
    if |ops| > 1 {
      AppliedAllLast(Applied(m, ops[0]), ops[1..]);
      assert ops[1..][..|ops| - 2] == ops[..|ops| - 1][1..];
    }
  }

  /**
   What a body holds after any run of pushes, pops and clears, with pops that find too few bytes among
   them: only lengths decide how long it is, and every byte is that of the last push to its place.
   */
  lemma {:induction false} RunBody(m: MessageValue, ops: seq<Operation>)
    ensures |AppliedAll(m, ops).body| == LengthAfterAll(|m.body|, ops)
    ensures forall k :: 0 <= k < |AppliedAll(m, ops).body| ==> AppliedAll(m, ops).body[k] == ByteAt(m.body, ops, k)
    decreases |ops|
  {
    if ops != [] {
      RunBody(m, ops[..|ops| - 1]);
      AppliedAllLast(m, ops);
    }
  }

  // ---------------------------------------------------------------- the object

  class Message {
    var header: Header
    var body: seq<byte>

    ghost function View(): MessageValue
      reads this
    {
      MessageValue(header, body)
    }

    constructor ()
      ensures View() == EMPTY_MESSAGE
    {
      header, body := Header(0, 0, false, false, 0), [];
    }

    constructor Received(message: MessageValue)
      ensures View() == message
    {
      header, body := message.header, message.body;
    }

    constructor Copy(of: Message)
      ensures View() == of.View()
    {
      header, body := of.header, of.body;
    }

    method Push(data: seq<byte>)
      modifies this
      ensures View() == Pushed(old(View()), data)
      ensures body == old(body) + data && header == old(header).(size := |body|)
    {
      body := body + data;
      header := header.(size := |body|);
    }

    /** Pops into a destination that holds `destination`; `data` is what it holds afterwards. */
    method PopInto(destination: seq<byte>) returns (data: seq<byte>)
      modifies this
      ensures Pop(View(), data) == Popped(old(View()), destination)
      ensures |old(body)| < |destination| ==> body == old(body) && header == old(header) && data == destination
      ensures |old(body)| >= |destination| ==>
        body + data == old(body) && |data| == |destination| && header == old(header).(size := |body|)
    {
      if |body| < |destination| {
        return destination;
      }
      var sizeAfterPop := |body| - |destination|;
      data := body[sizeAfterPop..];
      body := body[..sizeAfterPop];
      header := header.(size := |body|);
    }

    method Clear()
      modifies this
      ensures View() == Cleared(old(View()))
      ensures body == [] && header == Header(old(header).kind, 0, false, old(header).disconnecting, 0)
    {
      body := [];
      header := header.(id := 0, hasPriority := false, size := |body|);
    }
  }
}
