/**
 How messages travel over a connection: a header of fixed size, then as many body bytes as the
 header announces. What the reader rebuilds is a function of the bytes alone.
 */
module Framing {
  import opened Bytes
  import opened Messages
  import opened Sequences

  const HEADER_SIZE: nat := 16

  /** The bytes between the header's fields, whose values nobody determines. */
  datatype Padding = Padding(a: byte, b: byte, c: byte)

  function BoolByte(b: bool): byte {
    if b then 1 else 0
  }

  /** The header's memory image on a 64-bit little-endian machine. */
  function HeaderBytes(h: Header, p: Padding): (b: seq<byte>)
    ensures |b| == HEADER_SIZE
  {
    [h.kind, p.a] + LittleEndian(h.id, 2) + [BoolByte(h.hasPriority), BoolByte(h.disconnecting), p.b, p.c]
    + LittleEndian(h.size, 8)
  }

  function DecodeHeader(b: seq<byte>): Header
    requires |b| == HEADER_SIZE
  {
    TwoBytesFit(b[2..4]);
    Header(b[0], FromLittleEndian(b[2..4]), b[4] != 0, b[5] != 0, FromLittleEndian(b[8..16]))
  }

  /** A message that can be sent: its header tells the length of its body, in 64 bits. */
  predicate Sendable(m: MessageValue) {
    WellFormed(m) && m.header.size < Limit(8)
  }

  /** What the writer puts on the wire for one message; an empty body is not written. */
  function FrameBytes(m: MessageValue, p: Padding): (frame: seq<byte>)
    ensures m.header.size == 0 ==> frame == HeaderBytes(m.header, p)
  {
    HeaderBytes(m.header, p) + if m.header.size > 0 then m.body else []
  }

  function Wire(ms: seq<MessageValue>, ps: seq<Padding>): seq<byte>
    requires |ms| == |ps|
  {
    if ms == [] then [] else FrameBytes(ms[0], ps[0]) + Wire(ms[1..], ps[1..])
  }

  /** Whether the stream starts with a whole frame, and how many bytes that frame has. */
  predicate HasFrame(stream: seq<byte>) {
    |stream| >= HEADER_SIZE && |stream| >= FrameSize(stream)
  }

  function FrameSize(stream: seq<byte>): nat
    requires |stream| >= HEADER_SIZE
  {
    HEADER_SIZE + DecodeHeader(stream[..HEADER_SIZE]).size
  }

  function FirstMessage(stream: seq<byte>): MessageValue
    requires HasFrame(stream)
  {
    MessageValue(DecodeHeader(stream[..HEADER_SIZE]), stream[HEADER_SIZE..FrameSize(stream)])
  }

  /** The messages that a stream of bytes carries; an incomplete last frame carries none. */
  function ParseStream(stream: seq<byte>): seq<MessageValue>
    decreases |stream|
  {
    if !HasFrame(stream) then []
    else [FirstMessage(stream)] + ParseStream(stream[FrameSize(stream)..])
  }

  // ---------------------------------------------------------------- proofs

  lemma HeaderRoundTrip(h: Header, p: Padding)
    requires h.size < Limit(8)
    ensures DecodeHeader(HeaderBytes(h, p)) == h
  {
    var b := HeaderBytes(h, p);
    assert b[2..4] == LittleEndian(h.id, 2);
    assert b[8..16] == LittleEndian(h.size, 8);
    TwoBytes();
    DecodeEncoded(h.id, 2);
    DecodeEncoded(h.size, 8);
  }

  /**
   Where the header's fields lie, each at a multiple of its size and in the order of declaration: one
   byte of type, two of id, one each for priority and disconnecting, and eight of size, lowest first.
   */
  lemma HeaderLayout(h: Header, p: Padding, k: nat)
    requires k < 8
    ensures var b := HeaderBytes(h, p);
      && b[0] == h.kind && b[2] == h.id % 256 && b[3] == h.id / 256
      && b[4] == (if h.hasPriority then 1 else 0) && b[5] == (if h.disconnecting then 1 else 0)
      && Limit(k) > 0 && b[8 + k] == h.size / Limit(k) % 256
  {
    LittleEndianAt(h.size, 8, k);
    LittleEndianAt(h.id, 2, 0);
    LittleEndianAt(h.id, 2, 1);
    OneByte();
    assert HeaderBytes(h, p)[8 + k] == LittleEndian(h.size, 8)[k];
  }

  /** A frame is read back whole, whatever follows it. */
  lemma FrameRoundTrip(m: MessageValue, p: Padding, rest: seq<byte>)
    requires Sendable(m)
    ensures var stream := FrameBytes(m, p) + rest;
      HasFrame(stream) && FirstMessage(stream) == m && stream[FrameSize(stream)..] == rest
      && FrameSize(stream) == |FrameBytes(m, p)|
  {
    var frame := FrameBytes(m, p);
    var stream := frame + rest;
    HeaderRoundTrip(m.header, p);
    assert stream[..HEADER_SIZE] == HeaderBytes(m.header, p);
    assert frame == HeaderBytes(m.header, p) + m.body;
    assert stream[HEADER_SIZE..|frame|] == m.body;
  }

  /** The reader rebuilds exactly the messages that were sent and then reads on. */
  lemma {:induction false} StreamRoundTrip(ms: seq<MessageValue>, ps: seq<Padding>, rest: seq<byte>)
    requires |ms| == |ps| && forall m <- ms :: Sendable(m)
    ensures ParseStream(Wire(ms, ps) + rest) == ms + ParseStream(rest)
  {
    if ms == [] {
      AppendToNothing(rest);
      AppendToNothing(ParseStream(rest));
    } else {
      StreamRoundTrip(ms[1..], ps[1..], rest);
      Regroup(FrameBytes(ms[0], ps[0]), Wire(ms[1..], ps[1..]), rest);
      FrameRoundTrip(ms[0], ps[0], Wire(ms[1..], ps[1..]) + rest);
      Regroup([ms[0]], ms[1..], ParseStream(rest));
      assert [ms[0]] + ms[1..] == ms;
    }
  }

  /** A frame that has not arrived completely delivers nothing. */
  lemma TornFrame(m: MessageValue, p: Padding, k: nat)
    requires Sendable(m) && k < |FrameBytes(m, p)|
    ensures ParseStream(FrameBytes(m, p)[..k]) == []
  {
    var frame := FrameBytes(m, p);
    if k >= HEADER_SIZE {
      HeaderRoundTrip(m.header, p);
      assert frame[..k][..HEADER_SIZE] == HeaderBytes(m.header, p);
      assert |frame| == HEADER_SIZE + m.header.size;
    }
  }

  /** How many of the frames lie wholly within the first `k` bytes. */
  function Arrived(ms: seq<MessageValue>, ps: seq<Padding>, k: nat): (n: nat)
    requires |ms| == |ps|
    ensures n <= |ms|
  {
    if ms == [] || k < |FrameBytes(ms[0], ps[0])| then 0
    else 1 + Arrived(ms[1..], ps[1..], k - |FrameBytes(ms[0], ps[0])|)
  }

  lemma {:induction false} ArrivedIsLargest(ms: seq<MessageValue>, ps: seq<Padding>, k: nat, n: nat)
    requires |ms| == |ps| && n <= |ms|
    ensures n <= Arrived(ms, ps, k) <==> |Wire(ms[..n], ps[..n])| <= k
  {
    if n > 0 {
      WireOfFirst(ms, ps, n);
      var frame := |FrameBytes(ms[0], ps[0])|;
      if frame <= k {
        ArrivedIsLargest(ms[1..], ps[1..], k - frame, n - 1);
      }
    }
  }

  /** However much of the stream has arrived, the reader has the messages whose frames are complete. */
  lemma {:induction false} PrefixDeliversPrefix(ms: seq<MessageValue>, ps: seq<Padding>, k: nat)
    requires |ms| == |ps| && forall m <- ms :: Sendable(m)
    requires k <= |Wire(ms, ps)|
    ensures ParseStream(Wire(ms, ps)[..k]) == ms[..Arrived(ms, ps, k)]
  {
    if ms != [] {
      var frame := |FrameBytes(ms[0], ps[0])|;
      if k < frame {
        TornFirstFrame(ms, ps, k);
      } else {
        PrefixDeliversPrefix(ms[1..], ps[1..], k - frame);
        FirstFrameArrives(ms, ps, k);
        var n := Arrived(ms[1..], ps[1..], k - frame);
        FirstAndMore(ms, n);
      }
    }
  }

  lemma TornFirstFrame(ms: seq<MessageValue>, ps: seq<Padding>, k: nat)
    requires 0 < |ms| == |ps| && Sendable(ms[0])
    requires k < |FrameBytes(ms[0], ps[0])|
    ensures ParseStream(Wire(ms, ps)[..k]) == []
  {
    var frame := FrameBytes(ms[0], ps[0]);
    TornFrame(ms[0], ps[0], k);
    assert (frame + Wire(ms[1..], ps[1..]))[..k] == frame[..k];
  }

  lemma FirstFrameArrives(ms: seq<MessageValue>, ps: seq<Padding>, k: nat)
    requires 0 < |ms| == |ps| && Sendable(ms[0])
    requires |FrameBytes(ms[0], ps[0])| <= k <= |Wire(ms, ps)|
    ensures ParseStream(Wire(ms, ps)[..k])
      == [ms[0]] + ParseStream(Wire(ms[1..], ps[1..])[..k - |FrameBytes(ms[0], ps[0])|])
  {
    var frame, tail := FrameBytes(ms[0], ps[0]), Wire(ms[1..], ps[1..]);
    var arrived := tail[..k - |frame|];
    assert (frame + tail)[..k] == frame + arrived;
    FrameRoundTrip(ms[0], ps[0], arrived);
  }

  lemma WireOfFirst(ms: seq<MessageValue>, ps: seq<Padding>, n: nat)
    requires 0 < n <= |ms| == |ps|
    ensures Wire(ms[..n], ps[..n]) == FrameBytes(ms[0], ps[0]) + Wire(ms[1..][..n - 1], ps[1..][..n - 1])
  {
    assert ms[..n][1..] == ms[1..][..n - 1] && ps[..n][1..] == ps[1..][..n - 1];
  }

  /** The bytes of any sequence of sendable messages carry exactly that sequence. */
  lemma WireCarriesMessages(ms: seq<MessageValue>, ps: seq<Padding>)
    requires |ms| == |ps| && forall m <- ms :: Sendable(m)
    ensures ParseStream(Wire(ms, ps)) == ms
  {
    StreamRoundTrip(ms, ps, []);
    AppendToNothing(Wire(ms, ps));
    AppendToNothing(ms);
  }
}
