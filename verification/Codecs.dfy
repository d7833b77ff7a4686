/**
 The three typed messages: proxy replies, proxy redirects and vehicle tracker messages. Each is read
 from a message by popping its fields off the end of the body, and written by pushing them in the
 opposite order.
 */
module Codecs {
  import opened Wrappers
  import opened Integers
  import opened Bytes
  import opened Messages
  import opened IPAdressHelpers
  import opened Sequences

  /** The eight bytes of a double; comparing with the sentinel is all that is done with them. */
  type Double = b: seq<byte> | |b| == 8 witness [0, 0, 0, 0, 0, 0, 0, 0]

  /** 257.0, which marks an invalid coordinate; it is equal to no other double. */
  const INVALID: Double := [0, 0, 0, 0, 0, 0x10, 0x70, 0x40]
  const INVALID_PORT: uint16 := 0xFFFF
  const ADDRESS_SIZE := 9

  const REPLY_SIZE := 43
  const REDIRECT_SIZE := 11
  const TRACKER_SIZE := 32

  datatype Point = Point(latitude: Double, longitude: Double)
  datatype ProxyReply = ProxyReply(header: Header, ip: seq<byte>, port: uint16, southWest: Point, northEast: Point)
  datatype ProxyRedirect = ProxyRedirect(header: Header, ip: seq<byte>, port: uint16)
  datatype TrackerMessage = TrackerMessage(header: Header, a: Point, b: Point)

  // ---------------------------------------------------------------- layouts

  function PortBytes(port: uint16): (b: seq<byte>)
    ensures |b| == 2
  {
    LittleEndian(port, 2)
  }

  function PointBytes(p: Point): (b: seq<byte>)
    ensures |b| == 16
  {
    p.latitude + p.longitude
  }

  function EndpointBytes(ip: seq<byte>, port: uint16): seq<byte> {
    ip + PortBytes(port)
  }

  function ReplyBytes(r: ProxyReply): seq<byte> {
    EndpointBytes(r.ip, r.port) + (PointBytes(r.southWest) + PointBytes(r.northEast))
  }

  function RedirectBytes(d: ProxyRedirect): seq<byte> {
    EndpointBytes(d.ip, d.port)
  }

  function TrackerBytes(t: TrackerMessage): seq<byte> {
    PointBytes(t.a) + PointBytes(t.b)
  }

  predicate ValidPoint(p: Point) {
    p.latitude != INVALID && p.longitude != INVALID
  }

  predicate ValidEndpoint(ip: seq<byte>, port: uint16) {
    |ip| == ADDRESS_SIZE && IsIPV4(ip) && port != INVALID_PORT
  }

  predicate ValidReply(r: ProxyReply) {
    ValidEndpoint(r.ip, r.port) && ValidPoint(r.southWest) && ValidPoint(r.northEast)
  }

  predicate ValidRedirect(d: ProxyRedirect) {
    ValidEndpoint(d.ip, d.port)
  }

  predicate ValidTracker(t: TrackerMessage) {
    ValidPoint(t.a) && ValidPoint(t.b)
  }

  // ---------------------------------------------------------------- reading and writing

  /** What a step of reading leaves of the message, and what it read, unless it threw. */
  datatype Read<+T> = Read(rest: MessageValue, value: Option<T>)

  function ReadCoordinate(m: MessageValue): Read<Double> {
    var popped := Popped(m, INVALID);
    Read(popped.rest, if popped.data == INVALID then None else Some(popped.data))
  }

  function ReadPoint(m: MessageValue): Read<Point> {
    var longitude := ReadCoordinate(m);
    if longitude.value.None? then Read(longitude.rest, None)
    else
      var latitude := ReadCoordinate(longitude.rest);
      Read(latitude.rest, if latitude.value.None? then None
                          else Some(Point(latitude.value.value, longitude.value.value)))
  }

  function ReadPort(m: MessageValue): Read<uint16> {
    var popped := Popped(m, PortBytes(INVALID_PORT));
    TwoBytesFit(popped.data);
    var port: uint16 := FromLittleEndian(popped.data);
    Read(popped.rest, if port == INVALID_PORT then None else Some(port))
  }

  /** What `resize` fills a vector of characters with. */
  function Zeros(n: nat): (b: seq<byte>)
    ensures |b| == n && forall c <- b :: c == 0
  {
    if n == 0 then [] else [0] + Zeros(n - 1)
  }

  function ReadAddress(m: MessageValue): Read<seq<byte>> {
    var popped := Popped(m, Zeros(ADDRESS_SIZE));
    Read(popped.rest, if IsIPV4(popped.data) then Some(popped.data) else None)
  }

  datatype Endpoint = Endpoint(ip: seq<byte>, port: uint16)

  function ReadEndpoint(m: MessageValue): Read<Endpoint> {
    var port := ReadPort(m);
    if port.value.None? then Read(port.rest, None)
    else
      var ip := ReadAddress(port.rest);
      Read(ip.rest, if ip.value.None? then None else Some(Endpoint(ip.value.value, port.value.value)))
  }

  datatype Points = Points(first: Point, second: Point)

  /** Two points, the one that was written last first. */
  function ReadPoints(m: MessageValue): Read<Points> {
    var second := ReadPoint(m);
    if second.value.None? then Read(second.rest, None)
    else
      var first := ReadPoint(second.rest);
      Read(first.rest, if first.value.None? then None else Some(Points(first.value.value, second.value.value)))
  }

  function ReadReply(m: MessageValue): Read<ProxyReply> {
    var bounds := ReadPoints(m);
    if bounds.value.None? then Read(bounds.rest, None)
    else
      var endpoint := ReadEndpoint(bounds.rest);
      Read(endpoint.rest,
           if endpoint.value.None? then None
           else Some(ProxyReply(endpoint.rest.header, endpoint.value.value.ip, endpoint.value.value.port,
                                bounds.value.value.first, bounds.value.value.second)))
  }

  function ReadRedirect(m: MessageValue): Read<ProxyRedirect> {
    var endpoint := ReadEndpoint(m);
    Read(endpoint.rest,
         if endpoint.value.None? then None
         else Some(ProxyRedirect(endpoint.rest.header, endpoint.value.value.ip, endpoint.value.value.port)))
  }

  function ReadTracker(m: MessageValue): Read<TrackerMessage> {
    var points := ReadPoints(m);
    Read(points.rest,
         if points.value.None? then None
         else Some(TrackerMessage(points.rest.header, points.value.value.first, points.value.value.second)))
  }

  function WriteReply(r: ProxyReply): MessageValue {
    WithBody(MessageValue(r.header, []), ReplyBytes(r))
  }

  function WriteRedirect(d: ProxyRedirect): MessageValue {
    WithBody(MessageValue(d.header, []), RedirectBytes(d))
  }

  function WriteTracker(t: TrackerMessage): MessageValue {
    WithBody(MessageValue(t.header, []), TrackerBytes(t))
  }

  // ---------------------------------------------------------------- what is read

  /** The message without its last `n` bytes. */
  function Without(m: MessageValue, n: nat): MessageValue
    requires n <= |m.body|
  {
    WithBody(m, m.body[..|m.body| - n])
  }

  /** Whether the body ends in these bytes. */
  predicate EndsWith(m: MessageValue, bytes: seq<byte>) {
    |bytes| <= |m.body| && m.body[|m.body| - |bytes|..] == bytes
  }

  lemma EndsWithBoth(m: MessageValue, a: seq<byte>, b: seq<byte>)
    ensures EndsWith(m, a + b) <==> EndsWith(m, b) && EndsWith(Without(m, |b|), a)
    ensures EndsWith(m, a + b) ==> Without(m, |a + b|) == Without(Without(m, |b|), |a|)
  {
    if |a + b| <= |m.body| {
      var cut := |m.body| - |a + b|;
      var tail := m.body[cut..];
      assert tail == tail[..|a|] + tail[|a|..];
      assert m.body[..|m.body| - |b|][cut..] == tail[..|a|] && m.body[|m.body| - |b|..] == tail[|a|..];
      assert m.body[..|m.body| - |b|][..cut] == m.body[..cut];
      assert (a + b)[..|a|] == a && (a + b)[|a|..] == b;
    }
  }

  lemma CoordinateRead(m: MessageValue, c: Double)
    ensures ReadCoordinate(m).value == Some(c) <==> c != INVALID && EndsWith(m, c)
    ensures ReadCoordinate(m).value.Some? ==> |m.body| >= 8 && ReadCoordinate(m).rest == Without(m, 8)
  {
  }

  lemma PointRead(m: MessageValue, p: Point)
    ensures ReadPoint(m).value == Some(p) <==> ValidPoint(p) && EndsWith(m, PointBytes(p))
    ensures ReadPoint(m).value.Some? ==> |m.body| >= 16 && ReadPoint(m).rest == Without(m, 16)
  {
    CoordinateRead(m, p.longitude);
    EndsWithBoth(m, p.latitude, p.longitude);
    if |m.body| >= 8 {
      CoordinateRead(Without(m, 8), p.latitude);
    }
    if ReadPoint(m).value.Some? {
      var q := ReadPoint(m).value.value;
      CoordinateRead(m, q.longitude);
      CoordinateRead(Without(m, 8), q.latitude);
      EndsWithBoth(m, q.latitude, q.longitude);
    }
  }

  lemma PortRead(m: MessageValue, port: uint16)
    ensures ReadPort(m).value == Some(port) <==> port != INVALID_PORT && EndsWith(m, PortBytes(port))
    ensures ReadPort(m).value.Some? ==> |m.body| >= 2 && ReadPort(m).rest == Without(m, 2)
  {
    TwoBytes();
    DecodeEncoded(port, 2);
    DecodeEncoded(INVALID_PORT, 2);
    EncodeDecoded(Popped(m, PortBytes(INVALID_PORT)).data);
  }

  lemma AddressRead(m: MessageValue, ip: seq<byte>)
    ensures ReadAddress(m).value == Some(ip) <==> |ip| == ADDRESS_SIZE && IsIPV4(ip) && EndsWith(m, ip)
    ensures ReadAddress(m).value.Some? ==> |m.body| >= ADDRESS_SIZE && ReadAddress(m).rest == Without(m, ADDRESS_SIZE)
  {
    NoDotNoAddress(Zeros(ADDRESS_SIZE));
  }

  lemma EndpointRead(m: MessageValue, e: Endpoint)
    ensures ReadEndpoint(m).value == Some(e) <==> ValidEndpoint(e.ip, e.port) && EndsWith(m, EndpointBytes(e.ip, e.port))
    ensures ReadEndpoint(m).value.Some? ==> |m.body| >= REDIRECT_SIZE && ReadEndpoint(m).rest == Without(m, REDIRECT_SIZE)
  {
    PortRead(m, e.port);
    EndsWithBoth(m, e.ip, PortBytes(e.port));
    if |m.body| >= 2 {
      AddressRead(Without(m, 2), e.ip);
    }
    if ReadEndpoint(m).value.Some? {
      var f := ReadEndpoint(m).value.value;
      PortRead(m, f.port);
      AddressRead(Without(m, 2), f.ip);
      EndsWithBoth(m, f.ip, PortBytes(f.port));
    }
  }

  lemma PointsRead(m: MessageValue, ps: Points)
    ensures ReadPoints(m).value == Some(ps) <==>
      ValidPoint(ps.first) && ValidPoint(ps.second) && EndsWith(m, PointBytes(ps.first) + PointBytes(ps.second))
    ensures ReadPoints(m).value.Some? ==> |m.body| >= TRACKER_SIZE && ReadPoints(m).rest == Without(m, TRACKER_SIZE)
  {
    PointRead(m, ps.second);
    EndsWithBoth(m, PointBytes(ps.first), PointBytes(ps.second));
    if |m.body| >= 16 {
      PointRead(Without(m, 16), ps.first);
    }
    if ReadPoints(m).value.Some? {
      var qs := ReadPoints(m).value.value;
      PointRead(m, qs.second);
      PointRead(Without(m, 16), qs.first);
      EndsWithBoth(m, PointBytes(qs.first), PointBytes(qs.second));
    }
  }

  /** What it takes for a message to be read as this reply. */
  predicate HoldsReply(m: MessageValue, r: ProxyReply) {
    && ValidReply(r) && EndsWith(m, ReplyBytes(r))
    && r.header == m.header.(size := |m.body| - REPLY_SIZE)
  }

  /**
   Replies are recognised by their bytes: a reply is read from a message exactly when it is valid
   and the body ends in its bytes; its header is the message's, with the size of what is left.
   */
  lemma ReplyRead(m: MessageValue, r: ProxyReply)
    ensures ReadReply(m).value == Some(r) <==> HoldsReply(m, r)
    ensures ReadReply(m).value.Some? ==> |m.body| >= REPLY_SIZE && ReadReply(m).rest == Without(m, REPLY_SIZE)
  {
    if ReadReply(m).value.Some? {
      ReplyIsInBody(m, ReadReply(m).value.value);
    }
    if ValidReply(r) && EndsWith(m, ReplyBytes(r)) {
      BodyIsReply(m, r);
    }
  }

  lemma ReplyIsInBody(m: MessageValue, r: ProxyReply)
    requires ReadReply(m).value == Some(r)
    ensures ValidReply(r) && EndsWith(m, ReplyBytes(r)) && |m.body| >= REPLY_SIZE
    ensures ReadReply(m).rest == Without(m, REPLY_SIZE) && r.header == Without(m, REPLY_SIZE).header
  {
    var bounds, endpoint := Points(r.southWest, r.northEast), Endpoint(r.ip, r.port);
    PointsRead(m, bounds);
    var rest := Without(m, TRACKER_SIZE);
    EndpointRead(rest, endpoint);
    EndsWithBoth(m, EndpointBytes(r.ip, r.port), PointBytes(r.southWest) + PointBytes(r.northEast));
  }

  lemma BodyIsReply(m: MessageValue, r: ProxyReply)
    requires ValidReply(r) && EndsWith(m, ReplyBytes(r))
    ensures |m.body| >= REPLY_SIZE
    ensures ReadReply(m).value == Some(r.(header := Without(m, REPLY_SIZE).header))
  {
    var bounds, endpoint := Points(r.southWest, r.northEast), Endpoint(r.ip, r.port);
    EndsWithBoth(m, EndpointBytes(r.ip, r.port), PointBytes(r.southWest) + PointBytes(r.northEast));
    PointsRead(m, bounds);
    EndpointRead(Without(m, TRACKER_SIZE), endpoint);
  }

  /** What it takes for a message to be read as this redirect. */
  predicate HoldsRedirect(m: MessageValue, d: ProxyRedirect) {
    && ValidRedirect(d) && EndsWith(m, RedirectBytes(d))
    && d.header == m.header.(size := |m.body| - REDIRECT_SIZE)
  }

  lemma RedirectRead(m: MessageValue, d: ProxyRedirect)
    ensures ReadRedirect(m).value == Some(d) <==> HoldsRedirect(m, d)
    ensures ReadRedirect(m).value.Some? ==> |m.body| >= REDIRECT_SIZE && ReadRedirect(m).rest == Without(m, REDIRECT_SIZE)
  {
    EndpointRead(m, Endpoint(d.ip, d.port));
  }

  lemma TrackerRead(m: MessageValue, t: TrackerMessage)
    ensures ReadTracker(m).value == Some(t) <==>
      && ValidTracker(t) && EndsWith(m, TrackerBytes(t))
      && t.header == m.header.(size := |m.body| - TRACKER_SIZE)
    ensures ReadTracker(m).value.Some? ==> |m.body| >= TRACKER_SIZE && ReadTracker(m).rest == Without(m, TRACKER_SIZE)
  {
    PointsRead(m, Points(t.a, t.b));
  }

  // ---------------------------------------------------------------- what the bytes mean

  /** The sentinel is 257.0 in memory, lowest byte first: exponent 8, and a mantissa of 257/256. */
  lemma SentinelIs257(k: nat)
    requires k < 8
    ensures var bits, scale := 0x4070_1000_0000_0000, 0x10_0000_0000_0000;
      && Limit(k) > 0 && INVALID[k] == bits / Limit(k) % 256
      && bits / scale == 1023 + 8 && 256 * (scale + bits % scale) == 257 * scale
  {
    PowersOf256();
  }

  lemma PowersOf256()
    ensures Limit(0) == 1 && Limit(1) == 0x100 && Limit(2) == 0x1_0000 && Limit(3) == 0x100_0000
    ensures Limit(4) == 0x1_0000_0000 && Limit(5) == 0x100_0000_0000
    ensures Limit(6) == 0x1_0000_0000_0000 && Limit(7) == 0x100_0000_0000_0000
  {
    assert Limit(3) == 256 * Limit(2);
    assert Limit(5) == 256 * Limit(4);
    assert Limit(7) == 256 * Limit(6);
  }

  predicate IsCoordinate(b: seq<byte>) {
    |b| == 8 && b != [0, 0, 0, 0, 0, 0x10, 0x70, 0x40]
  }

  /** Two bytes of port, the lower first; all ones are no port. */
  predicate IsPort(b: seq<byte>, port: uint16) {
    |b| == 2 && b[0] == port % 256 && b[1] == port / 256 && port != 0xFFFF
  }

  lemma PortBytesAre(b: seq<byte>, port: uint16)
    ensures b == PortBytes(port) <==> |b| == 2 && b[0] == port % 256 && b[1] == port / 256
  {
    LittleEndianAt(port, 2, 0);
    LittleEndianAt(port, 2, 1);
    OneByte();
  }

  /** Sixteen bytes of a point: the latitude, then the longitude. */
  predicate IsPoint(b: seq<byte>, p: Point) {
    |b| == 16 && p.latitude == b[..8] && p.longitude == b[8..] && IsCoordinate(b[..8]) && IsCoordinate(b[8..])
  }

  lemma PointBytesAre(b: seq<byte>, p: Point)
    ensures b == PointBytes(p) && ValidPoint(p) <==> IsPoint(b, p)
  {
    SplitConcat(p.latitude, p.longitude);
    if |b| == 16 {
      SplitAt(b, 8);
    }
  }

  lemma EndpointBytesAre(b: seq<byte>, ip: seq<byte>, port: uint16)
    ensures b == EndpointBytes(ip, port) && ValidEndpoint(ip, port)
      <==> |b| == 11 && ip == b[..9] && IsIPV4(b[..9]) && IsPort(b[9..], port)
  {
    SplitConcat(ip, PortBytes(port));
    if |b| == 11 {
      SplitAt(b, 9);
      PortBytesAre(b[9..], port);
    }
  }

  lemma PointsBytesAre(b: seq<byte>, p: Point, q: Point)
    ensures b == PointBytes(p) + PointBytes(q) && ValidPoint(p) && ValidPoint(q)
      <==> |b| == 32 && IsPoint(b[..16], p) && IsPoint(b[16..], q)
  {
    SplitConcat(PointBytes(p), PointBytes(q));
    if |b| == 32 {
      SplitAt(b, 16);
      PointBytesAre(b[..16], p);
      PointBytesAre(b[16..], q);
    }
  }

  /**
   The layout of a reply, from the end of the body backwards: eleven bytes of endpoint, an address of
   nine characters and a port; then the south-west and the north-east corner.
   */
  lemma ReplyFields(m: MessageValue, r: ProxyReply)
    ensures ReadReply(m).value == Some(r) <==>
      && |m.body| >= 43 && r.header == m.header.(size := |m.body| - 43)
      && var b := m.body[|m.body| - 43..];
        && r.ip == b[..11][..9] && IsIPV4(r.ip) && IsPort(b[..11][9..], r.port)
        && IsPoint(b[11..][..16], r.southWest) && IsPoint(b[11..][16..], r.northEast)
  {
    ReplyRead(m, r);
    if |m.body| >= 43 {
      ReplyBytesAre(m.body[|m.body| - 43..], r);
    }
  }

  lemma ReplyBytesAre(b: seq<byte>, r: ProxyReply)
    requires |b| == 43
    ensures b == ReplyBytes(r) && ValidReply(r) <==>
      && r.ip == b[..11][..9] && IsIPV4(r.ip) && IsPort(b[..11][9..], r.port)
      && IsPoint(b[11..][..16], r.southWest) && IsPoint(b[11..][16..], r.northEast)
  {
    SplitConcat(EndpointBytes(r.ip, r.port), PointBytes(r.southWest) + PointBytes(r.northEast));
    SplitAt(b, 11);
    EndpointBytesAre(b[..11], r.ip, r.port);
    PointsBytesAre(b[11..], r.southWest, r.northEast);
  }

  /** A redirect is the last eleven bytes: an address of nine characters, then the port. */
  lemma RedirectFields(m: MessageValue, d: ProxyRedirect)
    ensures ReadRedirect(m).value == Some(d) <==>
      && |m.body| >= 11 && d.header == m.header.(size := |m.body| - 11)
      && var b := m.body[|m.body| - 11..]; d.ip == b[..9] && IsIPV4(b[..9]) && IsPort(b[9..], d.port)
  {
    RedirectRead(m, d);
    if |m.body| >= 11 {
      EndpointBytesAre(m.body[|m.body| - 11..], d.ip, d.port);
    }
  }

  /** A tracker message is the last 32 bytes: the earlier point, then the later one. */
  lemma TrackerFields(m: MessageValue, t: TrackerMessage)
    ensures ReadTracker(m).value == Some(t) <==>
      && |m.body| >= 32 && t.header == m.header.(size := |m.body| - 32)
      && var b := m.body[|m.body| - 32..]; IsPoint(b[..16], t.a) && IsPoint(b[16..], t.b)
  {
    TrackerRead(m, t);
    if |m.body| >= 32 {
      PointsBytesAre(m.body[|m.body| - 32..], t.a, t.b);
    }
  }

  // ---------------------------------------------------------------- round trips

  /** Exactly the valid replies are read back as they were written, all but the size in the header. */
  lemma ReplyRoundTrip(r: ProxyReply)
    ensures ReadReply(WriteReply(r)).value == Some(r.(header := r.header.(size := 0))) <==> ValidReply(r)
  {
    var m := WriteReply(r);
    var back := r.(header := r.header.(size := 0));
    ReplyRead(m, back);
    assert m.body == ReplyBytes(back);
  }

  lemma RedirectRoundTrip(d: ProxyRedirect)
    ensures ReadRedirect(WriteRedirect(d)).value == Some(d.(header := d.header.(size := 0))) <==> ValidRedirect(d)
  {
    RedirectRead(WriteRedirect(d), d.(header := d.header.(size := 0)));
  }

  lemma TrackerRoundTrip(t: TrackerMessage)
    ensures ReadTracker(WriteTracker(t)).value == Some(t.(header := t.header.(size := 0))) <==> ValidTracker(t)
  {
    TrackerRead(WriteTracker(t), t.(header := t.header.(size := 0)));
  }

  /** Writing what was read restores the bytes that were popped, and for an exact fit the message. */
  lemma ReadThenWritten(m: MessageValue)
    ensures ReadReply(m).value.Some? ==> EndsWith(m, WriteReply(ReadReply(m).value.value).body)
    ensures ReadReply(m).value.Some? && |m.body| == REPLY_SIZE && WellFormed(m)
      ==> WriteReply(ReadReply(m).value.value) == m
    ensures ReadRedirect(m).value.Some? ==> EndsWith(m, WriteRedirect(ReadRedirect(m).value.value).body)
    ensures ReadRedirect(m).value.Some? && |m.body| == REDIRECT_SIZE && WellFormed(m)
      ==> WriteRedirect(ReadRedirect(m).value.value) == m
    ensures ReadTracker(m).value.Some? ==> EndsWith(m, WriteTracker(ReadTracker(m).value.value).body)
    ensures ReadTracker(m).value.Some? && |m.body| == TRACKER_SIZE && WellFormed(m)
      ==> WriteTracker(ReadTracker(m).value.value) == m
  {
    if ReadReply(m).value.Some? {
      ReplyRead(m, ReadReply(m).value.value);
    }
    if ReadRedirect(m).value.Some? {
      RedirectRead(m, ReadRedirect(m).value.value);
    }
    if ReadTracker(m).value.Some? {
      TrackerRead(m, ReadTracker(m).value.value);
    }
  }

  lemma SameEndpoints(a: seq<byte>, p: uint16, b: seq<byte>, q: uint16)
    requires |a| == |b| && EndpointBytes(a, p) == EndpointBytes(b, q)
    ensures a == b && p == q
  {
    assert EndpointBytes(a, p)[..|a|] == a && EndpointBytes(b, q)[..|b|] == b;
    assert EndpointBytes(a, p)[|a|..] == PortBytes(p) && EndpointBytes(b, q)[|b|..] == PortBytes(q);
    TwoBytes();
    DecodeEncoded(p, 2);
    DecodeEncoded(q, 2);
  }

  /** The redirect whose address are the last nine characters; what is before them stays unread. */
  function LastNine(d: ProxyRedirect): ProxyRedirect
    requires |d.ip| >= ADDRESS_SIZE
  {
    var n := |d.ip| - ADDRESS_SIZE;
    d.(ip := d.ip[n..], header := d.header.(size := n))
  }

  /**
   What comes back from a written redirect, however long its address is: addresses of fewer than
   nine characters are refused, and of longer ones the last nine are taken for the address.
   */
  lemma RedirectReadBack(d: ProxyRedirect)
    ensures |d.ip| < ADDRESS_SIZE ==> ReadRedirect(WriteRedirect(d)).value.None?
    ensures |d.ip| >= ADDRESS_SIZE ==>
      ReadRedirect(WriteRedirect(d)).value == if ValidRedirect(LastNine(d)) then Some(LastNine(d)) else None
  {
    forall r: ProxyRedirect
      ensures ReadRedirect(WriteRedirect(d)).value == Some(r) <==> HoldsRedirect(WriteRedirect(d), r)
    {
      RedirectRead(WriteRedirect(d), r);
    }
    RedirectCut(d, ReadRedirect(WriteRedirect(d)).value);
  }

  lemma RedirectCut(d: ProxyRedirect, value: Option<ProxyRedirect>)
    requires forall r: ProxyRedirect :: value == Some(r) <==> HoldsRedirect(WriteRedirect(d), r)
    ensures |d.ip| < ADDRESS_SIZE ==> value.None?
    ensures |d.ip| >= ADDRESS_SIZE ==> value == if ValidRedirect(LastNine(d)) then Some(LastNine(d)) else None
  {
    if value.Some? {
      assert HoldsRedirect(WriteRedirect(d), value.value);
      RedirectAtEnd(d, value.value);
    } else if |d.ip| >= ADDRESS_SIZE {
      RedirectEnds(d, LastNine(d).ip);
      assert !HoldsRedirect(WriteRedirect(d), LastNine(d));
    }
  }

  /** A written redirect ends in an endpoint with the last characters of the address. */
  lemma RedirectEnds(d: ProxyRedirect, ip: seq<byte>)
    requires EndsWith(MessageValue(d.header, d.ip), ip)
    ensures EndsWith(WriteRedirect(d), EndpointBytes(ip, d.port))
  {
    SplitConcat(d.ip, PortBytes(d.port));
    EndsWithBoth(WriteRedirect(d), ip, PortBytes(d.port));
  }

  lemma RedirectAtEnd(d: ProxyRedirect, read: ProxyRedirect)
    requires |read.ip| <= |d.ip| && EndsWith(WriteRedirect(d), RedirectBytes(read))
    ensures read.ip == d.ip[|d.ip| - |read.ip|..] && read.port == d.port
  {
    var ip := d.ip[|d.ip| - |read.ip|..];
    RedirectEnds(d, ip);
    SameEndpoints(read.ip, read.port, ip, d.port);
  }

  /** A body shorter than a reply's is refused as a reply, and so is every redirect with a short address. */
  lemma RedirectIsNoReply(d: ProxyRedirect)
    requires |d.ip| + 2 < REPLY_SIZE
    ensures ReadReply(WriteRedirect(d)).value.None?
  {
    var value := ReadReply(WriteRedirect(d)).value;
    if value.Some? {
      ReplyRead(WriteRedirect(d), value.value);
    }
  }

  const LONG_ADDRESS: seq<byte> := [49, 57, 50, 46, 49, 54, 56, 46, 49, 48, 48, 46, 50, 48, 48]   // 192.168.100.200
  const CUT_ADDRESS: seq<byte> := [56, 46, 49, 48, 48, 46, 50, 48, 48]                            // 8.100.200

  lemma LongAddressIsValid(ip: seq<byte>)
    requires ip == LONG_ADDRESS
    ensures IsIPV4(ip) && |ip| == 15
  {
    TwoNumbersAreAnAddress(ip, 3, 3);
    ThreeDigits(ip[..3]);
    ThreeDigits(ip[4..][..3]);
  }

  lemma CutAddressIsValid(ip: seq<byte>)
    requires ip == CUT_ADDRESS
    ensures IsIPV4(ip)
  {
    TwoNumbersAreAnAddress(ip, 1, 3);
    OneDigit(ip[..1]);
    ThreeDigits(ip[2..][..3]);
  }

  lemma LongAddressEnds(ip: seq<byte>)
    requires ip == LONG_ADDRESS
    ensures |ip| == 15 && ip[6..] == CUT_ADDRESS && IsIPV4(ip) && IsIPV4(ip[6..])
  {
    LongAddressIsValid(ip);
    EndOfLongAddress(ip);
    CutAddressIsValid(ip[6..]);
  }

  lemma EndOfLongAddress(ip: seq<byte>)
    requires ip == LONG_ADDRESS
    ensures ip[6..] == CUT_ADDRESS
  {
  }

  lemma ValidWhenCut(d: ProxyRedirect, cut: seq<byte>)
    requires |d.ip| == 15 && d.ip[6..] == cut && IsIPV4(cut) && d.port != INVALID_PORT
    ensures LastNine(d).ip == cut
    ensures ReadRedirect(WriteRedirect(d)).value == Some(LastNine(d))
  {
    RedirectReadBack(d);
  }

  /** A valid address of more than nine characters is cut: 192.168.100.200 comes back as 8.100.200. */
  lemma LongAddressIsCut(d: ProxyRedirect)
    requires d.ip == LONG_ADDRESS && d.port != INVALID_PORT
    ensures IsIPV4(d.ip) && LastNine(d).ip == CUT_ADDRESS
    ensures ReadRedirect(WriteRedirect(d)).value == Some(LastNine(d))
  {
    LongAddressEnds(d.ip);
    ValidWhenCut(d, d.ip[6..]);
  }

  // ---------------------------------------------------------------- the operations on messages

  method ParsePoint(msg: Message) returns (point: Option<Point>)
    modifies msg
    ensures Read(msg.View(), point) == ReadPoint(old(msg.View()))
  {
    var longitude: Double := INVALID;
    longitude := msg.PopInto(longitude);
    if longitude == INVALID {
      return None;
    }
    var latitude: Double := INVALID;
    latitude := msg.PopInto(latitude);
    if latitude == INVALID {
      return None;
    }
    point := Some(Point(latitude, longitude));
  }

  method ParsePort(msg: Message) returns (port: Option<uint16>)
    modifies msg
    ensures Read(msg.View(), port) == ReadPort(old(msg.View()))
  {
    var data := msg.PopInto(PortBytes(INVALID_PORT));
    TwoBytesFit(data);
    var value: uint16 := FromLittleEndian(data);
    port := if value == INVALID_PORT then None else Some(value);
  }

  method ParseAddress(msg: Message) returns (ip: Option<seq<byte>>)
    modifies msg
    ensures Read(msg.View(), ip) == ReadAddress(old(msg.View()))
  {
    var data := msg.PopInto(Zeros(ADDRESS_SIZE));
    var valid := CheckIPV4(data);
    ip := if valid then Some(data) else None;
  }

  const INVALID_REPLY := "Invalid ProxyReply"
  const INVALID_REDIRECT := "Invalid ProxyRedirect"

  function Outcome<T>(value: Option<T>, error: string): Result<T> {
    match value
    case None => Failure(error)
    case Some(t) => Success(t)
  }

  /** The constructor that reads a reply: bounds, port and address, then the header of what is left. */
  method ParseReply(msg: Message) returns (reply: Result<ProxyReply>)
    modifies msg
    ensures msg.View() == ReadReply(old(msg.View())).rest
    ensures reply == Outcome(ReadReply(old(msg.View())).value, INVALID_REPLY)
  {
    var northEast := ParsePoint(msg);
    if northEast.None? {
      return Failure(INVALID_REPLY);
    }
    var southWest := ParsePoint(msg);
    if southWest.None? {
      return Failure(INVALID_REPLY);
    }
    var port := ParsePort(msg);
    if port.None? {
      return Failure(INVALID_REPLY);
    }
    var ip := ParseAddress(msg);
    if ip.None? {
      return Failure(INVALID_REPLY);
    }
    reply := Success(ProxyReply(msg.header, ip.value, port.value, southWest.value, northEast.value));
  }

  method ParseRedirect(msg: Message) returns (redirect: Result<ProxyRedirect>)
    modifies msg
    ensures msg.View() == ReadRedirect(old(msg.View())).rest
    ensures redirect == Outcome(ReadRedirect(old(msg.View())).value, INVALID_REDIRECT)
  {
    var port := ParsePort(msg);
    if port.None? {
      return Failure(INVALID_REDIRECT);
    }
    var ip := ParseAddress(msg);
    if ip.None? {
      return Failure(INVALID_REDIRECT);
    }
    redirect := Success(ProxyRedirect(msg.header, ip.value, port.value));
  }

  method ParseTracker(msg: Message) returns (tracker: Result<TrackerMessage>)
    modifies msg
    ensures msg.View() == ReadTracker(old(msg.View())).rest
    ensures tracker == Outcome(ReadTracker(old(msg.View())).value, INVALID_REPLY)
  {
    var b := ParsePoint(msg);
    if b.None? {
      return Failure(INVALID_REPLY);
    }
    var a := ParsePoint(msg);
    if a.None? {
      return Failure(INVALID_REPLY);
    }
    tracker := Success(TrackerMessage(msg.header, a.value, b.value));
  }

  method EncodeEndpoint(msg: Message, ip: seq<byte>, port: uint16)
    modifies msg
    ensures msg.View() == WithBody(old(msg.View()), old(msg.body) + EndpointBytes(ip, port))
  {
    msg.Push(ip);
    msg.Push(PortBytes(port));
    Regroup(old(msg.body), ip, PortBytes(port));
  }

  method EncodePoint(msg: Message, point: Point)
    modifies msg
    ensures msg.View() == WithBody(old(msg.View()), old(msg.body) + PointBytes(point))
  {
    msg.Push(point.latitude);
    msg.Push(point.longitude);
    Regroup(old(msg.body), point.latitude, point.longitude);
  }

  method EncodeReply(r: ProxyReply) returns (msg: Message)
    ensures fresh(msg) && msg.View() == WriteReply(r)
  {
    msg := new Message();
    msg.header := r.header;
    EncodeEndpoint(msg, r.ip, r.port);
    EncodePoint(msg, r.southWest);
    EncodePoint(msg, r.northEast);
    Regroup(EndpointBytes(r.ip, r.port), PointBytes(r.southWest), PointBytes(r.northEast));
  }

  method EncodeRedirect(d: ProxyRedirect) returns (msg: Message)
    ensures fresh(msg) && msg.View() == WriteRedirect(d)
  {
    msg := new Message();
    msg.header := d.header;
    EncodeEndpoint(msg, d.ip, d.port);
  }

  method EncodeTracker(t: TrackerMessage) returns (msg: Message)
    ensures fresh(msg) && msg.View() == WriteTracker(t)
  {
    msg := new Message();
    msg.header := t.header;
    EncodePoint(msg, t.a);
    EncodePoint(msg, t.b);
  }
}
