/**
 How the vehicle's client deals with what a proxy answers: a reply names the next junction, a
 redirect names another proxy to ask, and everything else is a rejection.
 */
module VehicleTracker {
  import opened Wrappers
  import opened Integers
  import opened Bytes
  import opened Messages
  import opened Codecs
  import opened IPAdressHelpers
  import opened Sequences

  const ACK: byte := 0

  datatype Junction = Junction(endpoint: Endpoint, southWest: Point, northEast: Point)

  datatype ClientState = ClientState(
    nextJunction: Option<Junction>,
    isEmergency: bool,
    isRedirected: bool,
    lastVisitedProxys: seq<Endpoint>,
    connected: bool)

  datatype Handled = Handled(state: ClientState, ok: bool)

  function SetUp(s: ClientState, r: ProxyReply): Handled {
    if r.header.kind != ACK then Handled(s, false)
    else
      var junction := Junction(Endpoint(r.ip, r.port), r.southWest, r.northEast);
      Handled(s.(nextJunction := Some(junction), isEmergency := r.header.hasPriority), true)
  }

  function Switched(s: ClientState, d: ProxyRedirect, reachable: bool): Handled {
    var connected := IsIPV4(d.ip) && reachable;
    Handled(s.(isRedirected := true,
               lastVisitedProxys := s.lastVisitedProxys + [Endpoint(d.ip, d.port)],
               connected := connected),
            connected)
  }

  /** What an answer does to the client; `reachable` tells whether a proxy named in it can be reached. */
  function Answered(s: ClientState, m: MessageValue, reachable: bool): Handled {
    var reply := ReadReply(m).value;
    if reply.Some? then SetUp(s, reply.value)
    else
      var redirect := ReadRedirect(m).value;
      if redirect.Some? then Switched(s, redirect.value, reachable)
      else Handled(s, false)
  }

  /** An answer of a proxy, absent when the query already failed, for want of coordinates say. */
  datatype Answer = Answer(message: Option<MessageValue>, reachable: bool)

  type Handler = (ClientState, MessageValue, bool) -> Handled

  /** Asks one proxy after the other, as long as each redirects; `handle` deals with an answer. */
  function Asked(handle: Handler, s: ClientState, answers: seq<Answer>): Handled
    decreases |answers|
  {
    var asking := s.(isRedirected := false);
    if !s.connected || answers == [] || answers[0].message.None? then Handled(asking, false)
    else
      var handled := handle(asking, answers[0].message.value, answers[0].reachable);
      if handled.ok && handled.state.isRedirected then Asked(handle, handled.state, answers[1..]) else handled
  }

  function Queried(s: ClientState, answers: seq<Answer>): Handled {
    Asked(Answered, s, answers)
  }

  class VehicleTrackerClient {
    var nextJunction: Option<Junction>
    var isEmergency: bool
    var isRedirected: bool
    /** The stack of proxies, its top last. */
    var lastVisitedProxys: seq<Endpoint>
    var connected: bool

    ghost function View(): ClientState
      reads this
    {
      ClientState(nextJunction, isEmergency, isRedirected, lastVisitedProxys, connected)
    }

    constructor (proxys: seq<Endpoint>, isEmergency: bool)
      ensures View() == ClientState(None, isEmergency, false, proxys, false)
    {
      nextJunction, this.isEmergency, isRedirected := None, isEmergency, false;
      lastVisitedProxys, connected := proxys, false;
    }

    method Disconnect()
      modifies this`connected
      ensures !connected
    {
      connected := false;
    }

    method Connect(ip: seq<byte>, port: uint16, reachable: bool) returns (ok: bool)
      modifies this`connected
      ensures ok <==> IsIPV4(ip) && reachable
      ensures connected == if IsIPV4(ip) then reachable else old(connected)
    {
      var valid := CheckIPV4(ip);
      if !valid {
        return false;
      }
      connected := reachable;
      ok := connected;
    }

    method SetupData(reply: ProxyReply) returns (ok: bool)
      modifies this
      ensures Handled(View(), ok) == SetUp(old(View()), reply)
    {
      if reply.header.kind != ACK {
        return false;
      }
      nextJunction := Some(Junction(Endpoint(reply.ip, reply.port), reply.southWest, reply.northEast));
      isEmergency := reply.header.hasPriority;
      ok := true;
    }

    method SwitchConnectionToRedirectedProxy(redirect: ProxyRedirect, reachable: bool) returns (ok: bool)
      modifies this
      ensures Handled(View(), ok) == Switched(old(View()), redirect, reachable)
    {
      isRedirected := true;
      Disconnect();
      lastVisitedProxys := lastVisitedProxys + [Endpoint(redirect.ip, redirect.port)];
      ok := Connect(redirect.ip, redirect.port, reachable);
    }

    /** Tries the answer as a reply, on a copy, and then as a redirect. */
    method HandleProxyAnswer(msg: Message, reachable: bool) returns (ok: bool)
      modifies this, msg
      ensures Handled(View(), ok) == Answered(old(View()), old(msg.View()), reachable)
      ensures msg.header.kind == old(msg.header.kind)
    {
      var copy := new Message.Copy(msg);
      var reply := ParseReply(copy);
      if reply.Success? {
        ok := SetupData(reply.value);
        return;
      }
      var redirect := ParseRedirect(msg);
      KindIsKept(old(msg.View()));
      if redirect.Success? {
        ok := SwitchConnectionToRedirectedProxy(redirect.value, reachable);
        return;
      }
      ok := false;
    }

    /** The query, one proxy after the other; `answers` are what the proxies will answer. */
    method QueryProxy(answers: seq<Answer>) returns (ok: bool)
      modifies this
      ensures Handled(View(), ok) == Queried(old(View()), answers)
      decreases |answers|
    {
      isRedirected := false;
      if !connected || answers == [] || answers[0].message.None? {
        return false;
      }
      var msg := new Message.Received(answers[0].message.value);
      ok := HandleProxyAnswer(msg, answers[0].reachable);
      if ok && isRedirected {
        ok := QueryProxy(answers[1..]);
      }
    }
  }

  lemma KindIsKept(m: MessageValue)
    ensures ReadRedirect(m).rest.header.kind == m.header.kind
  {
  }

  // ---------------------------------------------------------------- telling answers apart

  /** A written reply is never taken for anything else, and is obeyed only when its type is ACK, zero. */
  lemma ReplyIsTaken(s: ClientState, r: ProxyReply, reachable: bool)
    requires ValidReply(r)
    ensures Answered(s, WriteReply(r), reachable) ==
      if r.header.kind == 0
      then Handled(s.(nextJunction := Some(Junction(Endpoint(r.ip, r.port), r.southWest, r.northEast)),
                      isEmergency := r.header.hasPriority), true)
      else Handled(s, false)
  {
    ReplyRoundTrip(r);
  }

  /** A written redirect is refused as a reply and then followed. */
  lemma RedirectIsFollowed(s: ClientState, d: ProxyRedirect, reachable: bool)
    requires ValidRedirect(d)
    ensures Answered(s, WriteRedirect(d), reachable) ==
      Handled(s.(isRedirected := true, lastVisitedProxys := s.lastVisitedProxys + [Endpoint(d.ip, d.port)],
                 connected := reachable), reachable)
  {
    RedirectIsNoReply(d);
    RedirectRoundTrip(d);
  }

  /**
   The bytes alone decide: a message whose body ends in a valid reply is that reply; one that does
   not, but ends in a valid redirect, is that redirect; every other message is a rejection, as is
   every body without room for an address and a port.
   */
  lemma AnswerIsClassified(s: ClientState, m: MessageValue, reachable: bool)
    ensures forall r :: HoldsReply(m, r) ==> Answered(s, m, reachable) == SetUp(s, r)
    ensures (forall r :: !HoldsReply(m, r)) ==>
      forall d :: HoldsRedirect(m, d) ==> Answered(s, m, reachable) == Switched(s, d, reachable)
    ensures (forall r :: !HoldsReply(m, r)) && (forall d :: !HoldsRedirect(m, d)) ==>
      Answered(s, m, reachable) == Handled(s, false)
    ensures |m.body| < REDIRECT_SIZE ==> Answered(s, m, reachable) == Handled(s, false)
  {
    forall r
      ensures ReadReply(m).value == Some(r) <==> HoldsReply(m, r)
    {
      ReplyRead(m, r);
    }
    forall d
      ensures ReadRedirect(m).value == Some(d) <==> HoldsRedirect(m, d)
    {
      RedirectRead(m, d);
    }
    Classify(s, m, reachable);
  }

  lemma Classify(s: ClientState, m: MessageValue, reachable: bool)
    ensures var reply, redirect, h := ReadReply(m).value, ReadRedirect(m).value, Answered(s, m, reachable);
      if reply.Some? then h == SetUp(s, reply.value)
      else if redirect.Some? then h == Switched(s, redirect.value, reachable)
      else h == Handled(s, false)
  {
  }

  // ---------------------------------------------------------------- whole queries

  function Redirections(ds: seq<ProxyRedirect>): seq<Answer> {
    if ds == [] then [] else [Answer(Some(WriteRedirect(ds[0])), true)] + Redirections(ds[1..])
  }

  function Endpoints(ds: seq<ProxyRedirect>): seq<Endpoint> {
    if ds == [] then [] else [Endpoint(ds[0].ip, ds[0].port)] + Endpoints(ds[1..])
  }

  /** A client that is not connected, or gets no answer, fails; all it forgets is a former redirect. */
  lemma QueryNeedsAnswer(s: ClientState, answers: seq<Answer>)
    requires !s.connected || answers == [] || answers[0].message.None?
    ensures Queried(s, answers) == Handled(s.(isRedirected := false), false)
  {
  }

  /** The state of a client that has followed redirects, all of them to proxies within reach. */
  function Followed(s: ClientState, ds: seq<ProxyRedirect>): ClientState {
    s.(isRedirected := false, lastVisitedProxys := s.lastVisitedProxys + Endpoints(ds))
  }

  lemma FollowedMore(s: ClientState, ds: seq<ProxyRedirect>)
    requires s.connected && ds != [] && ValidRedirect(ds[0])
    ensures var next := Answered(s.(isRedirected := false), WriteRedirect(ds[0]), true);
      next.ok && next.state.isRedirected && next.state.connected && Followed(next.state, ds[1..]) == Followed(s, ds)
  {
    RedirectIsFollowed(s.(isRedirected := false), ds[0], true);
    Regroup(s.lastVisitedProxys, [Endpoint(ds[0].ip, ds[0].port)], Endpoints(ds[1..]));
  }

  /**
   A chain of redirects of any length is followed to the first answer that is not a redirect within
   reach, a reply, a rejection or a redirect to a proxy out of reach; that answer decides the query and
   later ones are not waited for. The proxies are stacked in the order in which they were visited.
   */
  lemma {:induction false} RedirectsAreFollowed(s: ClientState, ds: seq<ProxyRedirect>, last: Answer, later: seq<Answer>)
    requires s.connected && last.message.Some?
    requires forall d <- ds :: ValidRedirect(d)
    requires var h := Answered(Followed(s, ds), last.message.value, last.reachable); !(h.ok && h.state.isRedirected)
    ensures Queried(s, Redirections(ds) + ([last] + later)) ==
      Answered(Followed(s, ds), last.message.value, last.reachable)
    decreases |ds|
  {
    var answers := Redirections(ds) + ([last] + later);
    if ds == [] {
      AppendToNothing([last] + later);
      AppendToNothing(s.lastVisitedProxys);
      DecidedAtOnce(s, answers, last);
    } else {
      FollowedMore(s, ds);
      var first := Answer(Some(WriteRedirect(ds[0])), true);
      var next := Answered(s.(isRedirected := false), WriteRedirect(ds[0]), true).state;
      Regroup([first], Redirections(ds[1..]), [last] + later);
      SplitConcat([first], Redirections(ds[1..]) + ([last] + later));
      RedirectsAreFollowed(next, ds[1..], last, later);
      AskedNext(s, answers, first, next);
    }
  }

  lemma DecidedAtOnce(s: ClientState, answers: seq<Answer>, last: Answer)
    requires s.connected && last.message.Some? && answers != [] && answers[0] == last
    requires var h := Answered(s.(isRedirected := false), last.message.value, last.reachable);
      !(h.ok && h.state.isRedirected)
    ensures Queried(s, answers) == Answered(s.(isRedirected := false), last.message.value, last.reachable)
  {
  }

  lemma AskedNext(s: ClientState, answers: seq<Answer>, first: Answer, next: ClientState)
    requires s.connected && answers != [] && answers[0] == first && first.message.Some?
    requires Answered(s.(isRedirected := false), first.message.value, first.reachable) == Handled(next, true)
    requires next.isRedirected
    ensures Queried(s, answers) == Queried(next, answers[1..])
  {
  }

  /**
   In particular a chain of redirects that ends in an approving reply leads to the junction which that
   reply names.
   */
  lemma RedirectsLeadToJunction(s: ClientState, ds: seq<ProxyRedirect>, r: ProxyReply, later: seq<Answer>)
    requires s.connected && ValidReply(r) && r.header.kind == 0
    requires forall d <- ds :: ValidRedirect(d)
    ensures Queried(s, Redirections(ds) + ([Answer(Some(WriteReply(r)), true)] + later)) ==
      Handled(ClientState(Some(Junction(Endpoint(r.ip, r.port), r.southWest, r.northEast)), r.header.hasPriority, false,
                          s.lastVisitedProxys + Endpoints(ds), true), true)
  {
    ReplyIsTaken(Followed(s, ds), r, true);
    RedirectsAreFollowed(s, ds, Answer(Some(WriteReply(r)), true), later);
  }

  /** What one answer can do: nothing, naming a junction, or sending the client to another proxy. */
  ghost predicate Step(s: ClientState, h: Handled) {
    || h == Handled(s, false)
    || (h.ok && h.state.nextJunction.Some?
        && h.state == s.(nextJunction := h.state.nextJunction, isEmergency := h.state.isEmergency))
    || exists e :: h == Handled(
         s.(isRedirected := true, lastVisitedProxys := s.lastVisitedProxys + [e], connected := h.ok), h.ok)
  }

  lemma AnswerIsStep(s: ClientState, m: MessageValue, reachable: bool)
    ensures Step(s, Answered(s, m, reachable))
  {
    if ReadReply(m).value.None? && ReadRedirect(m).value.Some? {
      var d := ReadRedirect(m).value.value;
      RedirectRead(m, d);
      assert Switched(s, d, reachable) == Handled(
        s.(isRedirected := true, lastVisitedProxys := s.lastVisitedProxys + [Endpoint(d.ip, d.port)],
           connected := reachable), reachable);
    }
  }

  /** What a query that started connected in state `s` may have come to after so many answers. */
  ghost predicate Outcome(s: ClientState, q: Handled, answers: nat) {
    && s.lastVisitedProxys <= q.state.lastVisitedProxys
    && |q.state.lastVisitedProxys| <= |s.lastVisitedProxys| + answers
    && (q.ok ==> q.state.connected && q.state.nextJunction.Some?)
    && (q.state.isRedirected <==> !q.state.connected)
    && (!q.ok ==> q.state.nextJunction == s.nextJunction && q.state.isEmergency == s.isEmergency)
  }

  lemma OutcomeOfStep(s: ClientState, h: Handled)
    requires s.connected && !s.isRedirected && Step(s, h)
    ensures h.ok && h.state.isRedirected ==> h.state.connected
    ensures !(h.ok && h.state.isRedirected) ==> Outcome(s, h, 1)
  {
  }

  lemma OutcomeAfterStep(s: ClientState, h: Handled, q: Handled, answers: nat)
    requires s.connected && !s.isRedirected && Step(s, h) && h.ok && h.state.isRedirected
    requires Outcome(h.state, q, answers)
    ensures Outcome(s, q, answers + 1)
  {
  }

  ghost predicate Steps(handle: Handler) {
    forall s, m, reachable :: Step(s, handle(s, m, reachable))
  }

  lemma {:induction false} AskedOutcome(handle: Handler, s: ClientState, answers: seq<Answer>)
    requires s.connected && Steps(handle)
    ensures Outcome(s, Asked(handle, s, answers), |answers|)
    decreases |answers|
  {
    var asking := s.(isRedirected := false);
    if answers != [] && answers[0].message.Some? {
      var handled := handle(asking, answers[0].message.value, answers[0].reachable);
      assert Step(asking, handled);
      OutcomeOfStep(asking, handled);
      if handled.ok && handled.state.isRedirected {
        AskedOutcome(handle, handled.state, answers[1..]);
        OutcomeAfterStep(asking, handled, Asked(handle, handled.state, answers[1..]), |answers| - 1);
      }
    }
  }

  /**
   Whatever is answered, a query only adds proxies to the stack, at most one an answer; it succeeds
   only connected and with a junction named; it ends redirected exactly when it could not reach the
   last proxy; and a query that fails leaves the next junction as it was.
   */
  lemma QueryOutcome(s: ClientState, answers: seq<Answer>)
    requires s.connected
    ensures Outcome(s, Queried(s, answers), |answers|)
  {
    forall s, m, reachable
      ensures Step(s, Answered(s, m, reachable))
    {
      AnswerIsStep(s, m, reachable);
    }
    AskedOutcome(Answered, s, answers);
  }
}
