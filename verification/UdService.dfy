/** Workers answering datagrams while clients are still being accepted. The accepting thread
    stores a client's attributes and tells it how to reach the server before it creates the
    client's address handle, so a datagram can be answered before the handle is there. */
module UdService {
  import opened Messages
  import opened RcProtocol
  import opened UdRing
  import opened UdRouting

  /** Where a reply was sent, and how many clients had been accepted, and announced, then. */
  datatype Sent = Sent(route: Route, accepted: nat, known: nat)

  /** The ring and its workers; the clients whose attributes have been read, in order, of
      which the first `accepted` have their handle; and the replies sent, by datagram. */
  datatype Service = Service(u: UdState, announced: seq<QpAttr>, accepted: nat, sent: map<nat, Sent>)

  datatype Act = Announce(attr: QpAttr) | Finish | Ring(step: UdStep)

  ghost predicate ServiceInit(s: Service) {
    UdInit(s.u) && s.announced == [] && s.accepted == 0 && s.sent == map[]
  }

  ghost predicate Known(announced: seq<QpAttr>, id: int) {
    exists i :: 0 <= i < |announced| && announced[i].clientId == id
  }

  /** One client is accepted at a time, and a worker created when it has been; only clients that
      were told about the server send. */
  ghost predicate CanAct(s: Service, a: Act) {
    match a
    case Announce(attr) => s.accepted == |s.announced| < MAX_CLIENTS && attr.clientId < MAX_CLIENTS
    case Finish => s.accepted < |s.announced|
    case Ring(step) =>
      && UdEnabled(s.u, step) && (step.Arrive? ==> Known(s.announced, step.d.clientId))
      && (step.Join? ==> |s.u.workers| < s.accepted)
  }

  /** The lookups of `ud_send_response` when this many clients are known and accepted. */
  function RouteNow(announced: seq<QpAttr>, accepted: nat, id: int): Route
    requires accepted <= |announced|
  {
    if id < 0 then Route(NO_ROUTE, NO_ROUTE)
    else Route(HandleLid(announced[..accepted], id), RouteFor(announced, id).qpn)
  }

  function Perform(s: Service, a: Act): Service
    requires s.accepted <= |s.announced| && (a.Ring? ==> UdEnabled(s.u, a.step))
  {
    match a
    case Announce(attr) => s.(announced := s.announced + [attr])
    case Finish => s.(accepted := |s.announced|)
    case Ring(step) =>
      var u := UdDo(s.u, step);
      if step.SendReply? then
        var l := s.u.workers[step.w];
        s.(u := u, sent := s.sent[l.number := Sent(RouteNow(s.announced, s.accepted, l.handling), s.accepted, |s.announced|)])
      else s.(u := u)
  }

  /** Each reply went where the tables pointed when it was sent. */
  ghost predicate SentOk(announced: seq<QpAttr>, n: nat, r: Sent, arrivals: seq<Request>) {
    && n < |arrivals| && 0 < r.accepted <= r.known <= |announced|
    && r.route == RouteNow(announced[..r.known], r.accepted, arrivals[n].clientId)
  }

  ghost predicate SentInv(s: Service) {
    forall n :: n in s.sent ==> SentOk(s.announced, n, s.sent[n], s.u.h.arrivals)
  }

  ghost predicate SendersKnown(s: Service) {
    forall n :: 0 <= n < |s.u.h.arrivals| ==> Known(s.announced, s.u.h.arrivals[n].clientId)
  }

  ghost predicate ServiceInv(s: Service) {
    && UdInv(s.u) && |s.u.workers| <= s.accepted <= |s.announced|
    && s.sent.Keys == s.u.h.replies.Keys && SentInv(s) && SendersKnown(s)
  }

  lemma KnownGrows(announced: seq<QpAttr>, attr: QpAttr, id: int)
    requires Known(announced, id)
    ensures Known(announced + [attr], id)
  {
    var i :| 0 <= i < |announced| && announced[i].clientId == id;
    assert (announced + [attr])[i].clientId == id;
  }

  lemma AnnounceKept(s: Service, attr: QpAttr)
    requires ServiceInv(s)
    ensures ServiceInv(Perform(s, Announce(attr)))
  {
    var t := Perform(s, Announce(attr));
    forall n | n in t.sent
      ensures SentOk(t.announced, n, t.sent[n], t.u.h.arrivals)
    {
      assert t.announced[..s.sent[n].known] == s.announced[..s.sent[n].known];
    }
    forall n | 0 <= n < |t.u.h.arrivals|
      ensures Known(t.announced, t.u.h.arrivals[n].clientId)
    {
      KnownGrows(s.announced, attr, s.u.h.arrivals[n].clientId);
    }
  }

  lemma ArrivalsGrow(u: UdState, step: UdStep)
    requires UdEnabled(u, step)
    ensures UdDo(u, step).h.arrivals == if step.Arrive? then u.h.arrivals + [step.d] else u.h.arrivals
    ensures UdDo(u, step).h.replies.Keys == u.h.replies.Keys + (if step.SendReply? then {u.workers[step.w].number} else {})
  {
  }

  /** A worker about to reply remembers the sender of its own datagram. */
  lemma ReplierKnowsSender(u: UdState, w: nat)
    requires UdInv(u) && At(u, w, Working)
    ensures u.workers[w].number < |u.h.arrivals| && u.workers[w].handling == u.h.arrivals[u.workers[w].number].clientId
  {
    assert Busy(u.workers[w]);
  }

  lemma WorkersCounted(u: UdState, step: UdStep)
    requires UdEnabled(u, step)
    ensures |UdDo(u, step).workers| == |u.workers| + if step.Join? then 1 else 0
    ensures step.SendReply? ==> |u.workers| > 0
  {
    var t := UdDo(u, step);
    if step.Join? {
      assert t.workers.Keys == u.workers.Keys + {step.w};
    } else {
      assert t.workers.Keys == u.workers.Keys;
    }
    assert |t.workers.Keys| == |t.workers| && |u.workers.Keys| == |u.workers|;
    if step.SendReply? {
      assert step.w in u.workers.Keys;
    }
  }

  lemma SentKept(s: Service, step: UdStep)
    requires SentInv(s) && |s.u.workers| <= s.accepted <= |s.announced| && UdEnabled(s.u, step)
    requires step.SendReply? ==>
               var l := s.u.workers[step.w];
               l.number < |s.u.h.arrivals| && l.handling == s.u.h.arrivals[l.number].clientId
    ensures SentInv(Perform(s, Ring(step)))
  {
    ArrivalsGrow(s.u, step);
    WorkersCounted(s.u, step);
    assert s.announced[..|s.announced|] == s.announced;
    assert forall n :: n in s.sent ==> SentOk(s.announced, n, s.sent[n], s.u.h.arrivals);
  }

  lemma RepliesAreSent(s: Service, step: UdStep)
    requires s.accepted <= |s.announced| && UdEnabled(s.u, step) && s.sent.Keys == s.u.h.replies.Keys
    ensures var t := Perform(s, Ring(step)); t.sent.Keys == t.u.h.replies.Keys
    ensures var t := Perform(s, Ring(step)); t.u == UdDo(s.u, step) && t.accepted == s.accepted && t.announced == s.announced
  {
    ArrivalsGrow(s.u, step);
  }

  lemma SendersKept(s: Service, step: UdStep)
    requires s.accepted <= |s.announced| && SendersKnown(s) && CanAct(s, Ring(step))
    ensures SendersKnown(Perform(s, Ring(step)))
  {
    ArrivalsGrow(s.u, step);
  }

  lemma RingKept(s: Service, step: UdStep)
    requires ServiceInv(s) && CanAct(s, Ring(step))
    ensures ServiceInv(Perform(s, Ring(step)))
  {
    UdInvKept(s.u, step);
    RepliesAreSent(s, step);
    if step.SendReply? {
      ReplierKnowsSender(s.u, step.w);
    }
    WorkersCounted(s.u, step);
    SentKept(s, step);
    SendersKept(s, step);
  }

  ghost predicate ServiceReaches(s: Service, acts: seq<Act>, t: Service)
    decreases |acts|
  {
    if acts == [] then s == t
    else s.accepted <= |s.announced| && CanAct(s, acts[0]) && ServiceReaches(Perform(s, acts[0]), acts[1..], t)
  }

  lemma {:induction false} ServiceInvAlways(s: Service, acts: seq<Act>, t: Service)
    requires ServiceInv(s) && ServiceReaches(s, acts, t)
    ensures ServiceInv(t)
    decreases |acts|
  {
    if acts != [] {
      match acts[0] {
        case Announce(attr) => AnnounceKept(s, attr);
        case Finish =>
        case Ring(step) => RingKept(s, step);
      }
      ServiceInvAlways(Perform(s, acts[0]), acts[1..], t);
    }
  }

  /** The clients announced over a schedule, and the ring's part of it. */
  function Clients(acts: seq<Act>): seq<QpAttr> {
    if acts == [] then [] else (if acts[0].Announce? then [acts[0].attr] else []) + Clients(acts[1..])
  }

  function RingSteps(acts: seq<Act>): seq<UdStep> {
    if acts == [] then [] else (if acts[0].Ring? then [acts[0].step] else []) + RingSteps(acts[1..])
  }

  /** Who is announced when one more act comes first. */
  lemma ClientsFirst(before: seq<QpAttr>, one: seq<QpAttr>, rest: seq<QpAttr>)
    ensures (before + one) + rest == before + (one + rest)
  {
  }

  lemma {:induction false} AnnouncedAreClients(s: Service, acts: seq<Act>, t: Service)
    requires ServiceReaches(s, acts, t)
    ensures t.announced == s.announced + Clients(acts)
    decreases |acts|
  {
    if acts != [] {
      var n := Perform(s, acts[0]);
      AnnouncedAreClients(n, acts[1..], t);
      ActAnnounces(s, acts[0]);
      ClientsFirst(s.announced, if acts[0].Announce? then [acts[0].attr] else [], Clients(acts[1..]));
    }
  }

  lemma ActAnnounces(s: Service, a: Act)
    requires s.accepted <= |s.announced| && CanAct(s, a)
    ensures Perform(s, a).announced == s.announced + if a.Announce? then [a.attr] else []
  {
  }

  /** The ring and its workers run as if by themselves. */
  lemma {:induction false} RingRunsAlone(s: Service, acts: seq<Act>, t: Service)
    requires ServiceReaches(s, acts, t)
    ensures UdReaches(s.u, RingSteps(acts), t.u)
    decreases |acts|
  {
    if acts != [] {
      RingRunsAlone(Perform(s, acts[0]), acts[1..], t);
      if acts[0].Ring? {
        var rest := RingSteps(acts[1..]);
        assert RingSteps(acts) == [acts[0].step] + rest && ([acts[0].step] + rest)[1..] == rest;
      } else {
        assert RingSteps(acts) == RingSteps(acts[1..]);
      }
    }
  }

  ghost predicate InOrder(announced: seq<QpAttr>) {
    forall i :: 0 <= i < |announced| ==> announced[i].clientId == i && announced[i].lid != NO_ROUTE
  }

  lemma {:induction false} HandleInOrder(announced: seq<QpAttr>, accepted: nat, id: nat)
    requires InOrder(announced) && accepted <= |announced|
    ensures HandleLid(announced[..accepted], id) == if id < accepted then announced[id].lid else NO_ROUTE
    decreases accepted
  {
    if accepted > 0 {
      assert announced[..accepted][..accepted - 1] == announced[..accepted - 1];
      HandleInOrder(announced, accepted - 1, id);
    }
  }

  /** Clients accepted in id order, beside the running workers: for every schedule, whichever
      worker sends reply n, it goes to the sender of the n-th datagram if and only if the
      sender's acceptance was complete when the reply was sent. */
  lemma ReplyReachesSenderIff(s: Service, acts: seq<Act>, t: Service, n: nat)
    requires ServiceInit(s) && ServiceReaches(s, acts, t) && InOrder(t.announced) && n in t.u.h.replies
    ensures t.announced == Clients(acts) && t.u.h.arrivals == Datagrams(RingSteps(acts))
    ensures n in t.sent && n < |t.u.h.arrivals| && 0 <= t.u.h.arrivals[n].clientId < |t.announced|
    ensures
      var sender := t.u.h.arrivals[n].clientId;
      t.sent[n].route == Route(t.announced[sender].lid, t.announced[sender].qpn) <==> sender < t.sent[n].accepted
  {
    UdInitInv(s.u);
    ServiceInvAlways(s, acts, t);
    HistoryOfActs(s, acts, t);
    RouteOfReply(t, n);
  }

  lemma HistoryOfActs(s: Service, acts: seq<Act>, t: Service)
    requires ServiceInit(s) && ServiceReaches(s, acts, t)
    ensures t.announced == Clients(acts) && t.u.h.arrivals == Datagrams(RingSteps(acts))
  {
    AnnouncedAreClients(s, acts, t);
    RingRunsAlone(s, acts, t);
    ArrivalsOfRun(s.u, RingSteps(acts), t.u);
  }

  lemma RouteOfReply(t: Service, n: nat)
    requires SentInv(t) && SendersKnown(t) && InOrder(t.announced) && n in t.sent
    ensures n < |t.u.h.arrivals| && 0 <= t.u.h.arrivals[n].clientId < |t.announced|
    ensures
      var sender := t.u.h.arrivals[n].clientId;
      t.sent[n].route == Route(t.announced[sender].lid, t.announced[sender].qpn) <==> sender < t.sent[n].accepted
  {
    var r := t.sent[n];
    assert SentOk(t.announced, n, r, t.u.h.arrivals);
    assert Known(t.announced, t.u.h.arrivals[n].clientId);
    var sender := t.u.h.arrivals[n].clientId;
    var known := t.announced[..r.known];
    assert known[..r.accepted] == t.announced[..r.accepted];
    HandleInOrder(t.announced, r.accepted, sender);
  }

  /** The first client accepted is never missed: there is no worker before. */
  lemma FirstClientIsReached(s: Service, acts: seq<Act>, t: Service, n: nat)
    requires ServiceInit(s) && ServiceReaches(s, acts, t) && InOrder(t.announced) && n in t.u.h.replies
    requires n < |t.u.h.arrivals| && t.u.h.arrivals[n].clientId == 0
    ensures n in t.sent && t.announced != [] && t.sent[n].route == Route(t.announced[0].lid, t.announced[0].qpn)
  {
    ReplyReachesSenderIff(s, acts, t, n);
    UdInitInv(s.u);
    ServiceInvAlways(s, acts, t);
    assert SentOk(t.announced, n, t.sent[n], t.u.h.arrivals);
  }

  lemma {:induction false} OneMoreAct(s: Service, acts: seq<Act>, t: Service, a: Act)
    requires ServiceReaches(s, acts, t) && t.accepted <= |t.announced| && CanAct(t, a)
    ensures ServiceReaches(s, acts + [a], Perform(t, a))
    decreases |acts|
  {
    if acts == [] {
      assert [a][1..] == [];
    } else {
      OneMoreAct(Perform(s, acts[0]), acts[1..], t, a);
      assert (acts + [a])[1..] == acts[1..] + [a];
    }
  }

  /** Ring steps are steps of the service, if their arrivals are from clients it knows. */
  lemma {:induction false} RingRun(s: Service, steps: seq<UdStep>, u: UdState) returns (acts: seq<Act>, t: Service)
    requires s.accepted <= |s.announced| && UdReaches(s.u, steps, u)
    requires forall i :: 0 <= i < |steps| && steps[i].Arrive? ==> Known(s.announced, steps[i].d.clientId)
    requires forall i :: 0 <= i < |steps| ==> !steps[i].SendReply? && (steps[i].Join? ==> i == 0 && |s.u.workers| < s.accepted)
    ensures ServiceReaches(s, acts, t) && t == s.(u := u)
    decreases |steps|
  {
    if steps == [] {
      acts, t := [], s;
    } else {
      var n := Perform(s, Ring(steps[0]));
      var rest: seq<Act>;
      rest, t := RingRun(n, steps[1..], u);
      acts := [Ring(steps[0])] + rest;
      assert acts[1..] == rest;
    }
  }

  lemma SecondHandled(s: Service, attr0: QpAttr, attr1: QpAttr, d: Request) returns (acts: seq<Act>, t: Service)
    requires ServiceInit(s) && attr0.clientId == 0 && attr1.clientId == 1 && Proper(d) && d.clientId == 1
    ensures ServiceReaches(s, acts, t) && t.announced == [attr0, attr1] && t.accepted == 1
    ensures At(t.u, 0, Working) && t.u.workers[0].number == 0 && t.u.workers[0].handling == 1 && t.u.h.arrivals == [d]
  {
    var before, v := SecondAnnounced(s, attr0, attr1);
    var steps, u := FirstDatagram(v.u, d, false);
    assert v.announced[1].clientId == 1;
    var more: seq<Act>;
    more, t := RingRun(v, steps, u);
    ServiceConcat(s, before, v, more, t);
    acts := before + more;
    UdInitInv(s.u);
    UdInvAlways(s.u, steps, u);
    ReplierKnowsSender(u, 0);
  }

  /** Client 0 is accepted and its worker started; client 1 sends as soon as it knows the server,
      and the worker answers it before its handle exists: the reply has a queue pair number and
      nowhere to go. */
  lemma EarlyReplyIsLost(s: Service, attr0: QpAttr, attr1: QpAttr, d: Request) returns (acts: seq<Act>, t: Service)
    requires ServiceInit(s) && attr0.clientId == 0 && attr1.clientId == 1 && Proper(d) && d.clientId == 1
    ensures ServiceReaches(s, acts, t) && t.announced == [attr0, attr1] && t.u.h.arrivals == [d]
    ensures 0 in t.sent && t.sent[0].route == Route(NO_ROUTE, attr1.qpn)
  {
    var before, x := SecondHandled(s, attr0, attr1, d);
    OneMoreAct(s, before, x, Ring(SendReply(0)));
    acts, t := before + [Ring(SendReply(0))], Perform(x, Ring(SendReply(0)));
    assert HandleLid([attr0], 1) == NO_ROUTE;
    assert x.announced[..1] == [attr0];
    assert RouteNow(x.announced, x.accepted, 1) == Route(NO_ROUTE, attr1.qpn);
  }

  lemma SecondAnnounced(s: Service, attr0: QpAttr, attr1: QpAttr) returns (acts: seq<Act>, t: Service)
    requires ServiceInit(s) && attr0.clientId == 0 && attr1.clientId == 1
    ensures ServiceReaches(s, acts, t) && t == Service(s.u, [attr0, attr1], 1, map[])
  {
    var v := Perform(s, Announce(attr0));
    OneMoreAct(s, [], s, Announce(attr0));
    var x := Perform(v, Finish);
    OneMoreAct(s, [] + [Announce(attr0)], v, Finish);
    OneMoreAct(s, [] + [Announce(attr0)] + [Finish], x, Announce(attr1));
    acts, t := [] + [Announce(attr0)] + [Finish] + [Announce(attr1)], Perform(x, Announce(attr1));
  }

  lemma {:induction false} ServiceConcat(s: Service, acts: seq<Act>, t: Service, more: seq<Act>, u: Service)
    requires ServiceReaches(s, acts, t) && ServiceReaches(t, more, u)
    ensures ServiceReaches(s, acts + more, u)
    decreases |acts|
  {
    if acts == [] {
      assert acts + more == more;
    } else {
      ServiceConcat(Perform(s, acts[0]), acts[1..], t, more, u);
      assert (acts + more)[1..] == acts[1..] + more;
    }
  }
}
