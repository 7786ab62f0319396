/** Where datagram replies are sent. A client's address handle is stored under the id the
    client announces, its queue pair number under its place in the order of acceptance; a
    reply looks both up by the id in the request. */
module UdRouting {
  import opened Messages

  /** What a client announces when it connects (`struct qp_attr`). */
  datatype QpAttr = QpAttr(clientId: nat, lid: int, qpn: int)

  /** A reply's destination: the handle's device and the queue pair number. */
  datatype Route = Route(lid: int, qpn: int)

  const NO_ROUTE := 0

  /** The lid of the last client that announced this id. */
  function HandleLid(regs: seq<QpAttr>, id: nat): int {
    if regs == [] then NO_ROUTE
    else if regs[|regs| - 1].clientId == id then regs[|regs| - 1].lid
    else HandleLid(regs[..|regs| - 1], id)
  }

  function RouteFor(regs: seq<QpAttr>, id: nat): Route {
    Route(HandleLid(regs, id), if id < |regs| then regs[id].qpn else NO_ROUTE)
  }

  /** The tables of `struct ud_server_info`. */
  class Registry {
    var remote: array<QpAttr>
    var handles: array<int>
    var clientCounter: nat
    ghost var regs: seq<QpAttr>

    ghost predicate Valid()
      reads this, remote, handles
    {
      && remote.Length == handles.Length == MAX_CLIENTS && clientCounter == |regs| <= MAX_CLIENTS
      && (forall i :: 0 <= i < |regs| ==> remote[i] == regs[i])
      && (forall i :: |regs| <= i < MAX_CLIENTS ==> remote[i].qpn == NO_ROUTE)
      && (forall id :: 0 <= id < MAX_CLIENTS ==> handles[id] == HandleLid(regs, id))
    }

    constructor ()
      ensures Valid() && regs == [] && fresh(remote) && fresh(handles)
    {
      remote := new QpAttr[MAX_CLIENTS](_ => QpAttr(0, NO_ROUTE, NO_ROUTE));
      handles := new int[MAX_CLIENTS](_ => NO_ROUTE);
      clientCounter, regs := 0, [];
    }

    /** `ud_accept_new_connection`: attributes by place, handle by announced id. */
    method Accept(attr: QpAttr)
      requires Valid() && |regs| < MAX_CLIENTS && attr.clientId < MAX_CLIENTS
      modifies this, remote, handles
      ensures Valid() && regs == old(regs) + [attr] && remote == old(remote) && handles == old(handles)
    {
      remote[clientCounter] := attr;
      var clientId := remote[clientCounter].clientId;
      handles[clientId] := remote[clientCounter].lid;
      clientCounter := clientCounter + 1;
      regs := regs + [attr];
      assert regs[..|regs| - 1] == old(regs);
    }

    /** The two lookups of `ud_send_response`. */
    method Destination(handling: nat) returns (r: Route)
      requires Valid() && handling < MAX_CLIENTS
      ensures r == RouteFor(regs, handling)
    {
      r := Route(handles[handling], remote[handling].qpn);
    }
  }

  /** The handle stored under an id is that of the last client to announce it, or none. */
  lemma {:induction false} HandleIsLast(regs: seq<QpAttr>, id: nat, i: nat)
    requires forall j :: i < j < |regs| ==> regs[j].clientId != id
    ensures i < |regs| && regs[i].clientId == id ==> HandleLid(regs, id) == regs[i].lid
    ensures (forall j :: 0 <= j < |regs| ==> regs[j].clientId != id) ==> HandleLid(regs, id) == NO_ROUTE
    decreases |regs|
  {
    if regs != [] && regs[|regs| - 1].clientId != id {
      HandleIsLast(regs[..|regs| - 1], id, i);
    }
  }

  ghost predicate DistinctIds(regs: seq<QpAttr>) {
    forall i, j :: 0 <= i < j < |regs| ==> regs[i].clientId != regs[j].clientId
  }

  lemma {:induction false} HandleIsOwn(regs: seq<QpAttr>, i: nat)
    requires DistinctIds(regs) && i < |regs|
    ensures HandleLid(regs, regs[i].clientId) == regs[i].lid
    decreases |regs|
  {
    if i < |regs| - 1 {
      var init := regs[..|regs| - 1];
      assert init[i] == regs[i];
      HandleIsOwn(init, i);
    }
  }

  /** A client's replies reach it. */
  ghost predicate ReachedAt(regs: seq<QpAttr>, i: nat)
    requires i < |regs|
  {
    RouteFor(regs, regs[i].clientId) == Route(regs[i].lid, regs[i].qpn)
  }

  /** Clients with distinct ids: the replies of one reach it if and only if the client
      accepted at the place of its id has the same queue pair number. */
  lemma ReachedIff(regs: seq<QpAttr>, i: nat)
    requires DistinctIds(regs) && i < |regs| && regs[i].qpn != NO_ROUTE
    ensures ReachedAt(regs, i) <==> regs[i].clientId < |regs| && regs[regs[i].clientId].qpn == regs[i].qpn
  {
    HandleIsOwn(regs, i);
  }

  /** The client accepted at the place of this one's id has its queue pair number. */
  predicate OwnPlace(regs: seq<QpAttr>, i: nat)
    requires i < |regs|
  {
    regs[i].clientId < |regs| && regs[regs[i].clientId].qpn == regs[i].qpn
  }

  /** All replies are routed right if and only if every client finds its queue pair number at the
      place of its id. Where no two numbers are equal, as on one device, that is if and only if
      clients were accepted in the order of their ids, starting at 0. */
  lemma AllReachedIff(regs: seq<QpAttr>)
    requires DistinctIds(regs) && forall i :: 0 <= i < |regs| ==> regs[i].qpn != NO_ROUTE
    ensures (forall i :: 0 <= i < |regs| ==> ReachedAt(regs, i)) <==> (forall i :: 0 <= i < |regs| ==> OwnPlace(regs, i))
    ensures (forall i, j :: 0 <= i < j < |regs| ==> regs[i].qpn != regs[j].qpn) ==>
              ((forall i :: 0 <= i < |regs| ==> ReachedAt(regs, i)) <==>
               (forall i :: 0 <= i < |regs| ==> regs[i].clientId == i))
  {
    forall i | 0 <= i < |regs|
      ensures ReachedAt(regs, i) <==> OwnPlace(regs, i)
    {
      ReachedIff(regs, i);
    }
    if forall i, j :: 0 <= i < j < |regs| ==> regs[i].qpn != regs[j].qpn {
      forall i | 0 <= i < |regs|
        ensures OwnPlace(regs, i) <==> regs[i].clientId == i
      {
      }
    }
  }

  /** Two clients accepted in the wrong order: neither is reached. */
  lemma SwappedClientsAreNotReached(lid0: int, lid1: int, qpn0: int, qpn1: int)
    requires qpn0 != qpn1 && qpn0 != NO_ROUTE && qpn1 != NO_ROUTE
    ensures
      var regs := [QpAttr(1, lid1, qpn1), QpAttr(0, lid0, qpn0)];
      !ReachedAt(regs, 0) && !ReachedAt(regs, 1) && RouteFor(regs, 0) == Route(lid0, qpn1)
  {
    var regs := [QpAttr(1, lid1, qpn1), QpAttr(0, lid0, qpn0)];
    ReachedIff(regs, 0);
    ReachedIff(regs, 1);
    HandleIsOwn(regs, 1);
  }
}
