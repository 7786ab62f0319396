/** One iteration of `main_job` seen from the client: the replies sent by the dispatcher and
    by the main loop. Some methods are answered by both. */
module Dispatcher {
  import opened Hash
  import opened Messages
  import opened Buckets
  import opened KvStores
  import opened RcProtocol

  /** What `request_dispatcher` sends itself; `option` stands for the outcome of the socket
      calls behind SETOPT. */
  function DispatchReplies(op: Method, option: Response): seq<Response> {
    match op
    case PING => [Response(OK, [])]
    case EXIT => [Response(OK, [])]
    case SETOPT => [option]
    case UNK => [Response(PARSING_ERROR, [])]
    case _ => []
  }

  /** A worker session: its store, the replies it has sent, and whether it still runs. */
  class Session {
    var store: KvStore
    var sent: seq<Response>
    var running: bool

    ghost predicate Valid()
      reads this, store, store.ht, store.ht.Repr
    {
      store.Valid() && this !in store.ht.Repr
    }

    constructor ()
      ensures Valid() && fresh(store) && fresh(store.ht) && fresh(store.ht.Repr)
      ensures sent == [] && running && store.Table() == EmptyTable()
    {
      store := new KvStore();
      sent, running := [], true;
    }

    /** `send_response` of the dispatcher and `send_response_to_client`. */
    method Send(r: Response)
      modifies this`sent
      ensures sent == old(sent) + [r]
    {
      sent := sent + [r];
    }

    /** `request_dispatcher`. */
    method Dispatch(r: Request, option: Response)
      modifies this`sent, this`running
      ensures sent == old(sent) + DispatchReplies(r.op, option)
      ensures running == (old(running) && r.op != EXIT)
    {
      match r.op
      case PING => Send(Response(OK, []));
      case EXIT =>
        Send(Response(OK, []));
        running := false;
      case SETOPT => Send(option);
      case UNK => Send(Response(PARSING_ERROR, []));
      case _ =>
    }

    /** The body of the do-while loop: dispatch, clear, handle, send. */
    method Iterate(r: Request, option: Response)
      requires Valid() && WellFormed(r) && running
      modifies this, store, store.ht, store.ht.Repr
      ensures Valid() && store == old(store)
      ensures fresh(store.ht.Repr - old(store.ht.Repr)) && (store.ht == old(store.ht) || fresh(store.ht))
      ensures running == (r.op != EXIT)
      ensures sent == old(sent) + RepliesTo(old(store.Table()), r, option)
      ensures store.Table() == Process(old(store.Table()), r).table
    {
      Dispatch(r, option);
      if !running {
        return;
      }
      var response := store.Handle(r);
      Send(response);
    }

    /** The do-while loop over a whole session, to its end or to an EXIT. */
    method Serve(rs: seq<Request>, option: Response)
      requires Valid() && running && forall i :: 0 <= i < |rs| ==> WellFormed(rs[i])
      modifies this, store, store.ht, store.ht.Repr
      ensures Valid() && store == old(store)
      ensures sent == old(sent) + SessionReplies(old(store.Table()), rs, option)
      ensures AllAnsweredOnce(rs) ==> sent == old(sent) + Run(old(store.Table()), rs).replies
    {
      ghost var start, goal := store.Table(), sent + SessionReplies(store.Table(), rs, option);
      var i := 0;
      while i < |rs| && running
        invariant 0 <= i <= |rs| && Valid() && store == old(store)
        invariant fresh(store.ht.Repr - old(store.ht.Repr)) && (store.ht == old(store.ht) || fresh(store.ht))
        invariant goal == sent + (if running then SessionReplies(store.Table(), rs[i..], option) else [])
      {
        SessionUnfolds(sent, store.Table(), rs, i, option);
        Iterate(rs[i], option);
        i := i + 1;
      }
      if AllAnsweredOnce(rs) {
        PairedIff(start, rs, option);
      }
    }
  }

  lemma SessionUnfolds(sent: seq<Response>, t: Table, rs: seq<Request>, i: nat, option: Response)
    requires |t| == CAPACITY && i < |rs|
    ensures
      var rest := if rs[i].op == EXIT then [] else SessionReplies(Process(t, rs[i]).table, rs[i + 1..], option);
      sent + SessionReplies(t, rs[i..], option) == sent + RepliesTo(t, rs[i], option) + rest
  {
    assert rs[i..][1..] == rs[i + 1..];
  }

  /** Everything sent for one request: the dispatcher's replies, then the main loop's one,
      unless the process has exited. */
  function RepliesTo(t: Table, r: Request, option: Response): seq<Response>
    requires |t| == CAPACITY
  {
    DispatchReplies(r.op, option) + (if r.op == EXIT then [] else [Process(t, r).reply])
  }

  /** Everything sent over a session, which an EXIT ends. */
  function SessionReplies(t: Table, rs: seq<Request>, option: Response): seq<Response>
    requires |t| == CAPACITY
    decreases |rs|
  {
    if rs == [] then []
    else if rs[0].op == EXIT then RepliesTo(t, rs[0], option)
    else RepliesTo(t, rs[0], option) + SessionReplies(Process(t, rs[0]).table, rs[1..], option)
  }

  lemma {:induction false} AtLeastOneEach(t: Table, rs: seq<Request>, option: Response)
    requires |t| == CAPACITY && forall i :: 0 <= i < |rs| ==> rs[i].op != EXIT
    ensures |SessionReplies(t, rs, option)| >= |rs|
    decreases |rs|
  {
    if rs != [] {
      AtLeastOneEach(Process(t, rs[0]).table, rs[1..], option);
    }
  }

  predicate AllAnsweredOnce(rs: seq<Request>) {
    forall i :: 0 <= i < |rs| ==> AnsweredOnce(rs[i].op)
  }

  lemma AllOnceHead(rs: seq<Request>)
    requires rs != []
    ensures AllAnsweredOnce(rs) <==> AnsweredOnce(rs[0].op) && AllAnsweredOnce(rs[1..])
  {
    assert rs == [rs[0]] + rs[1..];
  }

  lemma AnsweredOnceMeansOne(t: Table, r: Request, option: Response)
    requires |t| == CAPACITY && r.op != EXIT
    ensures |RepliesTo(t, r, option)| == 1 <==> AnsweredOnce(r.op)
    ensures |RepliesTo(t, r, option)| >= 1
    ensures AnsweredOnce(r.op) ==> RepliesTo(t, r, option) == [Process(t, r).reply]
  {
  }

  /** A session sends as many replies as it handled requests if and only if it saw no PING,
      SETOPT or UNK; and then the replies are the store's, one per request and in order. */
  lemma {:induction false} PairedIff(t: Table, rs: seq<Request>, option: Response)
    requires |t| == CAPACITY && forall i :: 0 <= i < |rs| ==> rs[i].op != EXIT
    ensures |SessionReplies(t, rs, option)| == |rs| <==> AllAnsweredOnce(rs)
    ensures AllAnsweredOnce(rs) ==> SessionReplies(t, rs, option) == Run(t, rs).replies
    decreases |rs|
  {
    if rs != [] {
      var next := Process(t, rs[0]).table;
      PairedIff(next, rs[1..], option);
      AtLeastOneEach(next, rs[1..], option);
      AnsweredOnceMeansOne(t, rs[0], option);
      AllOnceHead(rs);
    }
  }

  /** One PING, SETOPT or unknown request is answered twice, by the dispatcher first and then by
      the main loop with a cleared response; an EXIT once, and it ends the session. */
  lemma AnsweredTwice(t: Table, r: Request, rest: seq<Request>, option: Response)
    requires |t| == CAPACITY
    ensures r.op == PING ==> SessionReplies(t, [r], option) == [Response(OK, []), Response(OK, [])]
    ensures r.op == SETOPT ==> SessionReplies(t, [r], option) == [option, Response(OK, [])]
    ensures r.op == UNK ==> SessionReplies(t, [r], option) == [Response(PARSING_ERROR, []), Response(OK, [])]
    ensures r.op == EXIT ==> SessionReplies(t, [r] + rest, option) == [Response(OK, [])]
    ensures r.op in {PING, SETOPT, UNK} ==> Process(t, r).table == t
  {
    assert SessionReplies(Process(t, r).table, [r][1..], option) == [];
    assert ([r] + rest)[0] == r;
  }
}
