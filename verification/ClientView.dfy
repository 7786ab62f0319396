/** What the clients of the concurrent store see, in terms of the requests they made: the moves
    that begin a SET or a GET. */
module ClientView {
  import opened CStrings
  import opened Hash
  import opened BenchmarkKeys
  import opened ConcurrentStore
  import opened StoreInvariant
  import opened StoreSteps
  import opened AtomicRegister

  // ---------- every request in progress is one that was made ----------

  /** This job is for that request. */
  predicate IsFor(j: Job, a: Move) {
    match a
    case BeginSet(w, k, x) => j.op.SetOp? && j.key == k && j.msg == x
    case BeginGet(w, k) => j.op.GetOp? && j.key == k
    case Go(_, _) => false
  }

  predicate SameRequest(j: Job, k: Job) {
    k.op == j.op && k.key == j.key && k.msg == j.msg && k.h.since == j.h.since
  }

  lemma EntryKeepsRequest(w: nat, v: View, c: Choice)
    requires CanStep(w, v, c) && InEntry(v.j.pc)
    ensures SameRequest(v.j, EntryStep(w, v, c).j)
  {
  }

  lemma StepKeepsRequest(w: nat, v: View, c: Choice)
    requires CanStep(w, v, c)
    ensures SameRequest(v.j, Step(w, v, c).j)
  {
    if InEntry(v.j.pc) {
      EntryKeepsRequest(w, v, c);
    }
  }

  /** What a run leaves alone: finished jobs, what jobs are for, when they began, and events. */
  ghost predicate Continues(s: Store, t: Store) {
    && (forall w :: w in s.jobs ==>
          && w in t.jobs && SameRequest(s.jobs[w], t.jobs[w])
          && (s.jobs[w].pc.Done? ==> t.jobs[w] == s.jobs[w]))
    && |s.p.events| <= |t.p.events| && t.p.events[..|s.p.events|] == s.p.events
    && (forall w :: w in t.jobs && w !in s.jobs ==> t.jobs[w].h.since >= |s.p.events|)
  }

  lemma MoveContinues(s: Store, a: Move)
    requires Sized(s.m, s.p) && Can(s, a)
    ensures Continues(s, Next(s, a))
    ensures !a.Go? ==> a.w !in s.jobs && a.w in Next(s, a).jobs && IsFor(Next(s, a).jobs[a.w], a)
    ensures Next(s, a).jobs.Keys == s.jobs.Keys + (if a.Go? then {} else {a.w})
  {
    if a.Go? {
      var v := View(s.jobs[a.w], s.m, s.p);
      StepKeepsRequest(a.w, v, a.c);
      var e := NewEvent(a.w, v, a.c);
    }
  }

  lemma {:induction false} RunContinues(s: Store, moves: seq<Move>, t: Store)
    requires Reaches(s, moves, t)
    ensures Continues(s, t)
    decreases |moves|
  {
    if moves != [] {
      var n := Next(s, moves[0]);
      MoveContinues(s, moves[0]);
      RunContinues(n, moves[1..], t);
      ContinuesOn(s, n, t);
    }
  }

  lemma ContinuesOn(s: Store, n: Store, t: Store)
    requires Continues(s, n) && Continues(n, t)
    ensures Continues(s, t)
  {
    assert t.p.events[..|s.p.events|] == t.p.events[..|n.p.events|][..|s.p.events|];
  }

  /** In every run each request made has its job, for just what was asked. */
  lemma {:induction false} RequestsHaveJobs(s: Store, moves: seq<Move>, t: Store, i: nat)
    requires Reaches(s, moves, t) && i < |moves| && !moves[i].Go?
    ensures moves[i].w !in s.jobs && moves[i].w in t.jobs && IsFor(t.jobs[moves[i].w], moves[i])
    decreases |moves|
  {
    var n := Next(s, moves[0]);
    MoveContinues(s, moves[0]);
    RunContinues(n, moves[1..], t);
    if i > 0 {
      RequestsHaveJobs(n, moves[1..], t, i - 1);
    }
  }

  /** No two requests share one. */
  lemma {:induction false} RequestsDiffer(s: Store, moves: seq<Move>, t: Store, i: nat, j: nat)
    requires Reaches(s, moves, t) && i < j < |moves| && !moves[i].Go? && !moves[j].Go?
    ensures moves[i].w != moves[j].w
    decreases |moves|
  {
    var n := Next(s, moves[0]);
    MoveContinues(s, moves[0]);
    if i > 0 {
      RequestsDiffer(n, moves[1..], t, i - 1, j - 1);
    } else {
      RequestsHaveJobs(n, moves[1..], t, j - 1);
    }
  }

  /** And there are no other jobs. */
  lemma {:induction false} JobIsRequested(s: Store, moves: seq<Move>, t: Store, w: nat) returns (i: nat)
    requires Reaches(s, moves, t) && w in t.jobs && w !in s.jobs
    ensures i < |moves| && !moves[i].Go? && moves[i].w == w && IsFor(t.jobs[w], moves[i])
    decreases |moves|
  {
    var n := Next(s, moves[0]);
    MoveContinues(s, moves[0]);
    if w in n.jobs {
      i := 0;
    } else {
      var k := JobIsRequested(n, moves[1..], t, w);
      i := k + 1;
    }
    RequestsHaveJobs(s, moves, t, i);
  }

  // ---------- messages ----------

  /** Event m stores in the item, and none after it before n does. */
  ghost predicate LastStore(events: seq<Event>, n: nat, id: nat, m: nat) {
    m < n <= |events| && events[m].Stored? && events[m].id == id && NoStoreIn(events, m + 1, n, id)
  }

  lemma {:induction false} CurrentIsLastStore(events: seq<Event>, n: nat, id: nat)
    requires n <= |events|
    ensures (Current(events[..n], id) == [] && NoStoreIn(events, 0, n, id)) ||
            exists m: nat :: LastStore(events, n, id, m) && Current(events[..n], id) == events[m].v
    decreases n
  {
    if n > 0 {
      assert events[..n][..n - 1] == events[..n - 1];
      if events[n - 1].Stored? && events[n - 1].id == id {
        assert LastStore(events, n, id, n - 1);
      } else {
        CurrentIsLastStore(events, n - 1, id);
        if m: nat :| LastStore(events, n - 1, id, m) && Current(events[..n - 1], id) == events[m].v {
          assert LastStore(events, n, id, m);
        }
      }
    }
  }

  /** Event m stores what this SET was asked to store, whole, under the key it was asked for. */
  predicate StoresFor(e: Event, a: Move) {
    e.Stored? && a.BeginSet? && a.w == e.w && a.key == e.key && a.msg == e.v
  }

  /** Every store in a reachable state is that of one of the SETs made. */
  lemma StoreIsRequest(s: Store, moves: seq<Move>, t: Store, m: nat) returns (i: nat)
    requires InitStore(s) && Reaches(s, moves, t) && m < |t.p.events| && t.p.events[m].Stored?
    ensures i < |moves| && StoresFor(t.p.events[m], moves[i])
  {
    InitHasInv(s);
    InvAlways(s, moves, t);
    var w := t.p.events[m].w;
    AnswersAreOk(t, w);
    i := JobIsRequested(s, moves, t, w);
  }

  /** The response is the message of the SET, among those made, that stored in the item last
      before n, or empty if none did. */
  ghost predicate ReturnsLastSet(moves: seq<Move>, events: seq<Event>, n: nat, id: nat, response: seq<Char>) {
    || (response == [] && NoStoreIn(events, 0, n, id))
    || exists m: nat, i: nat :: LastStore(events, n, id, m) && i < |moves| && StoresFor(events[m], moves[i]) && moves[i].msg == response
  }

  /** What the answer to a request that was made means. OK to a SET: the whole message it
      carried was stored, once, under the key it carried. OK to a GET: the response is the whole
      message of the SET that stored last in the item it met before it took the read lock. No
      such item: no event before it read the head of the list was about an extension of its key. */
  ghost predicate Answered(a: Move, j: Job, moves: seq<Move>, events: seq<Event>)
    requires !a.Go?
  {
    && IsFor(j, a) && OneEffect(a.w, j, events)
    && (a.BeginSet? && j.pc == Done(Served) ==>
          j.h.since <= j.h.at < |events| && events[j.h.at].id == j.item && StoresFor(events[j.h.at], a))
    && (a.BeginGet? && j.pc == Done(Served) ==>
          && j.h.since <= j.h.locked <= j.h.at < |events| && j.outLen <= |j.buf|
          && events[j.h.at] == Fetched(j.item, a.key, j.buf[..j.outLen], a.w)
          && ReturnsLastSet(moves, events, j.h.locked, j.item, j.buf[..j.outLen]))
    && (j.pc == Done(Missing) ==> a.BeginGet? && j.h.since <= j.h.looked <= |events| && NothingToFind(j, events))
  }

  lemma CurrentIsReturned(s: Store, moves: seq<Move>, t: Store, n: nat, id: nat)
    requires InitStore(s) && Reaches(s, moves, t) && n <= |t.p.events|
    ensures ReturnsLastSet(moves, t.p.events, n, id, Current(t.p.events[..n], id))
  {
    CurrentIsLastStore(t.p.events, n, id);
    if m: nat :| LastStore(t.p.events, n, id, m) && Current(t.p.events[..n], id) == t.p.events[m].v {
      var i := StoreIsRequest(s, moves, t, m);
    }
  }

  /** In every run, for every request made. */
  lemma AnswersToRequests(s: Store, moves: seq<Move>, t: Store, i: nat)
    requires InitStore(s) && Reaches(s, moves, t) && i < |moves| && !moves[i].Go?
    ensures moves[i].w in t.jobs && Answered(moves[i], t.jobs[moves[i].w], moves, t.p.events)
  {
    RequestsHaveJobs(s, moves, t, i);
    InitHasInv(s);
    InvAlways(s, moves, t);
    AnswersAreOk(t, moves[i].w);
    var j := t.jobs[moves[i].w];
    if moves[i].BeginGet? && j.pc == Done(Served) {
      CurrentIsReturned(s, moves, t, j.h.locked, j.item);
    }
  }

  // ---------- keys ----------

  /** The same by key: the SET was for this very key. */
  ghost predicate ReturnsLastSetOfKey(moves: seq<Move>, events: seq<Event>, n: nat, k: CString, response: seq<Char>) {
    || (response == [] && NoStoreOfKey(events, 0, n, k))
    || exists m: nat, i: nat ::
         && m < n <= |events| && events[m].Stored? && events[m].key == k && NoStoreOfKey(events, m + 1, n, k)
         && i < |moves| && moves[i] == BeginSet(events[m].w, k, response)
  }

  ghost predicate NoStoreOfKey(events: seq<Event>, from: nat, to: nat, k: CString) {
    forall n :: from <= n < to <= |events| ==> !(events[n].Stored? && events[n].key == k)
  }

  lemma SameKeySameItem(t: Store, keys: iset<CString>, e: Event, f: Event)
    requires StoreInv(t) && PrefixFree(keys) && KeysIn(t, keys) && e in t.p.events && f in t.p.events
    ensures e.key == f.key <==> e.id == f.id
  {
    assert EventOk(e, t.m, t.p) && EventOk(f, t.m, t.p);
    OneItemPerKey(t.m, t.p, keys, e, f);
  }

  /** On prefix-free keys an OK GET returns the whole message of the SET of its own key, among
      those made, that stored last before it took the read lock, or the empty message if none
      had; a GET told there is no such key met no trace of one. */
  lemma GetReturnsLastSet(s: Store, moves: seq<Move>, t: Store, i: nat, keys: iset<CString>)
    requires InitStore(s) && Reaches(s, moves, t) && i < |moves| && moves[i].BeginGet?
    requires PrefixFree(keys) && AllAskFor(moves, keys)
    ensures moves[i].w in t.jobs
    ensures
      var j, events, k := t.jobs[moves[i].w], t.p.events, moves[i].key;
      && (j.pc == Done(Served) ==>
            && j.h.since <= j.h.locked <= |events| && j.outLen <= |j.buf|
            && ReturnsLastSetOfKey(moves, events, j.h.locked, k, j.buf[..j.outLen]))
      && (j.pc == Done(Missing) ==>
            j.h.since <= j.h.looked <= |events| && forall n :: 0 <= n < j.h.looked ==> events[n].key != k)
  {
    AnswersToRequests(s, moves, t, i);
    InitHasInv(s);
    InvAlways(s, moves, t);
    KeysAlwaysIn(s, moves, t, keys);
    var j, events, k := t.jobs[moves[i].w], t.p.events, moves[i].key;
    if j.pc == Done(Served) {
      ItemToKey(t, keys, events[j.h.at], moves, j.h.locked, j.buf[..j.outLen]);
    }
  }

  lemma ItemToKey(t: Store, keys: iset<CString>, e: Event, moves: seq<Move>, n: nat, response: seq<Char>)
    requires StoreInv(t) && PrefixFree(keys) && KeysIn(t, keys) && e in t.p.events && n <= |t.p.events|
    requires ReturnsLastSet(moves, t.p.events, n, e.id, response)
    ensures ReturnsLastSetOfKey(moves, t.p.events, n, e.key, response)
  {
    forall m | 0 <= m < n
      ensures t.p.events[m].key == e.key <==> t.p.events[m].id == e.id
    {
      SameKeySameItem(t, keys, t.p.events[m], e);
    }
    ByKey(t.p.events, e, moves, n, response);
  }

  lemma ByKey(events: seq<Event>, e: Event, moves: seq<Move>, n: nat, response: seq<Char>)
    requires n <= |events| && forall m :: 0 <= m < n ==> (events[m].key == e.key <==> events[m].id == e.id)
    requires ReturnsLastSet(moves, events, n, e.id, response)
    ensures ReturnsLastSetOfKey(moves, events, n, e.key, response)
  {
    if m: nat, i: nat :| LastStore(events, n, e.id, m) && i < |moves| && StoresFor(events[m], moves[i]) && moves[i].msg == response {
      assert moves[i] == BeginSet(events[m].w, e.key, response);
      assert NoStoreOfKey(events, m + 1, n, e.key);
    }
  }

  // ---------- real time ----------

  /** Whoever begins after another was answered takes effect after it. */
  lemma RealTimeOrder(s: Store, before: seq<Move>, u: Store, after: seq<Move>, t: Store, a: nat, b: nat)
    requires InitStore(s) && Reaches(s, before, u) && Reaches(u, after, t)
    requires a in u.jobs && u.jobs[a].pc == Done(Served) && b !in u.jobs && b in t.jobs && t.jobs[b].pc == Done(Served)
    ensures a in t.jobs && t.jobs[a] == u.jobs[a] && t.jobs[a].h.at < t.jobs[b].h.at
  {
    InitHasInv(s);
    InvAlways(s, before, u);
    InvAlways(u, after, t);
    RunContinues(u, after, t);
    AnswersAreOk(u, a);
    AnswersAreOk(t, b);
  }

  /** On prefix-free keys a GET that begins after a SET of its key was answered OK is not told
      there is no such key, and returns that SET's message or that of a later one. */
  lemma NoStaleRead(s: Store, before: seq<Move>, u: Store, after: seq<Move>, t: Store, a: nat, b: nat, keys: iset<CString>)
    returns (m: nat)
    requires InitStore(s) && Reaches(s, before, u) && Reaches(u, after, t)
    requires PrefixFree(keys) && AllAskFor(before, keys) && AllAskFor(after, keys)
    requires a in u.jobs && u.jobs[a].op.SetOp? && u.jobs[a].pc == Done(Served)
    requires b !in u.jobs && b in t.jobs && t.jobs[b].op.GetOp? && t.jobs[b].key == u.jobs[a].key
    ensures t.jobs[b].pc != Done(Missing)
    ensures t.jobs[b].pc == Done(Served) ==>
              && u.jobs[a].h.at <= m < t.jobs[b].h.at < |t.p.events| && t.jobs[b].outLen <= |t.jobs[b].buf|
              && t.p.events[m].Stored? && t.p.events[m].key == t.jobs[b].key
              && t.jobs[b].buf[..t.jobs[b].outLen] == t.p.events[m].v
  {
    InitHasInv(s);
    InvAlways(s, before, u);
    InvAlways(u, after, t);
    RunContinues(u, after, t);
    InitKeysIn(s, keys);
    KeysAlwaysIn(s, before, u, keys);
    KeysAlwaysIn(u, after, t, keys);
    AnswersAreOk(u, a);
    AnswersAreOk(t, b);
    var at, events, j := u.jobs[a].h.at, t.p.events, t.jobs[b];
    assert events[at] == events[..|u.p.events|][at];
    if j.pc == Done(Served) {
      SameKeySameItem(t, keys, events[at], events[j.h.at]);
      CurrentIsLastStore(events, j.h.locked, j.item);
      m :| LastStore(events, j.h.locked, j.item, m) && Current(events[..j.h.locked], j.item) == events[m].v;
      SameKeySameItem(t, keys, events[m], events[j.h.at]);
    } else {
      m := 0;
    }
  }

  lemma InitKeysIn(s: Store, keys: iset<CString>)
    requires InitStore(s)
    ensures KeysIn(s, keys)
  {
  }
}
