/** In every run of any number of SETs and GETs, each item, and on prefix-free keys each key,
    is an atomic register. */
module AtomicRegister {
  import opened CStrings
  import opened Hash
  import opened BenchmarkKeys
  import opened ConcurrentStore
  import opened StoreInvariant
  import opened StoreSteps

  ghost predicate StoreInv(s: Store) {
    && Sized(s.m, s.p) && SharedInv(s.m, s.p)
    && EffectsOwned(s.p.events, s.jobs.Keys)
    && forall w :: w in s.jobs ==> JobInv(w, s.jobs[w], s.m, s.p)
  }

  /** Every effect is the effect of a request. */
  ghost predicate EffectsOwned(events: seq<Event>, requests: set<nat>) {
    forall n :: 0 <= n < |events| && !events[n].Created? ==> events[n].w in requests
  }

  lemma InitHasInv(s: Store)
    requires InitStore(s)
    ensures StoreInv(s)
  {
  }

  lemma FreshJobOk(w: nat, op: Op, key: CString, msg: seq<Char>, m: Memory, p: Past, requests: set<nat>)
    requires Sized(m, p) && IsKey(key) && |msg| <= MSG_SIZE && w !in requests && EffectsOwned(p.events, requests)
    ensures JobInv(w, Fresh(op, key, msg, |p.events|), m, p)
  {
  }

  /** A step of worker w leaves the invariant of worker u true, whether or not u is w. */
  lemma JobKept(w: nat, v: View, c: Choice, u: nat, j: Job)
    requires CanStep(w, v, c) && SharedInv(v.m, v.p) && JobInv(w, v.j, v.m, v.p)
    requires JobInv(u, j, v.m, v.p)
    ensures var t := Step(w, v, c); Sized(t.m, t.p) && JobInv(u, if u == w then t.j else j, t.m, t.p)
  {
    if u == w {
      OwnKept(w, v, c);
    } else {
      var t := Step(w, v, c);
      StepGuarantee(w, v, c);
      JobStable(w, u, j, v.m, v.p, t.m, t.p);
    }
  }

  lemma EffectsStayOwned(w: nat, v: View, c: Choice, requests: set<nat>)
    requires CanStep(w, v, c) && w in requests && EffectsOwned(v.p.events, requests) && HoldsItem(w, v.j, v.m.items)
    ensures EffectsOwned(Step(w, v, c).p.events, requests)
  {
    EventsGuarantee(w, v, c);
    var events := Step(w, v, c).p.events;
    assert forall n :: 0 <= n < |v.p.events| ==> events[n] == events[..|v.p.events|][n];
  }

  lemma GoKept(s: Store, a: Move)
    requires StoreInv(s) && Can(s, a) && a.Go?
    ensures StoreInv(Next(s, a))
  {
    var v := View(s.jobs[a.w], s.m, s.p);
    var t := Step(a.w, v, a.c);
    SharedKept(a.w, v, a.c);
    EffectsStayOwned(a.w, v, a.c, s.jobs.Keys);
    forall u | u in s.jobs
      ensures Sized(t.m, t.p) && JobInv(u, if u == a.w then t.j else s.jobs[u], t.m, t.p)
    {
      JobKept(a.w, v, a.c, u, s.jobs[u]);
    }
    NextOf(s, a, t);
  }

  lemma NextOf(s: Store, a: Move, t: View)
    requires Sized(s.m, s.p) && Can(s, a) && a.Go? && t == Step(a.w, View(s.jobs[a.w], s.m, s.p), a.c)
    requires SharedInv(t.m, t.p) && Sized(t.m, t.p) && EffectsOwned(t.p.events, s.jobs.Keys)
    requires forall u :: u in s.jobs ==> JobInv(u, if u == a.w then t.j else s.jobs[u], t.m, t.p)
    ensures StoreInv(Next(s, a))
  {
    var n := Next(s, a);
    assert n == Store(t.m, s.jobs[a.w := t.j], t.p);
    assert n.jobs.Keys == s.jobs.Keys;
    forall u | u in n.jobs
      ensures JobInv(u, n.jobs[u], n.m, n.p)
    {
      assert u in s.jobs;
    }
  }

  lemma InvKept(s: Store, a: Move)
    requires StoreInv(s) && Can(s, a)
    ensures StoreInv(Next(s, a))
  {
    match a
    case BeginSet(w, k, x) => FreshJobOk(w, SetOp, k, x, s.m, s.p, s.jobs.Keys);
    case BeginGet(w, k) => FreshJobOk(w, GetOp, k, [], s.m, s.p, s.jobs.Keys);
    case Go(w, c) => GoKept(s, a);
  }

  /** t is reached from s by these moves, in this order: one schedule. */
  ghost predicate Reaches(s: Store, moves: seq<Move>, t: Store)
    decreases |moves|
  {
    if moves == [] then s == t
    else Sized(s.m, s.p) && Can(s, moves[0]) && Reaches(Next(s, moves[0]), moves[1..], t)
  }

  lemma {:induction false} InvAlways(s: Store, moves: seq<Move>, t: Store)
    requires StoreInv(s) && Reaches(s, moves, t)
    ensures StoreInv(t)
    decreases |moves|
  {
    if moves != [] {
      InvKept(s, moves[0]);
      InvAlways(Next(s, moves[0]), moves[1..], t);
    }
  }

  // ---------- safety of the unlocked walk ----------

  /** No worker ever follows a pointer to memory that was not allocated, or reads or writes
      outside a value, although GET walks the list with no lock. */
  lemma NoWildAccess(s: Store, moves: seq<Move>, t: Store, w: nat)
    requires InitStore(s) && Reaches(s, moves, t) && w in t.jobs
    ensures Safe(t.jobs[w], t.m)
  {
    InitHasInv(s);
    InvAlways(s, moves, t);
    WalkerIsSafe(w, t.jobs[w], t.m, t.p);
  }

  lemma WalkerIsSafe(w: nat, j: Job, m: Memory, p: Past)
    requires SharedInv(m, p) && JobInv(w, j, m, p)
    ensures Safe(j, m)
  {
    if Walking(j.pc) {
      var b := Bucket(j.key);
      WalkAdvances(j, p.chains[b], m.heads[b], m, SUnlock, SNew);
    }
  }

  // ---------- each item is an atomic register ----------

  /** What a request's answer means. OK to a SET: its own message was stored, once, after it
      began. OK to a GET: it returns the item's value at the moment it took the read lock.
      No such item, to a GET: no event before it read the head was about an extension of its
      key. And whoever is not answered OK has stored and fetched nothing. */
  ghost predicate AnswerOk(w: nat, j: Job, events: seq<Event>) {
    && (j.op.SetOp? && j.pc == Done(Served) ==> SetEffect(w, j, events))
    && (j.op.GetOp? && j.pc == Done(Served) ==>
          && GetEffect(w, j, events)
          && j.buf[..j.outLen] == Current(events[..j.h.locked], j.item) == Current(events[..j.h.at], j.item))
    && (j.pc == Done(Missing) ==> j.op.GetOp? && j.h.since <= j.h.looked <= |events| && NothingToFind(j, events))
    && OneEffect(w, j, events)
  }

  lemma {:induction false} NoStoreKeepsCurrent(events: seq<Event>, lo: nat, hi: nat, id: nat)
    requires lo <= hi <= |events| && NoStoreIn(events, lo, hi, id)
    ensures Current(events[..lo], id) == Current(events[..hi], id)
    decreases hi
  {
    if lo < hi {
      assert events[..hi][..hi - 1] == events[..hi - 1];
      NoStoreKeepsCurrent(events, lo, hi - 1, id);
    }
  }

  lemma AnswersAreOk(t: Store, w: nat)
    requires StoreInv(t) && w in t.jobs
    ensures AnswerOk(w, t.jobs[w], t.p.events)
  {
    var j, events := t.jobs[w], t.p.events;
    if j.op.GetOp? && j.pc == Done(Served) {
      assert events[j.h.at].v == Current(events[..j.h.at], j.item);
      NoStoreKeepsCurrent(events, j.h.locked, j.h.at, j.item);
    }
  }

  /** In every interleaving: a fetch returns exactly the message last stored in its item
      before it, or the empty message if there was none, never a mix; every answered request
      has the effect its answer promises, and no other; and there are no other effects. */
  lemma EachItemIsARegister(s: Store, moves: seq<Move>, t: Store)
    requires InitStore(s) && Reaches(s, moves, t)
    ensures ItemsAreRegisters(t.p.events)
    ensures forall w :: w in t.jobs ==> AnswerOk(w, t.jobs[w], t.p.events)
    ensures EffectsOwned(t.p.events, t.jobs.Keys)
  {
    InitHasInv(s);
    InvAlways(s, moves, t);
    forall w | w in t.jobs
      ensures AnswerOk(w, t.jobs[w], t.p.events)
    {
      AnswersAreOk(t, w);
    }
  }

  /** Concurrent SETs of one fresh key create one item; in every bucket no key nearer the
      head is a prefix of one further back. */
  lemma BucketsStayOrdered(s: Store, moves: seq<Move>, t: Store)
    requires InitStore(s) && Reaches(s, moves, t)
    ensures CreatedInOrder(t.p.events)
    ensures Sized(t.m, t.p) && forall b :: 0 <= b < CAPACITY ==>
              Linked(t.m.heads[b], t.p.chains[b], t.m.items, b) && KeysOrdered(t.p.chains[b], t.m.items)
  {
    InitHasInv(s);
    InvAlways(s, moves, t);
  }

  // ---------- on prefix-free keys, each key is an atomic register ----------

  /** The value of a key after these events: what was last stored under it. */
  function CurrentOfKey(events: seq<Event>, k: CString): seq<Char> {
    if events == [] then []
    else
      var e := events[|events| - 1];
      if e.Stored? && e.key == k then e.v else CurrentOfKey(events[..|events| - 1], k)
  }

  ghost predicate KeysAreRegisters(events: seq<Event>) {
    forall n :: 0 <= n < |events| && events[n].Fetched? ==> events[n].v == CurrentOfKey(events[..n], events[n].key)
  }

  ghost predicate KeysIn(s: Store, keys: iset<CString>) {
    && (forall w :: w in s.jobs ==> s.jobs[w].key in keys)
    && (forall id :: id in s.m.items ==> s.m.items[id].key in keys)
    && (forall n :: 0 <= n < |s.p.events| ==> s.p.events[n].key in keys)
  }

  ghost predicate AsksFor(a: Move, keys: iset<CString>) {
    a.Go? || a.key in keys
  }

  ghost predicate AllAskFor(moves: seq<Move>, keys: iset<CString>) {
    forall i :: 0 <= i < |moves| ==> AsksFor(moves[i], keys)
  }

  lemma StepKeepsKeys(w: nat, v: View, c: Choice, keys: iset<CString>)
    requires CanStep(w, v, c) && v.j.key in keys
    requires forall id :: id in v.m.items ==> v.m.items[id].key in keys
    requires forall n :: 0 <= n < |v.p.events| ==> v.p.events[n].key in keys
    ensures
      var t := Step(w, v, c);
      && t.j.key in keys && (forall id :: id in t.m.items ==> t.m.items[id].key in keys)
      && (forall n :: 0 <= n < |t.p.events| ==> t.p.events[n].key in keys)
  {
    var t := Step(w, v, c);
    var e := NewEvent(w, v, c);
    forall id | id in t.m.items
      ensures t.m.items[id].key in keys
    {
      if id in v.m.items {
        LinksFramed(w, v, c, id);
      } else {
        OnlyNewAllocates(w, v, c, id);
      }
    }
  }

  lemma {:induction false} KeysAlwaysIn(s: Store, moves: seq<Move>, t: Store, keys: iset<CString>)
    requires KeysIn(s, keys) && Reaches(s, moves, t) && AllAskFor(moves, keys)
    ensures KeysIn(t, keys)
    decreases |moves|
  {
    if moves != [] {
      var a := moves[0];
      if a.Go? {
        StepKeepsKeys(a.w, View(s.jobs[a.w], s.m, s.p), a.c, keys);
      }
      assert AsksFor(a, keys);
      KeysAlwaysIn(Next(s, a), moves[1..], t, keys);
    }
  }

  /** Where keys are prefix-free, an event is about the one item of its own key. */
  lemma OneItemPerKey(m: Memory, p: Past, keys: iset<CString>, e: Event, f: Event)
    requires ListsInv(m, p) && EventOk(e, m, p) && EventOk(f, m, p) && PrefixFree(keys)
    requires e.key in keys && f.key in keys && m.items[e.id].key in keys && m.items[f.id].key in keys
    ensures e.key == f.key <==> e.id == f.id
  {
    ItemOfEvent(m, p, keys, e);
    ItemOfEvent(m, p, keys, f);
  }

  lemma ItemOfEvent(m: Memory, p: Past, keys: iset<CString>, e: Event)
    requires ListsInv(m, p) && EventOk(e, m, p) && PrefixFree(keys) && e.key in keys && m.items[e.id].key in keys
    ensures m.items[e.id].key == e.key
  {
    var chain := p.chains[Bucket(e.key)];
    var i :| 0 <= i < |chain| && chain[i] == e.id;
    assert Linked(m.heads[Bucket(e.key)], chain, m.items, Bucket(e.key));
    assert Bucket(m.items[chain[i]].key) == Bucket(e.key);
  }

  lemma {:induction false} KeyValueIsItemValue(m: Memory, p: Past, keys: iset<CString>, events: seq<Event>, e: Event)
    requires ListsInv(m, p) && PrefixFree(keys) && EventOk(e, m, p) && e.key in keys && m.items[e.id].key in keys
    requires forall n :: 0 <= n < |events| ==>
               EventOk(events[n], m, p) && events[n].key in keys && m.items[events[n].id].key in keys
    ensures CurrentOfKey(events, e.key) == Current(events, e.id)
    decreases |events|
  {
    if events != [] {
      var last := events[|events| - 1];
      OneItemPerKey(m, p, keys, last, e);
      KeyValueIsItemValue(m, p, keys, events[..|events| - 1], e);
    }
  }

  /** The answers in terms of keys: an OK SET makes its message its key's value; an OK GET
      returns its key's value at the moment it took the read lock; a GET told there is no such
      key read the head of its list before anything of that key was created or stored. */
  ghost predicate KeyAnswerOk(w: nat, j: Job, events: seq<Event>) {
    && (j.op.SetOp? && j.pc == Done(Served) ==>
          j.h.since <= j.h.at < |events| && CurrentOfKey(events[..j.h.at + 1], j.key) == j.msg)
    && (j.op.GetOp? && j.pc == Done(Served) ==>
          && j.h.since <= j.h.locked <= |events| && j.outLen <= |j.buf|
          && j.buf[..j.outLen] == CurrentOfKey(events[..j.h.locked], j.key))
    && (j.pc == Done(Missing) ==>
          && j.op.GetOp? && j.h.since <= j.h.looked <= |events|
          && forall n :: 0 <= n < j.h.looked ==> events[n].key != j.key)
  }

  lemma GetReturnsKeyValue(t: Store, w: nat, keys: iset<CString>)
    requires ListsInv(t.m, t.p) && EventsInv(t.m, t.p) && PrefixFree(keys) && KeysIn(t, keys) && w in t.jobs
    requires var j := t.jobs[w]; GetEffect(w, j, t.p.events) && j.buf[..j.outLen] == Current(t.p.events[..j.h.locked], j.item)
    ensures var j := t.jobs[w]; j.buf[..j.outLen] == CurrentOfKey(t.p.events[..j.h.locked], j.key)
  {
    var j, events := t.jobs[w], t.p.events;
    assert EventOk(events[j.h.at], t.m, t.p);
    KeyValueIsItemValue(t.m, t.p, keys, events[..j.h.locked], events[j.h.at]);
  }

  lemma SetMakesKeyValue(events: seq<Event>, at: nat)
    requires at < |events| && events[at].Stored?
    ensures CurrentOfKey(events[..at + 1], events[at].key) == events[at].v
  {
    assert events[..at + 1][..at] == events[..at];
  }

  lemma KeyAnswersAreOk(t: Store, w: nat, keys: iset<CString>)
    requires ListsInv(t.m, t.p) && EventsInv(t.m, t.p) && PrefixFree(keys) && KeysIn(t, keys)
    requires w in t.jobs && AnswerOk(w, t.jobs[w], t.p.events)
    ensures KeyAnswerOk(w, t.jobs[w], t.p.events)
  {
    var j := t.jobs[w];
    if j.pc == Done(Served) {
      if j.op.SetOp? {
        SetMakesKeyValue(t.p.events, j.h.at);
      } else {
        GetReturnsKeyValue(t, w, keys);
      }
    } else if j.pc == Done(Missing) {
      assert forall n :: 0 <= n < j.h.looked ==> t.p.events[n].key != j.key;
    }
  }

  /** On prefix-free keys every key is an atomic register: every OK GET returns the whole
      message of the latest OK SET of its own key before it took the read lock, or the empty
      message if there is none. */
  lemma EachKeyIsARegister(s: Store, moves: seq<Move>, t: Store, keys: iset<CString>)
    requires InitStore(s) && Reaches(s, moves, t) && PrefixFree(keys)
    requires AllAskFor(moves, keys)
    ensures KeysAreRegisters(t.p.events)
    ensures forall w :: w in t.jobs ==> AnswerOk(w, t.jobs[w], t.p.events) && KeyAnswerOk(w, t.jobs[w], t.p.events)
  {
    InitHasInv(s);
    InvAlways(s, moves, t);
    KeysAlwaysIn(s, moves, t, keys);
    forall w | w in t.jobs
      ensures AnswerOk(w, t.jobs[w], t.p.events) && KeyAnswerOk(w, t.jobs[w], t.p.events)
    {
      AnswersAreOk(t, w);
      KeyAnswersAreOk(t, w, keys);
    }
    EventsAreRegisters(t, keys);
  }

  lemma EventsAreRegisters(t: Store, keys: iset<CString>)
    requires StoreInv(t) && PrefixFree(keys) && KeysIn(t, keys)
    ensures KeysAreRegisters(t.p.events)
  {
    forall n | 0 <= n < |t.p.events| && t.p.events[n].Fetched?
      ensures t.p.events[n].v == CurrentOfKey(t.p.events[..n], t.p.events[n].key)
    {
      KeyValueIsItemValue(t.m, t.p, keys, t.p.events[..n], t.p.events[n]);
    }
  }
}
