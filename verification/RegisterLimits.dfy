/** Where keys are not prefix-free, keys are not registers: one SET followed by one GET shows
    it. So prefix-freeness is exactly what the concurrent store needs. */
module RegisterLimits {
  import opened CStrings
  import opened Hash
  import opened BenchmarkKeys
  import opened ConcurrentStore
  import opened AtomicRegister

  /** Worker w alone takes steps from one view to another. */
  ghost predicate Steps(w: nat, v: View, cs: seq<Choice>, t: View)
    decreases |cs|
  {
    if cs == [] then v == t else CanStep(w, v, cs[0]) && Steps(w, Step(w, v, cs[0]), cs[1..], t)
  }

  lemma {:induction false} OneMore(w: nat, v: View, cs: seq<Choice>, t: View, c: Choice)
    requires Steps(w, v, cs, t) && CanStep(w, t, c)
    ensures Steps(w, v, cs + [c], Step(w, t, c))
    decreases |cs|
  {
    if cs != [] {
      OneMore(w, Step(w, v, cs[0]), cs[1..], t, c);
      assert (cs + [c])[1..] == cs[1..] + [c];
    }
  }

  lemma {:induction false} StepsReach(s: Store, w: nat, cs: seq<Choice>, t: View) returns (moves: seq<Move>)
    requires w in s.jobs && Steps(w, View(s.jobs[w], s.m, s.p), cs, t)
    ensures Reaches(s, moves, Store(t.m, s.jobs[w := t.j], t.p)) && forall i :: 0 <= i < |moves| ==> moves[i].Go?
    decreases |cs|
  {
    if cs == [] {
      moves := [];
      assert s.jobs[w := s.jobs[w]] == s.jobs;
    } else {
      var n := Next(s, Go(w, cs[0]));
      var rest := StepsReach(n, w, cs[1..], t);
      assert n.jobs[w := t.j] == s.jobs[w := t.j];
      moves := [Go(w, cs[0])] + rest;
      assert moves[1..] == rest;
    }
  }

  lemma {:induction false} ReachesOn(s: Store, moves: seq<Move>, t: Store, more: seq<Move>, u: Store)
    requires Reaches(s, moves, t) && Reaches(t, more, u)
    ensures Reaches(s, moves + more, u)
    decreases |moves|
  {
    if moves == [] {
      assert moves + more == more;
    } else {
      ReachesOn(Next(s, moves[0]), moves[1..], t, more, u);
      assert (moves + more)[1..] == moves[1..] + more;
    }
  }

  /** A SET into an empty bucket up to its need for a new item. */
  lemma SetFindsNothing(w: nat, v: View) returns (cs: seq<Choice>, t: View)
    requires Sized(v.m, v.p) && v.j.pc == SLock && v.m.mutex[Bucket(v.j.key)].Null? && v.m.heads[Bucket(v.j.key)].Null?
    ensures Steps(w, v, cs, t)
    ensures
      && t.m == v.m.(mutex := v.m.mutex[Bucket(v.j.key) := To(w)]) && t.p == v.p
      && t.j.pc == SNew && t.j.key == v.j.key && t.j.msg == v.j.msg && t.j.head.Null?
  {
    var t1 := Step(w, v, None);
    OneMore(w, v, [], v, None);
    var t2 := Step(w, t1, None);
    OneMore(w, v, [] + [None], t1, None);
    var t3 := Step(w, t2, None);
    OneMore(w, v, [] + [None] + [None], t2, None);
    t := Step(w, t3, None);
    OneMore(w, v, [] + [None] + [None] + [None], t3, None);
    cs := [] + [None] + [None] + [None] + [None];
  }

  lemma SetPublishes(w: nat, v: View, id: nat) returns (cs: seq<Choice>, t: View)
    requires Sized(v.m, v.p) && v.j.pc == SNew && v.j.head.Null? && id !in v.m.items
    ensures Steps(w, v, cs, t)
    ensures
      var b := Bucket(v.j.key);
      && t.m.heads == v.m.heads[b := To(id)] && t.m.mutex == v.m.mutex[b := Null]
      && t.m.items == v.m.items[id := Item(v.j.key, Null, [], 0, {}, Null)]
      && t.p == Past(v.p.chains[b := [id] + v.p.chains[b]], v.p.events + [Created(id, v.j.key)])
      && t.j.pc == STry && t.j.key == v.j.key && t.j.msg == v.j.msg && t.j.item == id
  {
    var t1 := Step(w, v, Address(id));
    OneMore(w, v, [], v, Address(id));
    var t2 := Step(w, t1, None);
    OneMore(w, v, [] + [Address(id)], t1, None);
    var t3 := Step(w, t2, None);
    OneMore(w, v, [] + [Address(id)] + [None], t2, None);
    t := Step(w, t3, None);
    OneMore(w, v, [] + [Address(id)] + [None] + [None], t3, None);
    cs := [] + [Address(id)] + [None] + [None] + [None];
    assert t.m.items == v.m.items[id := Item(v.j.key, Null, [], 0, {}, Null)];
  }

  lemma SetStores(w: nat, v: View, block: seq<Char>) returns (cs: seq<Choice>, t: View)
    requires Sized(v.m, v.p) && v.j.pc == STry && v.j.item in v.m.items && |v.j.msg| == 1 && |block| == MSG_SIZE
    requires v.m.items[v.j.item].writer.Null? && v.m.items[v.j.item].readers == {}
    ensures Steps(w, v, cs, t)
    ensures
      && t.m == v.m.(items := v.m.items[v.j.item := v.m.items[v.j.item].(value := block[0 := v.j.msg[0]], size := 1)])
      && t.p == v.p.(events := v.p.events + [Stored(v.j.item, v.j.key, v.j.msg, w)])
      && t.j.pc == Done(Served)
  {
    var t1 := Step(w, v, None);
    OneMore(w, v, [], v, None);
    var t2 := Step(w, t1, Block(block));
    OneMore(w, v, [] + [None], t1, Block(block));
    var t3 := Step(w, t2, None);
    OneMore(w, v, [] + [None] + [Block(block)], t2, None);
    var t4 := Step(w, t3, None);
    OneMore(w, v, [] + [None] + [Block(block)] + [None], t3, None);
    var t5 := Step(w, t4, None);
    OneMore(w, v, [] + [None] + [Block(block)] + [None] + [None], t4, None);
    t := Step(w, t5, None);
    OneMore(w, v, [] + [None] + [Block(block)] + [None] + [None] + [None], t5, None);
    cs := [] + [None] + [Block(block)] + [None] + [None] + [None] + [None];
    assert t.m.items == v.m.items[v.j.item := v.m.items[v.j.item].(value := block[0 := v.j.msg[0]], size := 1)];
  }

  /** A GET whose bucket's first item has a key that starts with its own. */
  lemma GetFinds(w: nat, v: View, id: nat) returns (cs: seq<Choice>, t: View)
    requires Sized(v.m, v.p) && v.j.pc == GFirst && v.m.heads[Bucket(v.j.key)] == To(id)
    requires id in v.m.items && v.m.items[id].writer.Null?
    requires StrncmpIsZero(v.m.items[id].key, v.j.key, |v.j.key|)
    ensures Steps(w, v, cs, t)
    ensures
      && t.m.items == v.m.items[id := v.m.items[id].(readers := v.m.items[id].readers + {w})]
      && Sized(t.m, t.p) && t.p == v.p
      && t.j.pc == GSize && t.j.key == v.j.key && t.j.item == id && t.j.buf == v.j.buf
  {
    var t1 := Step(w, v, None);
    OneMore(w, v, [], v, None);
    var t2 := Step(w, t1, None);
    OneMore(w, v, [] + [None], t1, None);
    t := Step(w, t2, None);
    OneMore(w, v, [] + [None] + [None], t2, None);
    cs := [] + [None] + [None] + [None];
  }

  lemma GetCopies(w: nat, v: View) returns (cs: seq<Choice>, t: View)
    requires Sized(v.m, v.p) && v.j.pc == GSize && |v.j.buf| == MSG_SIZE
    requires v.j.item in v.m.items && v.m.items[v.j.item].size == 1 <= |v.m.items[v.j.item].value|
    ensures Steps(w, v, cs, t)
    ensures t.p.events == v.p.events + [Fetched(v.j.item, v.j.key, [v.m.items[v.j.item].value[0]], w)]
  {
    var t1 := Step(w, v, None);
    OneMore(w, v, [], v, None);
    var t2 := Step(w, t1, None);
    OneMore(w, v, [] + [None], t1, None);
    var t3 := Step(w, t2, None);
    OneMore(w, v, [] + [None] + [None], t2, None);
    var t4 := Step(w, t3, None);
    OneMore(w, v, [] + [None] + [None] + [None], t3, None);
    t := Step(w, t4, None);
    OneMore(w, v, [] + [None] + [None] + [None] + [None], t4, None);
    cs := [] + [None] + [None] + [None] + [None] + [None];
    assert t4.j.buf[..1] == [v.m.items[v.j.item].value[0]];
  }

  /** Extends a run by a beginning and the steps of its worker. */
  lemma RunOn(s: Store, moves: seq<Move>, t: Store, a: Move, cs: seq<Choice>, v: View, keys: iset<CString>)
    returns (all: seq<Move>, u: Store)
    requires AllAskFor(moves, keys) && AsksFor(a, keys)
    requires Reaches(s, moves, t) && Sized(t.m, t.p) && Can(t, a) && !a.Go?
    requires var n := Next(t, a); Steps(a.w, View(n.jobs[a.w], n.m, n.p), cs, v)
    ensures Reaches(s, all, u) && u == Store(v.m, t.jobs[a.w := v.j], v.p)
    ensures AllAskFor(all, keys)
  {
    var n := Next(t, a);
    var rest := StepsReach(n, a.w, cs, v);
    u := Store(v.m, t.jobs[a.w := v.j], v.p);
    assert n.jobs[a.w := v.j] == t.jobs[a.w := v.j];
    assert ([a] + rest)[1..] == rest;
    assert Reaches(t, [a] + rest, u);
    ReachesOn(s, moves, t, [a] + rest, u);
    all := moves + ([a] + rest);
  }

  lemma {:induction false} StepsOn(w: nat, v: View, cs: seq<Choice>, t: View, more: seq<Choice>, u: View)
    requires Steps(w, v, cs, t) && Steps(w, t, more, u)
    ensures Steps(w, v, cs + more, u)
    decreases |cs|
  {
    if cs == [] {
      assert cs + more == more;
    } else {
      StepsOn(w, Step(w, v, cs[0]), cs[1..], t, more, u);
      assert (cs + more)[1..] == cs[1..] + more;
    }
  }

  /** After a SET of b on an empty store. */
  ghost predicate HoldsOne(t: Store, b: CString) {
    && Sized(t.m, t.p) && t.m.heads[Bucket(b)] == To(0) && 0 in t.m.items && t.jobs.Keys == {0}
    && t.m.items[0].key == b && t.m.items[0].writer.Null? && t.m.items[0].size == 1 <= |t.m.items[0].value|
    && t.m.items[0].value[0] == 1 && t.p.events == [Created(0, b), Stored(0, b, [1], 0)]
  }

  lemma WholeSet(w: nat, v: View, id: nat, block: seq<Char>) returns (cs: seq<Choice>, t: View)
    requires Sized(v.m, v.p) && v.j.pc == SLock && v.m.mutex[Bucket(v.j.key)].Null? && v.m.heads[Bucket(v.j.key)].Null?
    requires id !in v.m.items && |v.j.msg| == 1 && |block| == MSG_SIZE
    ensures Steps(w, v, cs, t)
    ensures
      var b := Bucket(v.j.key);
      && Sized(t.m, t.p) && t.m.heads[b] == To(id) && t.j.pc == Done(Served) && id in t.m.items
      && t.m.items[id] == Item(v.j.key, Null, block[0 := v.j.msg[0]], 1, {}, Null)
      && t.p.events == v.p.events + [Created(id, v.j.key)] + [Stored(id, v.j.key, v.j.msg, w)]
  {
    var c1, v1 := SetFindsNothing(w, v);
    var c2, v2 := SetPublishes(w, v1, id);
    StepsOn(w, v, c1, v1, c2, v2);
    var c3, v3 := SetStores(w, v2, block);
    StepsOn(w, v, c1 + c2, v2, c3, v3);
    cs, t := c1 + c2 + c3, v3;
  }

  lemma WholeGet(w: nat, v: View, id: nat) returns (cs: seq<Choice>, t: View)
    requires Sized(v.m, v.p) && v.j.pc == GFirst && v.m.heads[Bucket(v.j.key)] == To(id) && |v.j.buf| == MSG_SIZE
    requires id in v.m.items && v.m.items[id].writer.Null? && v.m.items[id].size == 1 <= |v.m.items[id].value|
    requires StrncmpIsZero(v.m.items[id].key, v.j.key, |v.j.key|)
    ensures Steps(w, v, cs, t) && t.p.events == v.p.events + [Fetched(id, v.j.key, [v.m.items[id].value[0]], w)]
  {
    var c1, v1 := GetFinds(w, v, id);
    var c2, v2 := GetCopies(w, v1);
    StepsOn(w, v, c1, v1, c2, v2);
    cs, t := c1 + c2, v2;
  }

  lemma SetLonger(b: CString, s: Store, keys: iset<CString>) returns (moves: seq<Move>, t: Store)
    requires IsKey(b) && InitStore(s) && b in keys
    ensures Reaches(s, moves, t) && HoldsOne(t, b)
    ensures AllAskFor(moves, keys)
  {
    var n := Next(s, BeginSet(0, b, [1]));
    var block: seq<Char> := seq(MSG_SIZE, _ => 0);
    var cs, v := WholeSet(0, View(n.jobs[0], n.m, n.p), 0, block);
    moves, t := RunOn(s, [], s, BeginSet(0, b, [1]), cs, v, keys);
    assert block[0 := 1][0] == 1;
  }

  lemma GetShorter(a: CString, b: CString, s: Store, moves: seq<Move>, t: Store, keys: iset<CString>)
    returns (all: seq<Move>, u: Store)
    requires AllAskFor(moves, keys) && a in keys
    requires IsKey(a) && IsKey(b) && Bucket(a) == Bucket(b) && a <= b && Reaches(s, moves, t) && HoldsOne(t, b)
    ensures Reaches(s, all, u) && u.p.events == t.p.events + [Fetched(0, a, [1], 1)]
    ensures AllAskFor(all, keys)
  {
    var k := Next(t, BeginGet(1, a));
    StrncmpIsPrefixTest(b, a);
    var cs, v := WholeGet(1, View(k.jobs[1], k.m, k.p), 0);
    all, u := RunOn(s, moves, t, BeginGet(1, a), cs, v, keys);
  }

  /** SET of the longer key, then GET of the shorter: the GET returns what was never stored
      under its key. */
  lemma PrefixReadsTheOther(a: CString, b: CString, s: Store, keys: iset<CString>) returns (moves: seq<Move>, t: Store)
    requires a in keys && b in keys && IsKey(a) && IsKey(b) && a != b && Bucket(a) == Bucket(b) && a <= b && InitStore(s)
    ensures Reaches(s, moves, t) && !KeysAreRegisters(t.p.events)
    ensures AllAskFor(moves, keys)
  {
    var first, mid := SetLonger(b, s, keys);
    moves, t := GetShorter(a, b, s, first, mid, keys);
    NotARegister(a, b, t.p.events);
  }

  lemma NotARegister(a: CString, b: CString, events: seq<Event>)
    requires a != b && |events| == 3
    requires events == [Created(0, b), Stored(0, b, [1], 0), Fetched(0, a, [1], 1)]
    ensures !KeysAreRegisters(events)
  {
    assert events[..2][..1][..0] == [];
    assert CurrentOfKey(events[..2][..1], a) == [];
    assert CurrentOfKey(events[..2], a) == [];
  }

  /** In every run over these keys every fetch returns its key's value, and every request is
      answered accordingly. */
  ghost predicate AlwaysRegisters(keys: iset<CString>) {
    forall s, moves, t :: InitStore(s) && Reaches(s, moves, t) && AllAskFor(moves, keys) ==> ActsAsRegisters(t)
  }

  ghost predicate ActsAsRegisters(t: Store) {
    && KeysAreRegisters(t.p.events)
    && forall w :: w in t.jobs ==> AnswerOk(w, t.jobs[w], t.p.events) && KeyAnswerOk(w, t.jobs[w], t.p.events)
  }

  /** Every run over these keys makes every key an atomic register if and only if no key is a
      proper prefix of another key of its bucket. */
  lemma AlwaysRegistersIff(keys: iset<CString>)
    requires forall k :: k in keys ==> IsKey(k)
    ensures AlwaysRegisters(keys) <==> PrefixFree(keys)
  {
    if PrefixFree(keys) {
      forall s, moves, t | InitStore(s) && Reaches(s, moves, t) && AllAskFor(moves, keys)
        ensures ActsAsRegisters(t)
      {
        EachKeyIsARegister(s, moves, t, keys);
      }
    } else {
      var a, b :| a in keys && b in keys && a != b && Bucket(a) == Bucket(b) && a <= b;
      var none := seq(CAPACITY, _ => Null);
      var s := Store(Memory(none, none, map[]), map[], Past(seq(CAPACITY, _ => []), []));
      var moves, t := PrefixReadsTheOther(a, b, s, keys);
      assert !ActsAsRegisters(t);
    }
  }

  /** The benchmark's keys are atomic registers in every run exactly as long as counts stay
      at or below 1078. */
  lemma BenchmarkRegistersIff(limit: int)
    ensures AlwaysRegisters(FittingKeys(limit)) <==> limit <= 1078
  {
    AlwaysRegistersIff(FittingKeys(limit));
    BenchmarkKeysPrefixFreeIff(limit);
  }
}
