/** No lock is lost: in every interleaving of SETs and GETs a held lock has a holder that is
    on its way to releasing it, and some worker can always move. */
module StoreLocks {
  import opened CStrings
  import opened Hash
  import opened ConcurrentStore
  import opened StoreInvariant
  import opened StoreSteps
  import opened AtomicRegister

  /** A held mutex is held by a worker inside that bucket's critical section. */
  ghost predicate MutexOwned(b: nat, owner: Link, jobs: map<nat, Job>) {
    owner.To? ==> owner.id in jobs && Critical(jobs[owner.id].pc) && Bucket(jobs[owner.id].key) == b
  }

  /** A held item lock is held by workers that are writing, or reading, that item. */
  ghost predicate ItemOwned(id: nat, i: Item, jobs: map<nat, Job>) {
    && (i.writer.To? ==> i.writer.id in jobs && Writing(jobs[i.writer.id].pc) && jobs[i.writer.id].item == id)
    && forall u :: u in i.readers ==> u in jobs && Reading(jobs[u].pc) && jobs[u].item == id
  }

  ghost predicate LocksOwned(s: Store) {
    && Sized(s.m, s.p)
    && (forall b :: 0 <= b < CAPACITY ==> MutexOwned(b, s.m.mutex[b], s.jobs))
    && (forall id :: id in s.m.items ==> ItemOwned(id, s.m.items[id], s.jobs))
  }

  lemma MutexOwnedKept(w: nat, v: View, c: Choice, b: nat, jobs: map<nat, Job>)
    requires CanStep(w, v, c) && b < CAPACITY && w in jobs && jobs[w] == v.j && MutexOwned(b, v.m.mutex[b], jobs)
    ensures var t := Step(w, v, c); |t.m.mutex| == CAPACITY && MutexOwned(b, t.m.mutex[b], jobs[w := t.j])
  {
  }

  lemma EntryKeepsOwners(w: nat, v: View, c: Choice, id: nat, jobs: map<nat, Job>)
    requires CanStep(w, v, c) && w in jobs && jobs[w] == v.j && InEntry(v.j.pc)
    requires id in v.m.items ==> ItemOwned(id, v.m.items[id], jobs)
    requires id in EntryStep(w, v, c).m.items && HoldsItem(w, v.j, v.m.items)
    ensures var t := EntryStep(w, v, c); ItemOwned(id, t.m.items[id], jobs[w := t.j])
  {
  }

  lemma StoreKeepsOwners(w: nat, v: View, c: Choice, id: nat, jobs: map<nat, Job>)
    requires CanStep(w, v, c) && w in jobs && jobs[w] == v.j && InStore(v.j.pc)
    requires id in v.m.items ==> ItemOwned(id, v.m.items[id], jobs)
    requires id in StoreStep(w, v, c).m.items && HoldsItem(w, v.j, v.m.items)
    ensures var t := StoreStep(w, v, c); ItemOwned(id, t.m.items[id], jobs[w := t.j])
  {
  }

  lemma FetchKeepsOwners(w: nat, v: View, c: Choice, id: nat, jobs: map<nat, Job>)
    requires CanStep(w, v, c) && w in jobs && jobs[w] == v.j && !InEntry(v.j.pc) && !InStore(v.j.pc)
    requires id in v.m.items ==> ItemOwned(id, v.m.items[id], jobs)
    requires id in FetchStep(w, v, c).m.items && HoldsItem(w, v.j, v.m.items)
    ensures var t := FetchStep(w, v, c); ItemOwned(id, t.m.items[id], jobs[w := t.j])
  {
  }

  lemma ItemOwnedKept(w: nat, v: View, c: Choice, id: nat, jobs: map<nat, Job>)
    requires CanStep(w, v, c) && w in jobs && jobs[w] == v.j
    requires id in v.m.items ==> ItemOwned(id, v.m.items[id], jobs)
    requires id in Step(w, v, c).m.items && HoldsItem(w, v.j, v.m.items)
    ensures var t := Step(w, v, c); ItemOwned(id, t.m.items[id], jobs[w := t.j])
  {
    if InEntry(v.j.pc) {
      EntryKeepsOwners(w, v, c, id, jobs);
    } else if InStore(v.j.pc) {
      StoreKeepsOwners(w, v, c, id, jobs);
    } else {
      FetchKeepsOwners(w, v, c, id, jobs);
    }
  }

  lemma BeginKeepsOwners(s: Store, a: Move)
    requires LocksOwned(s) && Can(s, a) && !a.Go?
    ensures LocksOwned(Next(s, a))
  {
    var t := Next(s, a);
    assert forall u :: u in s.jobs ==> u in t.jobs && t.jobs[u] == s.jobs[u];
    forall b | 0 <= b < CAPACITY
      ensures MutexOwned(b, t.m.mutex[b], t.jobs)
    {
      assert MutexOwned(b, s.m.mutex[b], s.jobs);
    }
    forall id | id in t.m.items
      ensures ItemOwned(id, t.m.items[id], t.jobs)
    {
      assert ItemOwned(id, s.m.items[id], s.jobs);
    }
  }

  lemma LocksOwnedKept(s: Store, a: Move)
    requires LocksOwned(s) && StoreInv(s) && Can(s, a)
    ensures LocksOwned(Next(s, a))
  {
    if a.Go? {
      var v := View(s.jobs[a.w], s.m, s.p);
      var t := Step(a.w, v, a.c);
      OwnKept(a.w, v, a.c);
      forall b | 0 <= b < CAPACITY
        ensures MutexOwned(b, t.m.mutex[b], s.jobs[a.w := t.j])
      {
        MutexOwnedKept(a.w, v, a.c, b, s.jobs);
      }
      forall id | id in t.m.items
        ensures ItemOwned(id, t.m.items[id], s.jobs[a.w := t.j])
      {
        ItemOwnedKept(a.w, v, a.c, id, s.jobs);
      }
      assert Next(s, a) == Store(t.m, s.jobs[a.w := t.j], t.p);
    } else {
      BeginKeepsOwners(s, a);
    }
  }

  lemma {:induction false} LocksOwnedAlways(s: Store, moves: seq<Move>, t: Store)
    requires LocksOwned(s) && StoreInv(s) && Reaches(s, moves, t)
    ensures LocksOwned(t) && StoreInv(t)
    decreases |moves|
  {
    if moves != [] {
      LocksOwnedKept(s, moves[0]);
      InvKept(s, moves[0]);
      LocksOwnedAlways(Next(s, moves[0]), moves[1..], t);
    }
  }

  /** Every path through SET and GET gives its locks back: when all workers are done, no
      bucket and no item is locked. */
  lemma NothingStaysLocked(s: Store, moves: seq<Move>, t: Store)
    requires InitStore(s) && Reaches(s, moves, t) && forall w :: w in t.jobs ==> t.jobs[w].pc.Done?
    ensures forall b :: 0 <= b < |t.m.mutex| ==> t.m.mutex[b].Null?
    ensures forall id :: id in t.m.items ==> t.m.items[id].writer.Null? && t.m.items[id].readers == {}
  {
    InitHasInv(s);
    LocksOwnedAlways(s, moves, t);
    forall b | 0 <= b < |t.m.mutex|
      ensures t.m.mutex[b].Null?
    {
      assert MutexOwned(b, t.m.mutex[b], t.jobs);
    }
    forall id | id in t.m.items
      ensures t.m.items[id].writer.Null? && t.m.items[id].readers == {}
    {
      assert ItemOwned(id, t.m.items[id], t.jobs);
      assert forall u :: u !in t.m.items[id].readers;
    }
  }

  lemma {:induction false} UnusedAddress(ids: set<nat>) returns (id: nat)
    ensures forall i :: i in ids ==> i < id
    decreases |ids|
  {
    if ids == {} {
      id := 0;
    } else {
      var x :| x in ids;
      var y := UnusedAddress(ids - {x});
      id := if x < y then y else x + 1;
      assert forall i :: i in ids ==> i == x || i in ids - {x};
    }
  }

  /** The worker can take its next step, unless it waits for a mutex. */
  lemma WorkerMoves(w: nat, v: View) returns (c: Choice)
    requires Sized(v.m, v.p) && SharedInv(v.m, v.p) && JobInv(w, v.j, v.m, v.p)
    requires !v.j.pc.Done? && (v.j.pc.SLock? ==> v.m.mutex[Bucket(v.j.key)].Null?)
    ensures CanStep(w, v, c)
  {
    WalkerIsSafe(w, v.j, v.m, v.p);
    if v.j.pc.SNew? {
      var id := UnusedAddress(v.m.items.Keys);
      c := Address(id);
    } else {
      c := Block(seq(MSG_SIZE, _ => 0));
    }
  }

  /** While any worker is inside a request, some worker can move: nobody waits in a circle. */
  lemma StoreNoDeadlock(s: Store, moves: seq<Move>, t: Store, w: nat) returns (a: Move)
    requires InitStore(s) && Reaches(s, moves, t) && w in t.jobs && !t.jobs[w].pc.Done?
    ensures Sized(t.m, t.p) && Can(t, a) && a.Go?
  {
    InitHasInv(s);
    LocksOwnedAlways(s, moves, t);
    var b := Bucket(t.jobs[w].key);
    var u := w;
    if t.jobs[w].pc.SLock? && t.m.mutex[b].To? {
      u := t.m.mutex[b].id;
      assert MutexOwned(b, t.m.mutex[b], t.jobs);
    }
    var c := WorkerMoves(u, View(t.jobs[u], t.m, t.p));
    a := Go(u, c);
  }

  // ---------- refusals ----------

  /** u is writing the item w wants, or, if w is a SET, reading it. */
  ghost predicate Rival(jobs: map<nat, Job>, w: nat, u: nat)
    requires w in jobs
  {
    && u in jobs && u != w && jobs[u].item == jobs[w].item
    && (Writing(jobs[u].pc) || (jobs[w].op.SetOp? && Reading(jobs[u].pc)))
  }

  lemma HolderIsRival(s: Store, w: nat, id: nat)
    requires LocksOwned(s) && w in s.jobs && id == s.jobs[w].item && id in s.m.items
    requires s.jobs[w].pc.STry? || s.jobs[w].pc.GTry?
    requires s.m.items[id].writer.To? || (s.jobs[w].op.SetOp? && s.m.items[id].readers != {})
    ensures exists u :: Rival(s.jobs, w, u)
  {
    assert ItemOwned(id, s.m.items[id], s.jobs);
    if s.m.items[id].writer.To? {
      assert Rival(s.jobs, w, s.m.items[id].writer.id);
    } else {
      var u :| u in s.m.items[id].readers;
      assert Rival(s.jobs, w, u);
    }
  }

  lemma RivalHolds(s: Store, w: nat, u: nat)
    requires w in s.jobs && Rival(s.jobs, w, u) && HoldsItem(u, s.jobs[u], s.m.items)
    ensures
      var j := s.jobs[w];
      j.item in s.m.items && (s.m.items[j.item].writer.To? || (j.op.SetOp? && s.m.items[j.item].readers != {}))
  {
  }

  /** What a try-lock does: it is refused by a writer, and for a SET also by a reader. */
  lemma TryRefused(w: nat, v: View)
    requires CanStep(w, v, None) && (v.j.pc.STry? || v.j.pc.GTry?) && OpOk(v.j)
    ensures
      v.j.item in v.m.items &&
      (Step(w, v, None).j.pc == Done(Occupied) <==>
       v.m.items[v.j.item].writer.To? || (v.j.op.SetOp? && v.m.items[v.j.item].readers != {}))
  {
  }

  lemma TryIsRival(t: Store, w: nat)
    requires LocksOwned(t) && w in t.jobs && (t.jobs[w].pc.STry? || t.jobs[w].pc.GTry?) && OpOk(t.jobs[w])
    requires CanStep(w, View(t.jobs[w], t.m, t.p), None)
    requires forall u :: u in t.jobs ==> HoldsItem(u, t.jobs[u], t.m.items)
    ensures Next(t, Go(w, None)).jobs[w].pc == Done(Occupied) <==> exists u :: Rival(t.jobs, w, u)
  {
    var v := View(t.jobs[w], t.m, t.p);
    TryRefused(w, v);
    if Step(w, v, None).j.pc == Done(Occupied) {
      HolderIsRival(t, w, v.j.item);
    }
    forall u | Rival(t.jobs, w, u)
      ensures Step(w, v, None).j.pc == Done(Occupied)
    {
      RivalHolds(t, w, u);
    }
  }

  /** Nobody is refused for nothing: in every run, at its try-lock a SET is answered "occupied"
      if and only if another request is writing or reading that very item at that moment, and
      a GET if and only if another is writing it. */
  lemma RefusedIffRival(s: Store, moves: seq<Move>, t: Store, w: nat)
    requires InitStore(s) && Reaches(s, moves, t) && w in t.jobs && (t.jobs[w].pc.STry? || t.jobs[w].pc.GTry?)
    ensures Sized(t.m, t.p) && Can(t, Go(w, None))
    ensures Next(t, Go(w, None)).jobs[w].pc == Done(Occupied) <==> exists u :: Rival(t.jobs, w, u)
  {
    InitHasInv(s);
    LocksOwnedAlways(s, moves, t);
    assert forall u :: u in t.jobs ==> JobInv(u, t.jobs[u], t.m, t.p);
    WalkerIsSafe(w, t.jobs[w], t.m, t.p);
    TryIsRival(t, w);
  }

  /** And only there is "occupied" ever answered. */
  lemma OnlyTriesAreRefused(w: nat, v: View, c: Choice)
    requires CanStep(w, v, c) && Step(w, v, c).j.pc == Done(Occupied)
    ensures v.j.pc.STry? || v.j.pc.GTry?
  {
  }
}
