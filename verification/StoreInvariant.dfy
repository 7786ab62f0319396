/** What every interleaving of SETs and GETs keeps. Each worker keeps its own invariant and
    the shared one; what a step may do to the rest (its guarantee) leaves every other
    worker's invariant true. */
module StoreInvariant {
  import opened CStrings
  import opened Hash
  import opened ConcurrentStore

  // ---------- the shared invariant ----------

  /** One published list, linked from its head, with keys of its bucket. */
  ghost predicate Linked(head: Link, chain: seq<nat>, items: map<nat, Item>, b: nat) {
    && head == (if chain == [] then Null else To(chain[0]))
    && forall i :: 0 <= i < |chain| ==>
         && chain[i] in items && IsKey(items[chain[i]].key) && Bucket(items[chain[i]].key) == b
         && items[chain[i]].next == (if i + 1 < |chain| then To(chain[i + 1]) else Null)
  }

  /** No key nearer the head is a prefix of one further back. */
  ghost predicate KeysOrdered(chain: seq<nat>, items: map<nat, Item>) {
    forall i, j :: 0 <= i < j < |chain| && chain[i] in items && chain[j] in items ==>
      !(items[chain[i]].key <= items[chain[j]].key)
  }

  ghost predicate ListOk(head: Link, chain: seq<nat>, items: map<nat, Item>, b: nat) {
    Linked(head, chain, items, b) && KeysOrdered(chain, items)
  }

  ghost predicate ListsInv(m: Memory, p: Past) {
    Sized(m, p) && forall b :: 0 <= b < CAPACITY ==> ListOk(m.heads[b], p.chains[b], m.items, b)
  }

  /** One writer or any number of readers. */
  ghost predicate LocksInv(items: map<nat, Item>) {
    forall id :: id in items ==> items[id].writer.Null? || items[id].readers == {}
  }

  /** An item nobody is writing holds exactly the last value stored. */
  ghost predicate ItemHolds(i: Item, x: seq<Char>) {
    i.writer.Null? ==> i.size == |x| <= MSG_SIZE && |x| <= |i.value| && i.value[..|x|] == x
  }

  ghost predicate ValuesInv(m: Memory, p: Past) {
    forall id :: id in m.items ==> ItemHolds(m.items[id], Current(p.events, id))
  }

  /** Events are about published items: the created key is the item's, any other is a prefix
      of the item's. */
  ghost predicate EventOk(e: Event, m: Memory, p: Past)
    requires |p.chains| == CAPACITY
  {
    && e.id in p.chains[Bucket(e.key)] && e.id in m.items
    && e.key <= m.items[e.id].key && (e.Created? ==> m.items[e.id].key == e.key)
  }

  ghost predicate EventsInv(m: Memory, p: Past)
    requires |p.chains| == CAPACITY
  {
    forall n :: 0 <= n < |p.events| ==> EventOk(p.events[n], m, p)
  }

  /** No key is created twice, nor after a key it is a prefix of. */
  ghost predicate CreatedInOrder(events: seq<Event>) {
    forall n, k :: 0 <= n < k < |events| && events[n].Created? && events[k].Created? &&
                   Bucket(events[n].key) == Bucket(events[k].key) ==>
      !(events[k].key <= events[n].key)
  }

  ghost predicate SharedInv(m: Memory, p: Past) {
    && ListsInv(m, p) && LocksInv(m.items) && ValuesInv(m, p) && EventsInv(m, p)
    && ItemsAreRegisters(p.events) && CreatedInOrder(p.events)
  }

  // ---------- the invariant of one worker ----------

  predicate Critical(pc: Pc) {
    pc.SHead? || pc.SFirst? || pc.SWalk? || pc.SNew? || pc.SNext? || pc.SPublish? || pc.SUnlock?
  }

  predicate Writing(pc: Pc) {
    pc.SAlloc? || pc.SCopy? || pc.SSize? || pc.SRelease?
  }

  predicate Reading(pc: Pc) {
    pc.GSize? || pc.GCopy? || pc.GLen? || pc.GRelease?
  }

  /** The item has been found or created. */
  predicate HasTarget(pc: Pc) {
    pc.SUnlock? || pc.STry? || pc.GTry? || Writing(pc) || Reading(pc)
  }

  ghost predicate JobOk(j: Job, now: nat) {
    && IsKey(j.key) && |j.msg| <= MSG_SIZE && |j.buf| == MSG_SIZE
    && j.h.since <= j.h.looked <= now && j.h.locked <= now && j.h.since <= j.h.locked
  }

  ghost predicate HoldsMutex(w: nat, j: Job, m: Memory)
    requires |m.mutex| == CAPACITY
  {
    Critical(j.pc) ==> m.mutex[Bucket(j.key)] == To(w)
  }

  /** No item of these has a key that starts with k. */
  ghost predicate NoneExtends(ids: seq<nat>, items: map<nat, Item>, k: CString) {
    forall i :: 0 <= i < |ids| ==> ids[i] in items && !(k <= items[ids[i]].key)
  }

  ghost predicate Suffix(a: seq<nat>, b: seq<nat>) {
    |a| <= |b| && b[|b| - |a|..] == a
  }

  /** A walk follows the list it saw at the head, which stays the tail of the bucket's list. */
  ghost predicate WalkOk(j: Job, chain: seq<nat>, items: map<nat, Item>) {
    j.pc.SWalk? || j.pc.GWalk? ==>
      && Suffix(j.h.snap, chain) && j.pos <= |j.h.snap|
      && j.cur == (if j.pos < |j.h.snap| then To(j.h.snap[j.pos]) else Null)
      && NoneExtends(j.h.snap[..j.pos], items, j.key)
  }

  /** What SET has established inside its critical section. */
  ghost predicate SectionOk(j: Job, head: Link, chain: seq<nat>, items: map<nat, Item>) {
    && (Critical(j.pc) && !j.pc.SHead? && !j.pc.SUnlock? ==> j.head == head)
    && (j.pc.SWalk? ==> j.h.snap == chain)
    && (j.pc.SNew? || j.pc.SNext? || j.pc.SPublish? ==> NoneExtends(chain, items, j.key))
    && (j.pc.SNext? || j.pc.SPublish? ==> j.item in items && items[j.item].key == j.key)
    && (j.pc.SPublish? ==> items[j.item].next == j.head)
  }

  ghost predicate TargetOk(j: Job, chain: seq<nat>, items: map<nat, Item>) {
    HasTarget(j.pc) ==> j.item in chain && j.item in items && j.key <= items[j.item].key
  }

  /** The item's lock is held while its value is written or read. */
  ghost predicate HoldsItem(w: nat, j: Job, items: map<nat, Item>) {
    && (Writing(j.pc) ==> j.item in items && items[j.item].writer == To(w))
    && (Reading(j.pc) ==> j.item in items && w in items[j.item].readers)
  }

  /** How far a writer's copy has come. */
  ghost predicate WriteOk(j: Job, i: Item) {
    && (j.pc.SCopy? ==> j.pos <= |j.msg| <= |i.value| && i.value[..j.pos] == j.msg[..j.pos])
    && (j.pc.SSize? || j.pc.SRelease? ==> |j.msg| <= |i.value| && i.value[..|j.msg|] == j.msg)
    && (j.pc.SRelease? ==> i.size == |j.msg|)
  }

  /** How far a reader's copy has come. */
  ghost predicate ReadOk(j: Job, i: Item) {
    && (j.pc.GCopy? ==> j.bound == i.size <= |i.value| && j.pos <= j.bound <= |j.buf| && j.buf[..j.pos] == i.value[..j.pos])
    && (j.pc.GLen? || j.pc.GRelease? ==> i.size <= |i.value| && i.size <= |j.buf| && j.buf[..i.size] == i.value[..i.size])
    && (j.pc.GRelease? ==> j.outLen == i.size)
  }

  ghost predicate CopyOk(j: Job, items: map<nat, Item>) {
    Writing(j.pc) || Reading(j.pc) ==> j.item in items && WriteOk(j, items[j.item]) && ReadOk(j, items[j.item])
  }

  /** No SET of the item since the reader took its lock. */
  ghost predicate NoStoreIn(events: seq<Event>, from: nat, to: nat, id: nat) {
    forall n :: from <= n < to <= |events| ==> !(events[n].Stored? && events[n].id == id)
  }

  /** Items the events are about when a GET reads its bucket's head are in the list it walks;
      a GET that found nothing had nothing to find when it read the head: its key, and every
      extension of it, had been neither created nor stored. */
  ghost predicate LookOk(j: Job, events: seq<Event>) {
    && (j.pc.GWalk? ==>
          forall n :: 0 <= n < j.h.looked <= |events| && Bucket(events[n].key) == Bucket(j.key) ==>
            events[n].id in j.h.snap)
    && (j.pc == Done(Missing) ==> NothingToFind(j, events))
  }

  ghost predicate NothingToFind(j: Job, events: seq<Event>) {
    forall n :: 0 <= n < j.h.looked <= |events| && Bucket(events[n].key) == Bucket(j.key) ==> !(j.key <= events[n].key)
  }

  /** The message of a SET answered OK was stored, after the SET began. */
  ghost predicate SetEffect(w: nat, j: Job, events: seq<Event>) {
    j.h.since <= j.h.at < |events| && events[j.h.at] == Stored(j.item, j.key, j.msg, w)
  }

  /** The response of a GET answered OK was fetched, after it began and took the read lock,
      and nothing was stored in between. */
  ghost predicate GetEffect(w: nat, j: Job, events: seq<Event>) {
    && j.h.since <= j.h.locked <= j.h.at < |events|
    && j.outLen <= |j.buf| && events[j.h.at] == Fetched(j.item, j.key, j.buf[..j.outLen], w)
    && NoStoreIn(events, j.h.locked, j.h.at, j.item)
  }

  /** A request has no effect but the one of its OK response. */
  ghost predicate OneEffect(w: nat, j: Job, events: seq<Event>) {
    forall n :: 0 <= n < |events| && !events[n].Created? && events[n].w == w ==> j.pc == Done(Served) && n == j.h.at
  }

  ghost predicate OpOk(j: Job) {
    && (InEntry(j.pc) || InStore(j.pc) ==> j.op.SetOp?)
    && (j.pc.GFirst? || j.pc.GWalk? || j.pc.GTry? || Reading(j.pc) || j.pc == Done(Missing) ==> j.op.GetOp?)
  }

  ghost predicate DoneOk(w: nat, j: Job, events: seq<Event>) {
    && OpOk(j) && OneEffect(w, j, events)
    && (Reading(j.pc) ==> NoStoreIn(events, j.h.locked, |events|, j.item))
    && (j.pc == Done(Served) ==> if j.op.SetOp? then SetEffect(w, j, events) else GetEffect(w, j, events))
  }

  ghost predicate JobInv(w: nat, j: Job, m: Memory, p: Past)
    requires Sized(m, p)
  {
    var b := Bucket(j.key);
    && JobOk(j, |p.events|) && HoldsMutex(w, j, m) && WalkOk(j, p.chains[b], m.items)
    && SectionOk(j, m.heads[b], p.chains[b], m.items) && TargetOk(j, p.chains[b], m.items)
    && HoldsItem(w, j, m.items) && CopyOk(j, m.items) && LookOk(j, p.events) && DoneOk(w, j, p.events)
  }

  // ---------- what a step may do to everyone else ----------

  /** Items keep their keys; only an unpublished item whose bucket this worker has locked is
      linked; only the holder of its write lock changes a value. */
  ghost predicate ItemStep(w: nat, i: Item, k: Item) {
    && k.key == i.key
    && (i.writer != To(w) ==> k.value == i.value && k.size == i.size)
    && (forall v :: v != w ==> (i.writer == To(v) ==> k.writer == To(v)) && (v in i.readers ==> v in k.readers))
  }

  ghost predicate ItemsStep(w: nat, m: Memory, p: Past, n: Memory)
    requires Sized(m, p)
  {
    forall id :: id in m.items ==>
      && id in n.items && ItemStep(w, m.items[id], n.items[id])
      && (n.items[id].next != m.items[id].next ==>
            var b := Bucket(m.items[id].key);
            m.mutex[b] == To(w) && id !in p.chains[b])
  }

  /** Buckets grow at the front only, and only under their mutex. */
  ghost predicate BucketsStep(w: nat, m: Memory, p: Past, n: Memory, q: Past)
    requires Sized(m, p)
  {
    Sized(n, q) && forall b :: 0 <= b < CAPACITY ==>
      && Suffix(p.chains[b], q.chains[b])
      && (forall v :: v != w && m.mutex[b] == To(v) ==>
            n.mutex[b] == To(v) && n.heads[b] == m.heads[b] && q.chains[b] == p.chains[b])
  }

  /** Events are only added, effects only as one's own, and a store only by the holder of the
      write lock. */
  ghost predicate EventsStep(w: nat, m: Memory, p: Past, q: Past) {
    && |p.events| <= |q.events| && q.events[..|p.events|] == p.events
    && forall n :: |p.events| <= n < |q.events| ==>
         && (!q.events[n].Created? ==> q.events[n].w == w)
         && (q.events[n].Stored? ==> q.events[n].id in m.items && m.items[q.events[n].id].writer == To(w))
  }

  ghost predicate Guarantee(w: nat, m: Memory, p: Past, n: Memory, q: Past)
    requires Sized(m, p)
  {
    ItemsStep(w, m, p, n) && BucketsStep(w, m, p, n, q) && EventsStep(w, m, p, q)
  }

  // ---------- sequences ----------

  lemma SuffixIsTail(a: seq<nat>, b: seq<nat>, i: nat)
    requires Suffix(a, b) && i < |a|
    ensures a[i] == b[|b| - |a| + i] && a[i] in b
  {
    assert b[|b| - |a|..][i] == a[i];
  }

  lemma SuffixOfLonger(a: seq<nat>, b: seq<nat>, c: seq<nat>)
    requires Suffix(a, b) && Suffix(b, c)
    ensures Suffix(a, c)
  {
    forall i | 0 <= i < |a|
      ensures c[|c| - |a|..][i] == a[i]
    {
      SuffixIsTail(a, b, i);
      SuffixIsTail(b, c, |b| - |a| + i);
    }
    assert c[|c| - |a|..] == a;
  }

  lemma SuffixKeepsMembers(a: seq<nat>, b: seq<nat>, x: nat)
    requires Suffix(a, b) && x in a
    ensures x in b
  {
    var i :| 0 <= i < |a| && a[i] == x;
    SuffixIsTail(a, b, i);
  }

  lemma CurrentAppend(events: seq<Event>, e: Event, id: nat)
    ensures Current(events + [e], id) == if e.Stored? && e.id == id then e.v else Current(events, id)
  {
    assert (events + [e])[..|events + [e]| - 1] == events;
  }

  // ---------- a worker's step keeps the others' invariants ----------

  lemma ChainItemKept(w: nat, m: Memory, p: Past, n: Memory, ids: seq<nat>, k: CString)
    requires Sized(m, p) && ItemsStep(w, m, p, n) && NoneExtends(ids, m.items, k)
    ensures NoneExtends(ids, n.items, k)
  {
    forall i | 0 <= i < |ids|
      ensures ids[i] in n.items && !(k <= n.items[ids[i]].key)
    {
      assert ItemStep(w, m.items[ids[i]], n.items[ids[i]]);
    }
  }

  lemma WalkStable(w: nat, j: Job, m: Memory, p: Past, n: Memory, q: Past)
    requires Sized(m, p) && Guarantee(w, m, p, n, q)
    requires WalkOk(j, p.chains[Bucket(j.key)], m.items)
    ensures WalkOk(j, q.chains[Bucket(j.key)], n.items)
  {
    if j.pc.SWalk? || j.pc.GWalk? {
      SuffixOfLonger(j.h.snap, p.chains[Bucket(j.key)], q.chains[Bucket(j.key)]);
      ChainItemKept(w, m, p, n, j.h.snap[..j.pos], j.key);
    }
  }

  lemma SectionStable(w: nat, v: nat, j: Job, m: Memory, p: Past, n: Memory, q: Past)
    requires Sized(m, p) && Guarantee(w, m, p, n, q) && v != w && HoldsMutex(v, j, m)
    requires SectionOk(j, m.heads[Bucket(j.key)], p.chains[Bucket(j.key)], m.items)
    ensures SectionOk(j, n.heads[Bucket(j.key)], q.chains[Bucket(j.key)], n.items)
  {
    var b := Bucket(j.key);
    if Critical(j.pc) {
      assert m.mutex[b] == To(v);
      assert n.heads[b] == m.heads[b] && q.chains[b] == p.chains[b];
      if j.pc.SNew? || j.pc.SNext? || j.pc.SPublish? {
        ChainItemKept(w, m, p, n, p.chains[b], j.key);
      }
      if j.pc.SNext? || j.pc.SPublish? {
        assert ItemStep(w, m.items[j.item], n.items[j.item]);
      }
    }
  }

  lemma TargetStable(w: nat, j: Job, m: Memory, p: Past, n: Memory, q: Past)
    requires Sized(m, p) && Guarantee(w, m, p, n, q)
    requires TargetOk(j, p.chains[Bucket(j.key)], m.items)
    ensures TargetOk(j, q.chains[Bucket(j.key)], n.items)
  {
    if HasTarget(j.pc) {
      SuffixKeepsMembers(p.chains[Bucket(j.key)], q.chains[Bucket(j.key)], j.item);
      assert ItemStep(w, m.items[j.item], n.items[j.item]);
    }
  }

  /** A held item stays held, and its value stays as it is. */
  lemma HeldStable(w: nat, v: nat, j: Job, m: Memory, p: Past, n: Memory, q: Past)
    requires Sized(m, p) && Guarantee(w, m, p, n, q) && v != w && LocksInv(m.items)
    requires HoldsItem(v, j, m.items) && CopyOk(j, m.items)
    ensures HoldsItem(v, j, n.items) && CopyOk(j, n.items)
  {
    if Writing(j.pc) || Reading(j.pc) {
      assert ItemStep(w, m.items[j.item], n.items[j.item]);
      assert n.items[j.item].value == m.items[j.item].value && n.items[j.item].size == m.items[j.item].size;
    }
  }

  lemma EventStable(w: nat, e: Event, m: Memory, p: Past, n: Memory, q: Past)
    requires Sized(m, p) && Guarantee(w, m, p, n, q) && EventOk(e, m, p)
    ensures EventOk(e, n, q)
  {
    SuffixKeepsMembers(p.chains[Bucket(e.key)], q.chains[Bucket(e.key)], e.id);
    assert ItemStep(w, m.items[e.id], n.items[e.id]);
  }

  lemma LookStable(j: Job, events: seq<Event>, after: seq<Event>)
    requires LookOk(j, events) && j.h.looked <= |events| <= |after| && after[..|events|] == events
    ensures LookOk(j, after)
  {
    assert forall n :: 0 <= n < j.h.looked ==> after[n] == after[..|events|][n];
  }

  lemma DoneStable(w: nat, v: nat, j: Job, m: Memory, p: Past, q: Past)
    requires EventsStep(w, m, p, q) && v != w && LocksInv(m.items)
    requires HoldsItem(v, j, m.items) && DoneOk(v, j, p.events)
    ensures DoneOk(v, j, q.events)
  {
    assert forall n :: 0 <= n < |p.events| ==> q.events[n] == q.events[..|p.events|][n];
    if Reading(j.pc) {
      assert m.items[j.item].writer.Null?;
    }
  }

  lemma JobStable(w: nat, v: nat, j: Job, m: Memory, p: Past, n: Memory, q: Past)
    requires Sized(m, p) && Guarantee(w, m, p, n, q) && v != w && LocksInv(m.items)
    requires JobInv(v, j, m, p)
    ensures JobInv(v, j, n, q)
  {
    WalkStable(w, j, m, p, n, q);
    SectionStable(w, v, j, m, p, n, q);
    TargetStable(w, j, m, p, n, q);
    HeldStable(w, v, j, m, p, n, q);
    LookStable(j, p.events, q.events);
    DoneStable(w, v, j, m, p, q);
  }
}
