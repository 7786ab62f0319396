/** Every step of a worker keeps the shared invariant and its own, and does no more than it
    guarantees the others. */
module StoreSteps {
  import opened CStrings
  import opened Hash
  import opened ConcurrentStore
  import opened StoreInvariant

  /** The worker's bucket. */
  function B(v: View): (b: nat)
    ensures b < CAPACITY
  {
    Bucket(v.j.key)
  }

  /** A fresh item is not in a list none of whose keys extends its key. */
  lemma FreshIsUnpublished(chain: seq<nat>, items: map<nat, Item>, id: nat)
    requires id in items && NoneExtends(chain, items, items[id].key)
    ensures id !in chain
  {
  }

  /** A step keeps every item's key, and its link too unless it is linking its own fresh item. */
  lemma LinksFramed(w: nat, v: View, c: Choice, id: nat)
    requires CanStep(w, v, c) && id in v.m.items
    ensures
      var t := Step(w, v, c);
      && id in t.m.items && t.m.items[id].key == v.m.items[id].key
      && (t.m.items[id].next == v.m.items[id].next || (v.j.pc.SNext? && id == v.j.item))
  {
  }

  // ---------- the guarantee to the other workers ----------

  lemma ItemGuarantee(w: nat, v: View, c: Choice, id: nat)
    requires CanStep(w, v, c) && id in v.m.items
    requires HoldsItem(w, v.j, v.m.items)
    ensures var t := Step(w, v, c); id in t.m.items && ItemStep(w, v.m.items[id], t.m.items[id])
  {
  }

  lemma ItemsGuarantee(w: nat, v: View, c: Choice)
    requires CanStep(w, v, c) && HoldsItem(w, v.j, v.m.items) && HoldsMutex(w, v.j, v.m)
    requires SectionOk(v.j, v.m.heads[B(v)], v.p.chains[B(v)], v.m.items)
    ensures ItemsStep(w, v.m, v.p, Step(w, v, c).m)
  {
    var t := Step(w, v, c);
    forall id | id in v.m.items
      ensures id in t.m.items && ItemStep(w, v.m.items[id], t.m.items[id])
      ensures t.m.items[id].next != v.m.items[id].next ==>
                v.m.mutex[Bucket(v.m.items[id].key)] == To(w) && id !in v.p.chains[Bucket(v.m.items[id].key)]
    {
      ItemGuarantee(w, v, c, id);
      LinksFramed(w, v, c, id);
      if v.j.pc.SNext? && id == v.j.item {
        FreshIsUnpublished(v.p.chains[B(v)], v.m.items, id);
      }
    }
  }

  lemma OnlyEntryTouchesBuckets(w: nat, v: View, c: Choice)
    requires CanStep(w, v, c) && !v.j.pc.SLock? && !v.j.pc.SPublish? && !v.j.pc.SUnlock?
    ensures var t := Step(w, v, c); t.m.heads == v.m.heads && t.m.mutex == v.m.mutex && t.p.chains == v.p.chains
  {
  }

  lemma PublishGrowsChain(w: nat, v: View, c: Choice, b: nat)
    requires CanStep(w, v, c) && v.j.pc.SPublish? && b < CAPACITY
    ensures
      var t := EntryStep(w, v, c);
      && Sized(t.m, t.p) && t.m.mutex == v.m.mutex && Suffix(v.p.chains[b], t.p.chains[b])
      && (b != B(v) ==> t.m.heads[b] == v.m.heads[b] && t.p.chains[b] == v.p.chains[b])
  {
    var t := EntryStep(w, v, c);
    if b == B(v) {
      assert t.p.chains[b][1..] == v.p.chains[b];
    }
  }

  lemma BucketGuarantee(w: nat, v: View, c: Choice, b: nat)
    requires CanStep(w, v, c) && HoldsMutex(w, v.j, v.m) && b < CAPACITY
    ensures
      var t := Step(w, v, c);
      && Sized(t.m, t.p) && Suffix(v.p.chains[b], t.p.chains[b])
      && (v.m.mutex[b] != To(w) && v.m.mutex[b].To? ==>
            t.m.mutex[b] == v.m.mutex[b] && t.m.heads[b] == v.m.heads[b] && t.p.chains[b] == v.p.chains[b])
  {
    if v.j.pc.SPublish? {
      PublishGrowsChain(w, v, c, b);
    } else if !v.j.pc.SLock? && !v.j.pc.SUnlock? {
      OnlyEntryTouchesBuckets(w, v, c);
    }
  }

  lemma BucketsGuarantee(w: nat, v: View, c: Choice)
    requires CanStep(w, v, c) && HoldsMutex(w, v.j, v.m)
    ensures var t := Step(w, v, c); BucketsStep(w, v.m, v.p, t.m, t.p)
  {
    var t := Step(w, v, c);
    forall b | 0 <= b < CAPACITY
      ensures Sized(t.m, t.p) && Suffix(v.p.chains[b], t.p.chains[b])
      ensures forall u :: u != w && v.m.mutex[b] == To(u) ==>
                t.m.mutex[b] == To(u) && t.m.heads[b] == v.m.heads[b] && t.p.chains[b] == v.p.chains[b]
    {
      BucketGuarantee(w, v, c, b);
    }
    assert Sized(t.m, t.p) by {
      BucketGuarantee(w, v, c, 0);
    }
  }

  lemma EventsGuarantee(w: nat, v: View, c: Choice)
    requires CanStep(w, v, c) && HoldsItem(w, v.j, v.m.items)
    ensures EventsStep(w, v.m, v.p, Step(w, v, c).p)
  {
  }

  lemma StepGuarantee(w: nat, v: View, c: Choice)
    requires CanStep(w, v, c) && JobInv(w, v.j, v.m, v.p)
    ensures var t := Step(w, v, c); Guarantee(w, v.m, v.p, t.m, t.p)
  {
    ItemsGuarantee(w, v, c);
    BucketsGuarantee(w, v, c);
    EventsGuarantee(w, v, c);
  }

  // ---------- the shared invariant ----------

  lemma ListFramed(head: Link, chain: seq<nat>, items: map<nat, Item>, b: nat, after: map<nat, Item>)
    requires ListOk(head, chain, items, b)
    requires forall id :: id in chain ==> id in after && after[id].key == items[id].key && after[id].next == items[id].next
    ensures ListOk(head, chain, after, b)
  {
    forall i, j | 0 <= i < j < |chain|
      ensures !(after[chain[i]].key <= after[chain[j]].key)
    {
      assert chain[i] in chain && chain[j] in chain;
    }
  }

  lemma ListGrows(head: Link, chain: seq<nat>, items: map<nat, Item>, id: nat, b: nat)
    requires ListOk(head, chain, items, b)
    requires id in items && IsKey(items[id].key) && Bucket(items[id].key) == b && items[id].next == head
    requires NoneExtends(chain, items, items[id].key)
    ensures ListOk(To(id), [id] + chain, items, b)
  {
    var after := [id] + chain;
    assert forall i :: 0 < i < |after| ==> after[i] == chain[i - 1];
  }

  lemma PublishKeepsLists(w: nat, v: View, c: Choice)
    requires CanStep(w, v, c) && ListsInv(v.m, v.p) && IsKey(v.j.key) && v.j.pc.SPublish?
    requires SectionOk(v.j, v.m.heads[B(v)], v.p.chains[B(v)], v.m.items)
    ensures var t := Step(w, v, c); ListsInv(t.m, t.p)
  {
    ListGrows(v.m.heads[B(v)], v.p.chains[B(v)], v.m.items, v.j.item, B(v));
  }

  lemma OtherStepsKeepLists(w: nat, v: View, c: Choice)
    requires CanStep(w, v, c) && ListsInv(v.m, v.p) && !v.j.pc.SPublish?
    requires SectionOk(v.j, v.m.heads[B(v)], v.p.chains[B(v)], v.m.items)
    ensures var t := Step(w, v, c); ListsInv(t.m, t.p)
  {
    var t := Step(w, v, c);
    assert t.m.heads == v.m.heads && t.p.chains == v.p.chains;
    if v.j.pc.SNext? {
      FreshIsUnpublished(v.p.chains[B(v)], v.m.items, v.j.item);
    }
    forall b | 0 <= b < CAPACITY
      ensures ListOk(v.m.heads[b], v.p.chains[b], t.m.items, b)
    {
      forall id | id in v.p.chains[b]
        ensures id in t.m.items && t.m.items[id].key == v.m.items[id].key && t.m.items[id].next == v.m.items[id].next
      {
        LinksFramed(w, v, c, id);
      }
      ListFramed(v.m.heads[b], v.p.chains[b], v.m.items, b, t.m.items);
    }
  }

  lemma LocksKept(w: nat, v: View, c: Choice)
    requires CanStep(w, v, c) && LocksInv(v.m.items)
    requires HoldsItem(w, v.j, v.m.items)
    ensures LocksInv(Step(w, v, c).m.items)
  {
  }

  lemma EntryLeavesValues(w: nat, v: View, c: Choice, id: nat)
    requires CanStep(w, v, c) && id in v.m.items && InEntry(v.j.pc)
    requires ItemHolds(v.m.items[id], Current(v.p.events, id))
    ensures var t := EntryStep(w, v, c); id in t.m.items && ItemHolds(t.m.items[id], Current(t.p.events, id))
  {
    if v.j.pc.SPublish? {
      CurrentAppend(v.p.events, Created(v.j.item, v.j.key), id);
    }
  }

  lemma FetchLeavesValues(w: nat, v: View, c: Choice, id: nat)
    requires CanStep(w, v, c) && id in v.m.items && !InEntry(v.j.pc) && !InStore(v.j.pc)
    requires ItemHolds(v.m.items[id], Current(v.p.events, id))
    ensures var t := FetchStep(w, v, c); id in t.m.items && ItemHolds(t.m.items[id], Current(t.p.events, id))
  {
    if v.j.pc.GRelease? {
      CurrentAppend(v.p.events, Fetched(v.j.item, v.j.key, v.j.buf[..v.j.outLen], w), id);
    }
  }

  /** A value is written under the item's lock, which hides it; releasing the lock is the
      event that makes the new value current. */
  lemma ValueWritten(w: nat, v: View, c: Choice, id: nat)
    requires CanStep(w, v, c) && id in v.m.items && InStore(v.j.pc) && JobOk(v.j, |v.p.events|)
    requires HoldsItem(w, v.j, v.m.items) && CopyOk(v.j, v.m.items)
    requires ItemHolds(v.m.items[id], Current(v.p.events, id))
    ensures var t := StoreStep(w, v, c); id in t.m.items && ItemHolds(t.m.items[id], Current(t.p.events, id))
  {
    if v.j.pc.SRelease? {
      CurrentAppend(v.p.events, Stored(v.j.item, v.j.key, v.j.msg, w), id);
    }
  }

  lemma OnlyNewAllocates(w: nat, v: View, c: Choice, id: nat)
    requires CanStep(w, v, c) && id in Step(w, v, c).m.items && id !in v.m.items
    ensures var t := Step(w, v, c); t.p == v.p && t.m.items[id] == Item(v.j.key, Null, [], 0, {}, Null)
  {
  }

  lemma ValuesKept(w: nat, v: View, c: Choice)
    requires CanStep(w, v, c) && ValuesInv(v.m, v.p) && EventsInv(v.m, v.p) && JobOk(v.j, |v.p.events|)
    requires HoldsItem(w, v.j, v.m.items) && CopyOk(v.j, v.m.items)
    ensures var t := Step(w, v, c); ValuesInv(t.m, t.p)
  {
    var t := Step(w, v, c);
    forall id | id in t.m.items
      ensures ItemHolds(t.m.items[id], Current(t.p.events, id))
    {
      if id !in v.m.items {
        OnlyNewAllocates(w, v, c, id);
        NeverStored(v.p.events, v.m, v.p, id);
      } else if InEntry(v.j.pc) {
        EntryLeavesValues(w, v, c, id);
      } else if InStore(v.j.pc) {
        ValueWritten(w, v, c, id);
      } else {
        FetchLeavesValues(w, v, c, id);
      }
    }
  }

  lemma {:induction false} NeverStored(events: seq<Event>, m: Memory, p: Past, id: nat)
    requires |p.chains| == CAPACITY && (forall n :: 0 <= n < |events| ==> EventOk(events[n], m, p)) && id !in m.items
    ensures Current(events, id) == []
    decreases |events|
  {
    if events != [] {
      NeverStored(events[..|events| - 1], m, p, id);
    }
  }

  /** A step adds at most one event, about the item it has published or found. */
  lemma NewEventOk(w: nat, v: View, c: Choice)
    requires CanStep(w, v, c)
    requires SectionOk(v.j, v.m.heads[B(v)], v.p.chains[B(v)], v.m.items) && TargetOk(v.j, v.p.chains[B(v)], v.m.items)
    ensures
      var t := Step(w, v, c);
      && |t.p.chains| == CAPACITY && |v.p.events| <= |t.p.events| <= |v.p.events| + 1
      && (|t.p.events| > |v.p.events| ==> EventOk(t.p.events[|v.p.events|], t.m, t.p))
  {
  }

  lemma EventsKept(w: nat, v: View, c: Choice)
    requires CanStep(w, v, c) && EventsInv(v.m, v.p) && JobInv(w, v.j, v.m, v.p)
    ensures var t := Step(w, v, c); |t.p.chains| == CAPACITY && EventsInv(t.m, t.p)
  {
    var t := Step(w, v, c);
    StepGuarantee(w, v, c);
    NewEventOk(w, v, c);
    forall n | 0 <= n < |t.p.events|
      ensures EventOk(t.p.events[n], t.m, t.p)
    {
      if n < |v.p.events| {
        assert t.p.events[n] == t.p.events[..|v.p.events|][n];
        EventStable(w, v.p.events[n], v.m, v.p, t.m, t.p);
      }
    }
  }

  /** What a fetch returns is the item's current value. */
  lemma RegistersKept(w: nat, v: View, c: Choice)
    requires CanStep(w, v, c) && ItemsAreRegisters(v.p.events) && ValuesInv(v.m, v.p) && LocksInv(v.m.items)
    requires HoldsItem(w, v.j, v.m.items) && CopyOk(v.j, v.m.items)
    ensures ItemsAreRegisters(Step(w, v, c).p.events)
  {
    var t := Step(w, v, c);
    forall n | 0 <= n < |t.p.events| && t.p.events[n].Fetched?
      ensures t.p.events[n].v == Current(t.p.events[..n], t.p.events[n].id)
    {
      if n < |v.p.events| {
        assert t.p.events[..n] == v.p.events[..n];
      } else {
        assert t.p.events[..n] == v.p.events;
        assert ItemHolds(v.m.items[v.j.item], Current(v.p.events, v.j.item));
      }
    }
  }

  lemma CreatedInOrderAppend(events: seq<Event>, e: Event)
    requires CreatedInOrder(events)
    requires e.Created? ==> forall n :: 0 <= n < |events| && events[n].Created? && Bucket(events[n].key) == Bucket(e.key) ==>
                              !(e.key <= events[n].key)
    ensures CreatedInOrder(events + [e])
  {
  }

  /** Only publishing creates. */
  lemma NewEvent(w: nat, v: View, c: Choice) returns (e: Event)
    requires CanStep(w, v, c)
    ensures var t := Step(w, v, c); t.p.events == v.p.events || t.p.events == v.p.events + [e]
    ensures if v.j.pc.SPublish? then e == Created(v.j.item, v.j.key) else !e.Created?
    ensures e.key == v.j.key == Step(w, v, c).j.key
  {
    e := if v.j.pc.SPublish? then Created(v.j.item, v.j.key)
    else if v.j.pc.GRelease? then Fetched(v.j.item, v.j.key, v.j.buf[..v.j.outLen], w)
    else Stored(v.j.item, v.j.key, v.j.msg, w);
  }

  /** Whoever publishes has looked, under the mutex, at everything created before. */
  lemma CreationKept(w: nat, v: View, c: Choice)
    requires CanStep(w, v, c) && CreatedInOrder(v.p.events) && EventsInv(v.m, v.p)
    requires SectionOk(v.j, v.m.heads[B(v)], v.p.chains[B(v)], v.m.items)
    ensures CreatedInOrder(Step(w, v, c).p.events)
  {
    var e := NewEvent(w, v, c);
    if v.j.pc.SPublish? {
      forall n | 0 <= n < |v.p.events| && v.p.events[n].Created? && Bucket(v.p.events[n].key) == B(v)
        ensures !(v.j.key <= v.p.events[n].key)
      {
        assert EventOk(v.p.events[n], v.m, v.p);
      }
    }
    CreatedInOrderAppend(v.p.events, e);
  }

  lemma SharedKept(w: nat, v: View, c: Choice)
    requires CanStep(w, v, c) && SharedInv(v.m, v.p) && JobInv(w, v.j, v.m, v.p)
    ensures var t := Step(w, v, c); SharedInv(t.m, t.p)
  {
    if v.j.pc.SPublish? {
      PublishKeepsLists(w, v, c);
    } else {
      OtherStepsKeepLists(w, v, c);
    }
    LocksKept(w, v, c);
    ValuesKept(w, v, c);
    EventsKept(w, v, c);
    RegistersKept(w, v, c);
    CreationKept(w, v, c);
  }

  // ---------- the worker's own invariant ----------

  lemma LinkAt(head: Link, chain: seq<nat>, items: map<nat, Item>, b: nat, i: nat)
    requires Linked(head, chain, items, b) && i < |chain|
    ensures chain[i] in items && items[chain[i]].next == if i + 1 < |chain| then To(chain[i + 1]) else Null
    ensures IsKey(items[chain[i]].key)
  {
  }

  /** One more item whose key does not extend the query. */
  lemma WalkAdvances(j: Job, chain: seq<nat>, head: Link, m: Memory, found: Pc, missing: Pc)
    requires Walking(j.pc)
    requires IsKey(j.key) && WalkOk(j, chain, m.items) && Linked(head, chain, m.items, Bucket(j.key))
    ensures j.cur.To? ==> j.cur.id in chain && j.cur.id in m.items
    ensures
      var k := Walked(j, m, found, missing);
      if j.cur.Null? then k == j.(pc := missing) && NoneExtends(j.h.snap, m.items, j.key)
      else if j.key <= m.items[j.cur.id].key then k == j.(pc := found, item := j.cur.id)
      else k.pc == j.pc && WalkOk(k, chain, m.items)
  {
    if j.cur.To? {
      SuffixIsTail(j.h.snap, chain, j.pos);
      LinkAt(head, chain, m.items, Bucket(j.key), |chain| - |j.h.snap| + j.pos);
      StrncmpIsPrefixTest(m.items[j.cur.id].key, j.key);
      if j.pos + 1 < |j.h.snap| {
        SuffixIsTail(j.h.snap, chain, j.pos + 1);
      }
      assert j.h.snap[..j.pos + 1] == j.h.snap[..j.pos] + [j.cur.id];
    } else {
      assert j.h.snap[..j.pos] == j.h.snap;
    }
  }

  predicate Walking(pc: Pc) {
    pc.SWalk? || pc.GWalk?
  }

  /** Looking at one more item changes nothing shared. */
  lemma WalkStepIsLocal(w: nat, v: View, c: Choice)
    requires CanStep(w, v, c) && Walking(v.j.pc)
    ensures
      Step(w, v, c) ==
      v.(j := if v.j.pc.SWalk? then Walked(v.j, v.m, SUnlock, SNew) else Walked(v.j, v.m, GTry, Done(Missing)))
  {
  }

  lemma WalkFindsTarget(j: Job, chain: seq<nat>, head: Link, m: Memory, found: Pc, missing: Pc)
    requires Walking(j.pc) && (j.cur.To? ==> j.cur.id in m.items) && !HasTarget(missing) && !Walking(missing) && !Walking(found)
    requires IsKey(j.key) && WalkOk(j, chain, m.items) && Linked(head, chain, m.items, Bucket(j.key))
    ensures var k := Walked(j, m, found, missing); k.key == j.key && WalkOk(k, chain, m.items) && TargetOk(k, chain, m.items)
  {
    WalkAdvances(j, chain, head, m, found, missing);
  }

  lemma SetWalkSection(j: Job, chain: seq<nat>, head: Link, m: Memory)
    requires j.pc.SWalk? && (j.cur.To? ==> j.cur.id in m.items)
    requires IsKey(j.key) && WalkOk(j, chain, m.items) && Linked(head, chain, m.items, Bucket(j.key))
    requires j.head == head && j.h.snap == chain
    ensures SectionOk(Walked(j, m, SUnlock, SNew), head, chain, m.items)
  {
    if j.cur.Null? {
      WalkAdvances(j, chain, head, m, SUnlock, SNew);
    }
  }

  /** A GET that reaches the end has passed every item that was there when it read the head. */
  lemma GetWalkLook(j: Job, m: Memory, p: Past)
    requires Sized(m, p) && j.pc.GWalk? && (j.cur.To? ==> j.cur.id in m.items)
    requires IsKey(j.key) && WalkOk(j, p.chains[Bucket(j.key)], m.items)
    requires Linked(m.heads[Bucket(j.key)], p.chains[Bucket(j.key)], m.items, Bucket(j.key))
    requires LookOk(j, p.events) && EventsInv(m, p)
    ensures LookOk(Walked(j, m, GTry, Done(Missing)), p.events)
  {
    WalkAdvances(j, p.chains[Bucket(j.key)], m.heads[Bucket(j.key)], m, GTry, Done(Missing));
    if j.cur.Null? {
      forall n | 0 <= n < j.h.looked <= |p.events| && Bucket(p.events[n].key) == Bucket(j.key)
        ensures !(j.key <= p.events[n].key)
      {
        assert EventOk(p.events[n], m, p);
      }
    }
  }

  lemma WalkKeepsRest(w: nat, j: Job, m: Memory, now: nat, found: Pc, missing: Pc)
    requires Walking(j.pc) && (j.cur.To? ==> j.cur.id in m.items) && |m.mutex| == CAPACITY
    requires if j.pc.SWalk? then found.SUnlock? && missing.SNew? else found.GTry? && missing == Done(Missing)
    requires JobOk(j, now) && HoldsMutex(w, j, m)
    ensures
      var k := Walked(j, m, found, missing);
      && k.key == j.key && JobOk(k, now) && HoldsMutex(w, k, m)
      && !Writing(k.pc) && !Reading(k.pc) && k.pc != Done(Served)
  {
  }

  lemma SetWalkKept(w: nat, j: Job, m: Memory, p: Past)
    requires Sized(m, p) && Safe(j, m) && j.pc.SWalk? && ListsInv(m, p) && JobInv(w, j, m, p)
    ensures JobInv(w, Walked(j, m, SUnlock, SNew), m, p)
  {
    var b := Bucket(j.key);
    WalkFindsTarget(j, p.chains[b], m.heads[b], m, SUnlock, SNew);
    SetWalkSection(j, p.chains[b], m.heads[b], m);
    WalkKeepsRest(w, j, m, |p.events|, SUnlock, SNew);
  }

  lemma GetWalkKept(w: nat, j: Job, m: Memory, p: Past)
    requires Sized(m, p) && Safe(j, m) && j.pc.GWalk? && ListsInv(m, p) && EventsInv(m, p) && JobInv(w, j, m, p)
    ensures JobInv(w, Walked(j, m, GTry, Done(Missing)), m, p)
  {
    var b := Bucket(j.key);
    WalkFindsTarget(j, p.chains[b], m.heads[b], m, GTry, Done(Missing));
    GetWalkLook(j, m, p);
    WalkKeepsRest(w, j, m, |p.events|, GTry, Done(Missing));
  }

  lemma EntryKeepsJob(w: nat, v: View, c: Choice)
    requires CanStep(w, v, c) && InEntry(v.j.pc) && !v.j.pc.SWalk? && JobInv(w, v.j, v.m, v.p)
    ensures
      var t := EntryStep(w, v, c);
      && t.j.key == v.j.key && Sized(t.m, t.p) && JobOk(t.j, |t.p.events|) && HoldsMutex(w, t.j, t.m)
      && HoldsItem(w, t.j, t.m.items) && CopyOk(t.j, t.m.items) && LookOk(t.j, t.p.events) && DoneOk(w, t.j, t.p.events)
  {
  }

  lemma EntryKeepsSection(w: nat, v: View, c: Choice)
    requires CanStep(w, v, c) && InEntry(v.j.pc) && !v.j.pc.SWalk? && ListsInv(v.m, v.p)
    requires SectionOk(v.j, v.m.heads[B(v)], v.p.chains[B(v)], v.m.items) && TargetOk(v.j, v.p.chains[B(v)], v.m.items)
    ensures
      var t := EntryStep(w, v, c);
      && t.j.key == v.j.key && Sized(t.m, t.p) && WalkOk(t.j, t.p.chains[B(v)], t.m.items)
      && SectionOk(t.j, t.m.heads[B(v)], t.p.chains[B(v)], t.m.items) && TargetOk(t.j, t.p.chains[B(v)], t.m.items)
  {
    assert ListOk(v.m.heads[B(v)], v.p.chains[B(v)], v.m.items, B(v));
  }

  lemma StoreKeepsPlace(w: nat, v: View, c: Choice)
    requires CanStep(w, v, c) && InStore(v.j.pc) && JobOk(v.j, |v.p.events|)
    requires TargetOk(v.j, v.p.chains[B(v)], v.m.items)
    ensures
      var t := StoreStep(w, v, c);
      && t.j.key == v.j.key && Sized(t.m, t.p) && JobOk(t.j, |t.p.events|) && HoldsMutex(w, t.j, t.m)
      && WalkOk(t.j, t.p.chains[B(v)], t.m.items) && SectionOk(t.j, t.m.heads[B(v)], t.p.chains[B(v)], t.m.items)
      && TargetOk(t.j, t.p.chains[B(v)], t.m.items) && LookOk(t.j, t.p.events)
  {
  }

  lemma StoreKeepsCopy(w: nat, v: View, c: Choice)
    requires CanStep(w, v, c) && InStore(v.j.pc) && JobOk(v.j, |v.p.events|)
    requires HoldsItem(w, v.j, v.m.items) && CopyOk(v.j, v.m.items)
    ensures var t := StoreStep(w, v, c); HoldsItem(w, t.j, t.m.items) && CopyOk(t.j, t.m.items)
  {
  }

  lemma StoreKeepsHistory(w: nat, v: View, c: Choice)
    requires CanStep(w, v, c) && InStore(v.j.pc) && JobOk(v.j, |v.p.events|) && DoneOk(w, v.j, v.p.events)
    ensures var t := StoreStep(w, v, c); DoneOk(w, t.j, t.p.events)
  {
  }

  lemma FetchKeepsJob(w: nat, v: View, c: Choice)
    requires CanStep(w, v, c) && !InEntry(v.j.pc) && !InStore(v.j.pc) && !v.j.pc.GWalk?
    requires ListsInv(v.m, v.p) && JobInv(w, v.j, v.m, v.p)
    ensures
      var t := FetchStep(w, v, c);
      && t.j.key == v.j.key && Sized(t.m, t.p) && JobOk(t.j, |t.p.events|) && HoldsMutex(w, t.j, t.m)
      && WalkOk(t.j, t.p.chains[B(v)], t.m.items) && SectionOk(t.j, t.m.heads[B(v)], t.p.chains[B(v)], t.m.items)
      && TargetOk(t.j, t.p.chains[B(v)], t.m.items) && HoldsItem(w, t.j, t.m.items)
  {
    assert ListOk(v.m.heads[B(v)], v.p.chains[B(v)], v.m.items, B(v));
  }

  /** A reader copies a value nobody writes. */
  lemma FetchKeepsCopy(w: nat, v: View, c: Choice)
    requires CanStep(w, v, c) && !InEntry(v.j.pc) && !InStore(v.j.pc) && !v.j.pc.GWalk?
    requires JobOk(v.j, |v.p.events|) && HoldsItem(w, v.j, v.m.items) && CopyOk(v.j, v.m.items)
    requires LocksInv(v.m.items) && ValuesInv(v.m, v.p)
    ensures var t := FetchStep(w, v, c); CopyOk(t.j, t.m.items)
  {
    if Reading(v.j.pc) {
      assert ItemHolds(v.m.items[v.j.item], Current(v.p.events, v.j.item));
    }
  }

  lemma FetchKeepsHistory(w: nat, v: View, c: Choice)
    requires CanStep(w, v, c) && !InEntry(v.j.pc) && !InStore(v.j.pc) && !v.j.pc.GWalk?
    requires EventsInv(v.m, v.p) && JobOk(v.j, |v.p.events|) && DoneOk(w, v.j, v.p.events)
    ensures var t := FetchStep(w, v, c); LookOk(t.j, t.p.events) && DoneOk(w, t.j, t.p.events)
  {
    if v.j.pc.GFirst? {
      forall n | 0 <= n < |v.p.events| && Bucket(v.p.events[n].key) == B(v)
        ensures v.p.events[n].id in v.p.chains[B(v)]
      {
        assert EventOk(v.p.events[n], v.m, v.p);
      }
    }
  }

  lemma OwnKept(w: nat, v: View, c: Choice)
    requires CanStep(w, v, c) && SharedInv(v.m, v.p) && JobInv(w, v.j, v.m, v.p)
    ensures var t := Step(w, v, c); Sized(t.m, t.p) && JobInv(w, t.j, t.m, t.p)
  {
    if Walking(v.j.pc) {
      WalkStepIsLocal(w, v, c);
      if v.j.pc.SWalk? {
        SetWalkKept(w, v.j, v.m, v.p);
      } else {
        GetWalkKept(w, v.j, v.m, v.p);
      }
    } else if InEntry(v.j.pc) {
      EntryKeepsJob(w, v, c);
      EntryKeepsSection(w, v, c);
    } else if InStore(v.j.pc) {
      StoreKeepsPlace(w, v, c);
      StoreKeepsCopy(w, v, c);
      StoreKeepsHistory(w, v, c);
    } else {
      FetchKeepsJob(w, v, c);
      FetchKeepsCopy(w, v, c);
      FetchKeepsHistory(w, v, c);
    }
  }
}
