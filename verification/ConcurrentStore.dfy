/** Any number of SETs and GETs in progress on the shared table, one memory access at a time.
    Each is named by a number of its own; workers that serve one after another are some of
    the schedules. SET finds or creates its item under the bucket's mutex; GET walks the list with no
    lock at all; both then try the item's read-write lock and copy the value byte by byte. */
module ConcurrentStore {
  import opened CStrings
  import opened Hash

  /** A pointer to an item, or the owner of a lock; Null for none. */
  datatype Link = Null | To(id: nat)

  /** A `hash_item_t`: `value` is the allocated block, `size` is value_size. */
  datatype Item = Item(key: CString, next: Link, value: seq<Char>, size: nat, readers: set<nat>, writer: Link)

  datatype Outcome = Served | Missing | Occupied

  /** Where a worker is in set_request, get_key_entry and search, or in get_request. */
  datatype Pc =
    | SLock | SHead | SFirst | SWalk | SNew | SNext | SPublish | SUnlock
    | STry | SAlloc | SCopy | SSize | SRelease
    | GFirst | GWalk | GTry | GSize | GCopy | GLen | GRelease
    | Done(outcome: Outcome)

  datatype Op = SetOp | GetOp

  /** History of one request, as numbers of events: when it began, when it read the bucket's
      head, when it took the read lock, and which event is its effect; and the bucket's list
      when it read the head. */
  datatype Trace = Trace(since: nat, looked: nat, locked: nat, at: nat, snap: seq<nat>)

  /** A request and its worker's local variables: item_head, current, the entry, the copy loop's
      index and bound, and the response message. */
  datatype Job = Job(op: Op, pc: Pc, key: CString, msg: seq<Char>, head: Link, cur: Link, item: nat,
                     pos: nat, bound: nat, buf: seq<Char>, outLen: nat, h: Trace)

  datatype Event =
    | Created(id: nat, key: CString)
    | Stored(id: nat, key: CString, v: seq<Char>, w: nat)
    | Fetched(id: nat, key: CString, v: seq<Char>, w: nat)

  /** Shared memory: bucket heads and mutexes, and the items. */
  datatype Memory = Memory(heads: seq<Link>, mutex: seq<Link>, items: map<nat, Item>)

  /** History of the whole store: the lists as published, head first, and the events in order. */
  datatype Past = Past(chains: seq<seq<nat>>, events: seq<Event>)

  datatype Store = Store(m: Memory, jobs: map<nat, Job>, p: Past)

  /** What one request reads and writes. */
  datatype View = View(j: Job, m: Memory, p: Past)

  /** What the allocator chose, for the two steps that allocate. */
  datatype Choice = None | Address(id: nat) | Block(bytes: seq<Char>)

  datatype Move = BeginSet(w: nat, key: CString, msg: seq<Char>) | BeginGet(w: nat, key: CString) | Go(w: nat, c: Choice)

  ghost predicate InitStore(s: Store) {
    && s.m.heads == seq(CAPACITY, _ => Null) && s.m.mutex == seq(CAPACITY, _ => Null) && s.m.items == map[]
    && s.jobs == map[] && s.p == Past(seq(CAPACITY, _ => []), [])
  }

  predicate Sized(m: Memory, p: Past) {
    |m.heads| == |m.mutex| == |p.chains| == CAPACITY
  }

  function Fresh(op: Op, key: CString, msg: seq<Char>, now: nat): Job {
    Job(op, if op.SetOp? then SLock else GFirst, key, msg, Null, Null, 0, 0, 0, seq(MSG_SIZE, _ => 0), 0,
        Trace(now, now, now, 0, []))
  }

  /** The step the worker takes next touches allocated memory only, inside its bounds. */
  predicate Safe(j: Job, m: Memory) {
    match j.pc
    case SWalk => j.cur.To? ==> j.cur.id in m.items
    case GWalk => j.cur.To? ==> j.cur.id in m.items
    case SCopy => j.item in m.items && (j.pos < |j.msg| ==> j.pos < |m.items[j.item].value|)
    case GCopy => j.item in m.items && (j.pos < j.bound ==> j.pos < |m.items[j.item].value| && j.pos < |j.buf|)
    case GRelease => j.item in m.items && j.outLen <= |j.buf|
    case SNext => j.item in m.items
    case STry => j.item in m.items
    case SAlloc => j.item in m.items
    case SSize => j.item in m.items
    case SRelease => j.item in m.items
    case GTry => j.item in m.items
    case GSize => j.item in m.items
    case GLen => j.item in m.items
    case _ => true
  }

  /** Waiting for a mutex blocks, and the allocator hands out unused memory. */
  predicate Enabled(v: View, c: Choice)
    requires Sized(v.m, v.p)
  {
    match v.j.pc
    case SLock => v.m.mutex[Bucket(v.j.key)] == Null
    case SNew => c.Address? && c.id !in v.m.items
    case SAlloc => c.Block? && |c.bytes| == MSG_SIZE
    case Done(_) => false
    case _ => true
  }

  function WithItem(m: Memory, id: nat, i: Item): Memory {
    m.(items := m.items[id := i])
  }

  /** One iteration of `search`: stop at the end, or at a key `strncmp` accepts. */
  function Walked(j: Job, m: Memory, found: Pc, missing: Pc): Job
    requires j.cur.To? ==> j.cur.id in m.items
  {
    if j.cur.Null? then j.(pc := missing)
    else if StrncmpIsZero(m.items[j.cur.id].key, j.key, |j.key|) then j.(pc := found, item := j.cur.id)
    else j.(cur := m.items[j.cur.id].next, pos := j.pos + 1)
  }

  /** `current = ht->items[bucket]`. */
  function AtHead(v: View, pc: Pc): Job
    requires Sized(v.m, v.p)
  {
    var b := Bucket(v.j.key);
    v.j.(pc := pc, cur := v.m.heads[b], pos := 0, h := v.j.h.(snap := v.p.chains[b], looked := |v.p.events|))
  }

  /** `ht->items[bucket] = entry`. */
  function Published(v: View): View
    requires Sized(v.m, v.p)
  {
    var b := Bucket(v.j.key);
    View(v.j.(pc := SUnlock),
         v.m.(heads := v.m.heads[b := To(v.j.item)]),
         Past(v.p.chains[b := [v.j.item] + v.p.chains[b]], v.p.events + [Created(v.j.item, v.j.key)]))
  }

  /** The request is answered with OK; the event is its effect. */
  function Answered(v: View, i: Item, e: Event): View {
    View(v.j.(pc := Done(Served), h := v.j.h.(at := |v.p.events|)),
         WithItem(v.m, v.j.item, i),
         v.p.(events := v.p.events + [e]))
  }

  /** In `get_key_entry`. */
  predicate InEntry(pc: Pc) {
    pc.SLock? || pc.SHead? || pc.SFirst? || pc.SWalk? || pc.SNew? || pc.SNext? || pc.SPublish? || pc.SUnlock?
  }

  /** In `set_request`, after `get_key_entry`. */
  predicate InStore(pc: Pc) {
    pc.STry? || pc.SAlloc? || pc.SCopy? || pc.SSize? || pc.SRelease?
  }

  predicate CanStep(w: nat, v: View, c: Choice) {
    Sized(v.m, v.p) && Safe(v.j, v.m) && Enabled(v, c)
  }

  function EntryStep(w: nat, v: View, c: Choice): View
    requires CanStep(w, v, c) && InEntry(v.j.pc)
  {
    var j := v.j;
    var m := v.m;
    var b := Bucket(j.key);
    match j.pc
    case SLock => v.(m := m.(mutex := m.mutex[b := To(w)]), j := j.(pc := SHead))
    case SHead => v.(j := j.(pc := SFirst, head := m.heads[b]))
    case SFirst => v.(j := AtHead(v, SWalk))
    case SWalk => v.(j := Walked(j, m, SUnlock, SNew))
    case SNew => v.(m := WithItem(m, c.id, Item(j.key, Null, [], 0, {}, Null)), j := j.(pc := SNext, item := c.id))
    case SNext => v.(m := WithItem(m, j.item, m.items[j.item].(next := j.head)), j := j.(pc := SPublish))
    case SPublish => Published(v)
    case SUnlock => v.(m := m.(mutex := m.mutex[b := Null]), j := j.(pc := STry))
  }

  function StoreStep(w: nat, v: View, c: Choice): View
    requires CanStep(w, v, c) && InStore(v.j.pc)
  {
    var j := v.j;
    var m := v.m;
    var i := m.items[j.item];
    match j.pc
    case STry =>
      if i.readers == {} && i.writer.Null? then v.(m := WithItem(m, j.item, i.(writer := To(w))), j := j.(pc := SAlloc))
      else v.(j := j.(pc := Done(Occupied)))
    case SAlloc => v.(m := WithItem(m, j.item, i.(value := c.bytes)), j := j.(pc := SCopy, pos := 0))
    case SCopy =>
      if j.pos < |j.msg| then
        v.(m := WithItem(m, j.item, i.(value := i.value[j.pos := j.msg[j.pos]])), j := j.(pos := j.pos + 1))
      else v.(j := j.(pc := SSize))
    case SSize => v.(m := WithItem(m, j.item, i.(size := |j.msg|)), j := j.(pc := SRelease))
    case SRelease => Answered(v, i.(writer := Null), Stored(j.item, j.key, j.msg, w))
  }

  /** `get_request`. */
  function FetchStep(w: nat, v: View, c: Choice): View
    requires CanStep(w, v, c) && !InEntry(v.j.pc) && !InStore(v.j.pc)
  {
    var j := v.j;
    var m := v.m;
    match j.pc
    case GFirst => v.(j := AtHead(v, GWalk))
    case GWalk => v.(j := Walked(j, m, GTry, Done(Missing)))
    case GTry =>
      var i := m.items[j.item];
      if i.writer.Null? then
        v.(m := WithItem(m, j.item, i.(readers := i.readers + {w})), j := j.(pc := GSize, h := j.h.(locked := |v.p.events|)))
      else v.(j := j.(pc := Done(Occupied)))
    case GSize => v.(j := j.(pc := GCopy, bound := m.items[j.item].size, pos := 0))
    case GCopy =>
      if j.pos < j.bound then
        v.(j := j.(buf := j.buf[j.pos := m.items[j.item].value[j.pos]], pos := j.pos + 1))
      else v.(j := j.(pc := GLen))
    case GLen => v.(j := j.(pc := GRelease, outLen := m.items[j.item].size))
    case GRelease =>
      var i := m.items[j.item];
      Answered(v, i.(readers := i.readers - {w}), Fetched(j.item, j.key, j.buf[..j.outLen], w))
  }

  /** One step of request w. */
  function Step(w: nat, v: View, c: Choice): View
    requires CanStep(w, v, c)
  {
    if InEntry(v.j.pc) then EntryStep(w, v, c)
    else if InStore(v.j.pc) then StoreStep(w, v, c)
    else FetchStep(w, v, c)
  }

  predicate Can(s: Store, a: Move)
    requires Sized(s.m, s.p)
  {
    match a
    case BeginSet(w, k, x) => w !in s.jobs && IsKey(k) && |x| <= MSG_SIZE
    case BeginGet(w, k) => w !in s.jobs && IsKey(k)
    case Go(w, c) => w in s.jobs && CanStep(w, View(s.jobs[w], s.m, s.p), c)
  }

  function Next(s: Store, a: Move): Store
    requires Sized(s.m, s.p) && Can(s, a)
  {
    match a
    case BeginSet(w, k, x) => s.(jobs := s.jobs[w := Fresh(SetOp, k, x, |s.p.events|)])
    case BeginGet(w, k) => s.(jobs := s.jobs[w := Fresh(GetOp, k, [], |s.p.events|)])
    case Go(w, c) =>
      var v := Step(w, View(s.jobs[w], s.m, s.p), c);
      Store(v.m, s.jobs[w := v.j], v.p)
  }

  // ---------- the register an item is meant to be ----------

  /** The value of an item after these events: the last one stored, or the empty message. */
  function Current(events: seq<Event>, id: nat): seq<Char> {
    if events == [] then []
    else
      var e := events[|events| - 1];
      if e.Stored? && e.id == id then e.v else Current(events[..|events| - 1], id)
  }

  /** Every fetch returned the item's value at that point. */
  ghost predicate ItemsAreRegisters(events: seq<Event>) {
    forall n :: 0 <= n < |events| && events[n].Fetched? ==> events[n].v == Current(events[..n], events[n].id)
  }
}
