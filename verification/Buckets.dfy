/** The store as lists of entries, one list per bucket, newest entry first: the
    specification of `hash.c` and of the request handlers of `kvstore.c`. Lookups compare
    prefixes, and an entry's read-write lock may be held by another worker. */
module Buckets {
  import opened CStrings
  import opened Hash
  import opened Messages

  /** A read-write lock; `Readers(n)` is held by n + 1 readers. */
  datatype RwLock = Free | Readers(others: nat) | Writer

  /** What `pthread_rwlock_unlock` does to the lock word, whoever calls it. */
  function Unlock(l: RwLock): RwLock {
    match l
    case Readers(n) => if n == 0 then Free else Readers(n - 1)
    case _ => Free
  }

  datatype Entry = Entry(key: CString, value: seq<Char>, lock: RwLock)

  type Chain = seq<Entry>

  type Table = seq<Chain>

  /** The list, table or replies an operation leaves behind. */
  datatype ChainStep = ChainStep(chain: Chain, reply: Response)

  datatype TableStep = TableStep(table: Table, reply: Response)

  datatype TableRun = TableRun(table: Table, replies: seq<Response>)

  /** `search`: the first entry whose key starts with the query, or the length of the list. */
  function Find(l: Chain, q: CString): (r: nat)
    ensures r <= |l|
    ensures r < |l| ==> q <= l[r].key
    ensures forall j :: 0 <= j < r ==> !(q <= l[j].key)
  {
    if l == [] || q <= l[0].key then 0 else 1 + Find(l[1..], q)
  }

  /** `get_key_entry`: a missing key is put at the head of its bucket, with no value. */
  function WithEntry(l: Chain, q: CString): (r: Chain)
    ensures Find(r, q) < |r|
  {
    if Find(l, q) < |l| then l else [Entry(q, [], Free)] + l
  }

  function SetInChain(l: Chain, q: CString, v: seq<Char>): ChainStep {
    var found := WithEntry(l, q);
    var i := Find(found, q);
    if found[i].lock == Free then
      ChainStep(found[i := found[i].(value := v)], Response(OK, []))
    else
      ChainStep(found, Response(KEY_ERROR, []))
  }

  function GetInChain(l: Chain, q: CString): Response {
    var i := Find(l, q);
    if i == |l| || l[i].lock == Writer then Response(KEY_ERROR, []) else Response(OK, l[i].value)
  }

  /** A failed try-lock is answered by an unlock: the lock word of an occupied entry changes. */
  function DelInChain(l: Chain, q: CString): ChainStep {
    var i := Find(l, q);
    if i == |l| then
      ChainStep(l, Response(KEY_ERROR, []))
    else if l[i].lock != Free then
      ChainStep(l[i := l[i].(lock := Unlock(l[i].lock))], Response(KEY_ERROR, []))
    else
      ChainStep(l[..i] + l[i + 1..], Response(OK, []))
  }

  /** `init_hashtable`: all buckets empty. */
  function EmptyTable(): (t: Table)
    ensures |t| == CAPACITY
    ensures forall b :: 0 <= b < CAPACITY ==> t[b] == []
  {
    seq(CAPACITY, b => [])
  }

  /** One request against the whole table; other methods leave it alone and answer with a
      cleared response. */
  function Process(t: Table, r: Request): TableStep
    requires |t| == CAPACITY
  {
    var b := Bucket(r.key);
    match r.op
    case SET =>
      var step := SetInChain(t[b], r.key, r.msg);
      TableStep(t[b := step.chain], step.reply)
    case GET => TableStep(t, GetInChain(t[b], r.key))
    case DEL =>
      var step := DelInChain(t[b], r.key);
      TableStep(t[b := step.chain], step.reply)
    case RST => TableStep(EmptyTable(), Response(OK, []))
    case _ => TableStep(t, CLEARED)
  }

  // ---------- invariants of every reachable table ----------

  /** No entry nearer the head is a prefix of an entry further back; keys are distinct. */
  ghost predicate Ordered(l: Chain) {
    forall i, j :: 0 <= i < j < |l| ==> !(l[i].key <= l[j].key)
  }

  ghost predicate ChainOk(l: Chain, b: nat) {
    && Ordered(l)
    && forall i :: 0 <= i < |l| ==> IsKey(l[i].key) && Bucket(l[i].key) == b && |l[i].value| <= MSG_SIZE
  }

  ghost predicate TableOk(t: Table) {
    |t| == CAPACITY && forall b :: 0 <= b < CAPACITY ==> ChainOk(t[b], b)
  }

  lemma DistinctKeys(l: Chain, i: nat, j: nat)
    requires Ordered(l) && i < |l| && j < |l| && i != j
    ensures l[i].key != l[j].key
  {
    if i < j {
      assert !(l[i].key <= l[j].key);
    } else {
      assert !(l[j].key <= l[i].key);
    }
  }

  lemma WithEntryKeepsOk(l: Chain, q: CString)
    requires IsKey(q) && ChainOk(l, Bucket(q))
    ensures ChainOk(WithEntry(l, q), Bucket(q))
  {
    if Find(l, q) == |l| {
      HeadKeepsOk(l, Entry(q, [], Free));
    }
  }

  lemma HeadKeepsOk(l: Chain, e: Entry)
    requires ChainOk(l, Bucket(e.key)) && IsKey(e.key) && |e.value| <= MSG_SIZE
    requires forall j :: 0 <= j < |l| ==> !(e.key <= l[j].key)
    ensures ChainOk([e] + l, Bucket(e.key))
  {
    var after: Chain := [e] + l;
    assert forall j :: 0 < j < |after| ==> after[j] == l[j - 1];
    forall i, j | 0 <= i < j < |after|
      ensures !(after[i].key <= after[j].key)
    {
      assert i > 0 ==> !(l[i - 1].key <= l[j - 1].key);
    }
  }

  lemma EntryKeepsOk(l: Chain, b: nat, i: nat, e: Entry)
    requires ChainOk(l, b) && i < |l| && e.key == l[i].key && |e.value| <= MSG_SIZE
    ensures ChainOk(l[i := e], b)
  {
    var after := l[i := e];
    assert forall j :: 0 <= j < |l| ==> after[j].key == l[j].key;
  }

  lemma RemovalKeepsOk(l: Chain, b: nat, i: nat)
    requires ChainOk(l, b) && i < |l|
    ensures ChainOk(l[..i] + l[i + 1..], b)
  {
    var after := l[..i] + l[i + 1..];
    assert forall j :: 0 <= j < |after| ==> after[j] == l[if j < i then j else j + 1];
  }

  lemma SetKeepsOk(l: Chain, q: CString, v: seq<Char>)
    requires IsKey(q) && ChainOk(l, Bucket(q)) && |v| <= MSG_SIZE
    ensures ChainOk(SetInChain(l, q, v).chain, Bucket(q))
  {
    WithEntryKeepsOk(l, q);
    var found := WithEntry(l, q);
    var i := Find(found, q);
    EntryKeepsOk(found, Bucket(q), i, found[i].(value := v));
  }

  lemma DelKeepsOk(l: Chain, q: CString, b: nat)
    requires ChainOk(l, b)
    ensures ChainOk(DelInChain(l, q).chain, b)
  {
    var i := Find(l, q);
    if i < |l| {
      if l[i].lock != Free {
        EntryKeepsOk(l, b, i, l[i].(lock := Unlock(l[i].lock)));
      } else {
        RemovalKeepsOk(l, b, i);
      }
    }
  }

  /** Every request keeps the bucket order, with no hypothesis on which keys are used. */
  lemma ProcessKeepsOk(t: Table, r: Request)
    requires TableOk(t) && WellFormed(r)
    ensures TableOk(Process(t, r).table)
  {
    var b := Bucket(r.key);
    if r.op == SET {
      SetKeepsOk(t[b], r.key, r.msg);
    } else if r.op == DEL {
      DelKeepsOk(t[b], r.key, b);
    }
  }

  /** Tables and responses along a sequence of requests. */
  function Run(t: Table, rs: seq<Request>): (out: TableRun)
    requires |t| == CAPACITY
    ensures |out.table| == CAPACITY && |out.replies| == |rs|
    decreases |rs|
  {
    if rs == [] then TableRun(t, [])
    else
      var first := Process(t, rs[0]);
      var rest := Run(first.table, rs[1..]);
      TableRun(rest.table, [first.reply] + rest.replies)
  }

  lemma {:induction false} RunAppend(t: Table, rs: seq<Request>, r: Request)
    requires |t| == CAPACITY
    ensures
      var before, step := Run(t, rs), Process(Run(t, rs).table, r);
      Run(t, rs + [r]) == TableRun(step.table, before.replies + [step.reply])
    decreases |rs|
  {
    if rs == [] {
      assert [] + [r] == [r] && [r][1..] == [];
    } else {
      RunAppend(Process(t, rs[0]).table, rs[1..], r);
      assert (rs + [r])[1..] == rs[1..] + [r];
    }
  }

  /** In every reachable table no item nearer the head has a key that is a prefix of a key
      further back, so the keys of a bucket are distinct. */
  lemma {:induction false} ReachableTablesAreOk(t: Table, rs: seq<Request>)
    requires TableOk(t) && forall i :: 0 <= i < |rs| ==> WellFormed(rs[i])
    ensures TableOk(Run(t, rs).table)
    decreases |rs|
  {
    if rs != [] {
      ProcessKeepsOk(t, rs[0]);
      ReachableTablesAreOk(Process(t, rs[0]).table, rs[1..]);
    }
  }

  // ---------- when the prefix lookup is an exact one ----------

  /** The lookup found the entry of this very key, or there is none to find. */
  ghost predicate LookupExact(l: Chain, q: CString) {
    var i := Find(l, q);
    if i < |l| then l[i].key == q else forall j :: 0 <= j < |l| ==> l[j].key != q
  }

  /** In a reachable bucket the lookup is exact if and only if no entry's key properly
      extends the query, wherever that entry sits. */
  lemma LookupExactIff(l: Chain, q: CString)
    requires Ordered(l)
    ensures LookupExact(l, q) <==> forall j :: 0 <= j < |l| && q <= l[j].key ==> l[j].key == q
  {
    var i := Find(l, q);
    if LookupExact(l, q) {
      forall j | 0 <= j < |l| && q <= l[j].key
        ensures l[j].key == q
      {
        assert i <= j;
        assert l[i].key <= l[j].key;
      }
    }
  }

  // ---------- occupied entries ----------

  /** An entry that is being written is not read, and an entry in any use is neither written nor
      removed; a free one is served. */
  lemma OccupiedIsRefused(l: Chain, q: CString, x: seq<Char>)
    requires Find(l, q) < |l|
    ensures
      var e := l[Find(l, q)];
      && (GetInChain(l, q) == if e.lock == Writer then Response(KEY_ERROR, []) else Response(OK, e.value))
      && (e.lock != Free ==> SetInChain(l, q, x) == ChainStep(l, Response(KEY_ERROR, [])))
      && (e.lock != Free ==> DelInChain(l, q).reply == Response(KEY_ERROR, []) && |DelInChain(l, q).chain| == |l|)
      && (e.lock == Free ==> SetInChain(l, q, x).reply.code == OK && DelInChain(l, q).reply.code == OK)
  {
  }

  // ---------- what a refused DEL does ----------

  /** A refused DEL should leave everything as it was. It does if and only if its lookup finds
      no entry, or a free one: it releases the lock of an occupied entry, held by another. */
  lemma RefusedDelChangesIff(l: Chain, q: CString)
    requires DelInChain(l, q).reply.code == KEY_ERROR
    ensures DelInChain(l, q).chain != l <==> Find(l, q) < |l| && l[Find(l, q)].lock != Free
  {
    var i := Find(l, q);
    if i < |l| {
      assert l[i := l[i].(lock := Unlock(l[i].lock))][i].lock == Unlock(l[i].lock);
    }
  }

  /** Exclusion is lost: while k is being written SET is refused, but after a refused DEL the
      same SET overwrites the entry under the writer. */
  lemma RefusedDelLosesExclusion(k: CString, v: seq<Char>, u: seq<Char>)
    ensures
      var l := [Entry(k, v, Writer)];
      var afterDel := DelInChain(l, k);
      && SetInChain(l, k, u) == ChainStep(l, Response(KEY_ERROR, []))
      && afterDel == ChainStep([Entry(k, v, Free)], Response(KEY_ERROR, []))
      && SetInChain(afterDel.chain, k, u) == ChainStep([Entry(k, u, Free)], Response(OK, []))
  {
    var l := [Entry(k, v, Writer)];
    assert Find(l, k) == 0 && Find([Entry(k, v, Free)], k) == 0;
    assert l[0 := Entry(k, v, Free)] == [Entry(k, v, Free)];
    assert [Entry(k, v, Free)][0 := Entry(k, u, Free)] == [Entry(k, u, Free)];
  }
}
