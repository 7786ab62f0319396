/** When the store of bucket lists is a finite map. */
module MapRefinement {
  import opened CStrings
  import opened Hash
  import opened Messages
  import opened Buckets
  import opened BenchmarkKeys

  // ---------- the map the store is meant to be ----------

  /** A key's value and its lock word. */
  datatype Cell = Cell(value: seq<Char>, lock: RwLock)

  type KvMap = map<CString, Cell>

  datatype MapStep = MapStep(after: KvMap, reply: Response)

  datatype MapRun = MapRun(after: KvMap, replies: seq<Response>)

  /** SET creates or overwrites, unless the key is occupied; GET reads, unless it is being
      written; DEL removes, unless the key is occupied; RST forgets everything. */
  function MapProcess(m: KvMap, r: Request): MapStep {
    var refused := Response(KEY_ERROR, []);
    match r.op
    case SET =>
      if r.key in m && m[r.key].lock != Free then MapStep(m, refused)
      else MapStep(m[r.key := Cell(r.msg, Free)], Response(OK, []))
    case GET =>
      if r.key !in m || m[r.key].lock == Writer then MapStep(m, refused)
      else MapStep(m, Response(OK, m[r.key].value))
    case DEL =>
      if r.key !in m then MapStep(m, refused)
      else if m[r.key].lock != Free then
        MapStep(m[r.key := Cell(m[r.key].value, Unlock(m[r.key].lock))], refused)
      else MapStep(m - {r.key}, Response(OK, []))
    case RST => MapStep(map[], Response(OK, []))
    case _ => MapStep(m, CLEARED)
  }

  function RunMap(m: KvMap, rs: seq<Request>): (out: MapRun)
    ensures |out.replies| == |rs|
    decreases |rs|
  {
    if rs == [] then MapRun(m, [])
    else
      var first := MapProcess(m, rs[0]);
      var rest := RunMap(first.after, rs[1..]);
      MapRun(rest.after, [first.reply] + rest.replies)
  }

  // ---------- the abstraction ----------

  ghost predicate HasKey(l: Chain, k: CString) {
    exists i :: 0 <= i < |l| && l[i].key == k
  }

  predicate EntryIn(e: Entry, m: KvMap) {
    e.key in m && m[e.key] == Cell(e.value, e.lock)
  }

  /** The entries of bucket b are exactly the map's cells whose keys hash to b. */
  ghost predicate ChainRepresents(l: Chain, b: nat, m: KvMap) {
    && (forall i :: 0 <= i < |l| ==> EntryIn(l[i], m))
    && (forall k :: k in m && Bucket(k) == b ==> HasKey(l, k))
  }

  ghost predicate Represents(t: Table, m: KvMap) {
    |t| == CAPACITY && forall b :: 0 <= b < CAPACITY ==> ChainRepresents(t[b], b, m)
  }

  ghost predicate KeysIn(m: KvMap, keys: iset<CString>) {
    forall k :: k in m ==> k in keys
  }

  /** What a lookup on prefix-free keys does: it finds the query's own entry or nothing. */
  ghost predicate FindsOwn(l: Chain, m: KvMap, q: CString) {
    var i := Find(l, q);
    if q in m then i < |l| && l[i].key == q && m[q] == Cell(l[i].value, l[i].lock) else i == |l|
  }

  lemma LookupFindsOwn(l: Chain, m: KvMap, keys: iset<CString>, q: CString)
    requires ChainOk(l, Bucket(q)) && ChainRepresents(l, Bucket(q), m)
    requires KeysIn(m, keys) && PrefixFree(keys) && q in keys
    ensures FindsOwn(l, m, q)
  {
    var i := Find(l, q);
    if i < |l| {
      assert EntryIn(l[i], m) && Bucket(l[i].key) == Bucket(q);
      assert l[i].key in keys;
    }
    assert q in m ==> HasKey(l, q);
  }

  /** Changing one entry's value and lock changes its cell. */
  lemma UpdateEntry(l: Chain, m: KvMap, i: nat, e: Entry)
    requires i < |l| && ChainOk(l, Bucket(e.key)) && ChainRepresents(l, Bucket(e.key), m) && l[i].key == e.key
    ensures ChainRepresents(l[i := e], Bucket(e.key), m[e.key := Cell(e.value, e.lock)])
  {
    var after: Chain := l[i := e];
    var m' := m[e.key := Cell(e.value, e.lock)];
    forall j | 0 <= j < |after|
      ensures EntryIn(after[j], m')
    {
      if j != i {
        DistinctKeys(l, i, j);
        assert EntryIn(l[j], m);
      }
    }
    forall k | k in m' && Bucket(k) == Bucket(e.key)
      ensures HasKey(after, k)
    {
      assert EntryIn(l[i], m);
      assert HasKey(l, k);
      var j :| 0 <= j < |l| && l[j].key == k;
      assert after[j].key == k;
    }
  }

  lemma AddEntry(l: Chain, m: KvMap, e: Entry)
    requires ChainRepresents(l, Bucket(e.key), m) && e.key !in m
    ensures ChainRepresents([e] + l, Bucket(e.key), m[e.key := Cell(e.value, e.lock)])
  {
    var after: Chain := [e] + l;
    var m' := m[e.key := Cell(e.value, e.lock)];
    forall j | 0 <= j < |after|
      ensures EntryIn(after[j], m')
    {
      assert j > 0 ==> after[j] == l[j - 1] && EntryIn(l[j - 1], m);
    }
    forall k | k in m' && Bucket(k) == Bucket(e.key)
      ensures HasKey(after, k)
    {
      if k == e.key {
        assert after[0].key == k;
      } else {
        assert HasKey(l, k);
        var j :| 0 <= j < |l| && l[j].key == k;
        assert after[j + 1].key == k;
      }
    }
  }

  lemma RemovalKeepsEntries(l: Chain, m: KvMap, i: nat, j: nat)
    requires Ordered(l) && i < |l| && j < |l| && i != j && EntryIn(l[j], m)
    ensures EntryIn(l[j], m - {l[i].key})
  {
    DistinctKeys(l, i, j);
  }

  lemma RemovalKeepsKeys(l: Chain, i: nat, k: CString)
    requires i < |l| && HasKey(l, k) && k != l[i].key
    ensures HasKey(l[..i] + l[i + 1..], k)
  {
    var j :| 0 <= j < |l| && l[j].key == k;
    assert (l[..i] + l[i + 1..])[if j < i then j else j - 1] == l[j];
  }

  lemma RemoveEntry(l: Chain, m: KvMap, i: nat)
    requires i < |l| && ChainOk(l, Bucket(l[i].key)) && ChainRepresents(l, Bucket(l[i].key), m)
    ensures ChainRepresents(l[..i] + l[i + 1..], Bucket(l[i].key), m - {l[i].key})
  {
    var after: Chain := l[..i] + l[i + 1..];
    forall j | 0 <= j < |after|
      ensures EntryIn(after[j], m - {l[i].key})
    {
      RemovalKeepsEntries(l, m, i, if j < i then j else j + 1);
    }
    forall k | k in m - {l[i].key} && Bucket(k) == Bucket(l[i].key)
      ensures HasKey(after, k)
    {
      RemovalKeepsKeys(l, i, k);
    }
  }

  /** Buckets other than the one of q do not see a change of q's cell. */
  lemma OtherBuckets(t: Table, m: KvMap, q: CString, l: Chain, m': KvMap)
    requires TableOk(t) && Represents(t, m) && ChainRepresents(l, Bucket(q), m')
    requires m' - {q} == m - {q}
    ensures Represents(t[Bucket(q) := l], m')
  {
    forall b | 0 <= b < CAPACITY && b != Bucket(q)
      ensures ChainRepresents(t[b], b, m')
    {
      assert ChainOk(t[b], b) && ChainRepresents(t[b], b, m);
      SameBucketElsewhere(t[b], b, m, q, m');
    }
  }

  lemma SameBucketElsewhere(l: Chain, b: nat, m: KvMap, q: CString, m': KvMap)
    requires ChainOk(l, b) && ChainRepresents(l, b, m) && b != Bucket(q)
    requires m' - {q} == m - {q}
    ensures ChainRepresents(l, b, m')
  {
    assert forall k :: k != q && k in m' ==> k in m' - {q} && k in m - {q};
    forall i | 0 <= i < |l|
      ensures EntryIn(l[i], m')
    {
      assert EntryIn(l[i], m) && l[i].key != q;
      assert l[i].key in m - {q} && (m' - {q})[l[i].key] == (m - {q})[l[i].key];
    }
  }

  // ---------- one request ----------

  /** SET of a key that is there. */
  lemma SetPresentRefines(l: Chain, m: KvMap, q: CString, v: seq<Char>)
    requires ChainOk(l, Bucket(q)) && ChainRepresents(l, Bucket(q), m) && FindsOwn(l, m, q) && q in m
    ensures
      var step := SetInChain(l, q, v);
      if m[q].lock != Free then step == ChainStep(l, Response(KEY_ERROR, []))
      else step.reply == Response(OK, []) && ChainRepresents(step.chain, Bucket(q), m[q := Cell(v, Free)])
  {
    var i := Find(l, q);
    assert WithEntry(l, q) == l;
    if l[i].lock == Free {
      assert l[i].(value := v) == Entry(q, v, Free);
      UpdateEntry(l, m, i, Entry(q, v, Free));
    }
  }

  /** SET of a key that is not. */
  lemma SetMissingRefines(l: Chain, m: KvMap, q: CString, v: seq<Char>)
    requires ChainOk(l, Bucket(q)) && ChainRepresents(l, Bucket(q), m) && FindsOwn(l, m, q) && q !in m
    ensures
      var step := SetInChain(l, q, v);
      step.reply == Response(OK, []) && ChainRepresents(step.chain, Bucket(q), m[q := Cell(v, Free)])
  {
    AddEntry(l, m, Entry(q, v, Free));
    var found: Chain := [Entry(q, [], Free)] + l;
    assert Find(found, q) == 0;
    assert found[0 := found[0].(value := v)] == [Entry(q, v, Free)] + l;
  }

  lemma SetRefines(t: Table, m: KvMap, r: Request)
    requires r.op == SET
    requires TableOk(t) && Represents(t, m) && FindsOwn(t[Bucket(r.key)], m, r.key)
    ensures Represents(Process(t, r).table, MapProcess(m, r).after)
    ensures Process(t, r).reply == MapProcess(m, r).reply
  {
    var q, l := r.key, t[Bucket(r.key)];
    assert ChainOk(l, Bucket(q)) && ChainRepresents(l, Bucket(q), m);
    if q in m {
      SetPresentRefines(l, m, q, r.msg);
    } else {
      SetMissingRefines(l, m, q, r.msg);
    }
    OtherBuckets(t, m, q, SetInChain(l, q, r.msg).chain, MapProcess(m, r).after);
  }

  /** DEL of a free key removes it. */
  lemma DelFreeRefines(l: Chain, m: KvMap, q: CString)
    requires ChainOk(l, Bucket(q)) && ChainRepresents(l, Bucket(q), m) && FindsOwn(l, m, q) && q in m && m[q].lock == Free
    ensures var step := DelInChain(l, q); step.reply == Response(OK, []) && ChainRepresents(step.chain, Bucket(q), m - {q})
  {
    RemoveEntry(l, m, Find(l, q));
  }

  /** DEL of an occupied key is refused, with the key's lock word released. */
  lemma DelOccupiedRefines(l: Chain, m: KvMap, q: CString)
    requires ChainOk(l, Bucket(q)) && ChainRepresents(l, Bucket(q), m) && FindsOwn(l, m, q) && q in m && m[q].lock != Free
    ensures
      var step := DelInChain(l, q);
      && step.reply == Response(KEY_ERROR, [])
      && ChainRepresents(step.chain, Bucket(q), m[q := Cell(m[q].value, Unlock(m[q].lock))])
  {
    var i := Find(l, q);
    UpdateEntry(l, m, i, l[i].(lock := Unlock(l[i].lock)));
  }

  lemma DelRefines(t: Table, m: KvMap, r: Request)
    requires r.op == DEL
    requires TableOk(t) && Represents(t, m) && FindsOwn(t[Bucket(r.key)], m, r.key)
    ensures Represents(Process(t, r).table, MapProcess(m, r).after)
    ensures Process(t, r).reply == MapProcess(m, r).reply
  {
    var q, l := r.key, t[Bucket(r.key)];
    assert ChainOk(l, Bucket(q)) && ChainRepresents(l, Bucket(q), m);
    if q in m && m[q].lock == Free {
      DelFreeRefines(l, m, q);
    } else if q in m {
      DelOccupiedRefines(l, m, q);
    }
    OtherBuckets(t, m, q, DelInChain(l, q).chain, MapProcess(m, r).after);
  }

  /** Methods that do not change the table. */
  lemma OthersRefine(t: Table, m: KvMap, r: Request)
    requires r.op != SET && r.op != DEL
    requires TableOk(t) && Represents(t, m) && FindsOwn(t[Bucket(r.key)], m, r.key)
    ensures Represents(Process(t, r).table, MapProcess(m, r).after)
    ensures Process(t, r).reply == MapProcess(m, r).reply
  {
    if r.op == RST {
      assert forall b :: 0 <= b < CAPACITY ==> ChainRepresents(EmptyTable()[b], b, map[]);
    }
  }

  lemma MapKeepsKeys(m: KvMap, keys: iset<CString>, r: Request)
    requires KeysIn(m, keys) && r.key in keys
    ensures KeysIn(MapProcess(m, r).after, keys)
  {
  }

  lemma TableFindsOwn(t: Table, m: KvMap, keys: iset<CString>, q: CString)
    requires TableOk(t) && Represents(t, m) && KeysIn(m, keys) && PrefixFree(keys) && q in keys
    ensures FindsOwn(t[Bucket(q)], m, q)
  {
    assert ChainOk(t[Bucket(q)], Bucket(q)) && ChainRepresents(t[Bucket(q)], Bucket(q), m);
    LookupFindsOwn(t[Bucket(q)], m, keys, q);
  }

  /** One request against a table and against the map it represents: same reply, and the
      new table represents the new map. The entries' locks may be held by anyone. */
  lemma ProcessRefinesMap(t: Table, m: KvMap, keys: iset<CString>, r: Request)
    requires TableOk(t) && Represents(t, m) && KeysIn(m, keys) && PrefixFree(keys) && r.key in keys
    ensures Process(t, r).reply == MapProcess(m, r).reply
    ensures Represents(Process(t, r).table, MapProcess(m, r).after)
    ensures KeysIn(MapProcess(m, r).after, keys)
  {
    TableFindsOwn(t, m, keys, r.key);
    MapKeepsKeys(m, keys, r);
    if r.op == SET {
      SetRefines(t, m, r);
    } else if r.op == DEL {
      DelRefines(t, m, r);
    } else {
      OthersRefine(t, m, r);
    }
  }

  // ---------- whole runs ----------

  ghost predicate RequestsOn(rs: seq<Request>, keys: iset<CString>) {
    forall i :: 0 <= i < |rs| ==> WellFormed(rs[i]) && rs[i].key in keys
  }

  /** Every run on prefix-free keys, from any table: the replies are those of the map. */
  lemma {:induction false} RunRefinesMap(t: Table, m: KvMap, keys: iset<CString>, rs: seq<Request>)
    requires TableOk(t) && Represents(t, m) && KeysIn(m, keys) && PrefixFree(keys) && RequestsOn(rs, keys)
    ensures Run(t, rs).replies == RunMap(m, rs).replies
    ensures Represents(Run(t, rs).table, RunMap(m, rs).after)
    decreases |rs|
  {
    if rs != [] {
      ProcessRefinesMap(t, m, keys, rs[0]);
      ProcessKeepsOk(t, rs[0]);
      RunRefinesMap(Process(t, rs[0]).table, MapProcess(m, rs[0]).after, keys, rs[1..]);
    }
  }

  lemma EmptyRepresents()
    ensures TableOk(EmptyTable()) && Represents(EmptyTable(), map[])
  {
  }

  lemma EmptyRunIsMap(keys: iset<CString>, rs: seq<Request>)
    requires PrefixFree(keys) && RequestsOn(rs, keys)
    ensures Run(EmptyTable(), rs).replies == RunMap(map[], rs).replies
  {
    EmptyRepresents();
    RunRefinesMap(EmptyTable(), map[], keys, rs);
  }

  /** The store behaves as a map on these keys: every run from the empty table answers as
      the map does. */
  ghost predicate ActsAsMap(keys: iset<CString>) {
    forall rs :: RequestsOn(rs, keys) ==> Run(EmptyTable(), rs).replies == RunMap(map[], rs).replies
  }

  /** Storing an extension and asking for its prefix tells store and map apart. */
  lemma PrefixConfuses(a: CString, b: CString)
    requires IsKey(a) && IsKey(b) && a != b && a <= b && Bucket(a) == Bucket(b)
    ensures var rs := [Request(0, SET, b, []), Request(0, GET, a, [])];
            Run(EmptyTable(), rs).replies[1].code == OK && RunMap(map[], rs).replies[1].code == KEY_ERROR
  {
    var set1, get := Request(0, SET, b, []), Request(0, GET, a, []);
    var t1 := Process(EmptyTable(), set1).table;
    assert t1[Bucket(b)] == [Entry(b, [], Free)];
    assert Process(t1, get).reply.code == OK;
    RunOfTwo(EmptyTable(), map[], set1, get);
  }

  lemma RunOfTwo(t: Table, m: KvMap, r0: Request, r1: Request)
    requires |t| == CAPACITY
    ensures |Run(t, [r0, r1]).replies| == 2
    ensures Run(t, [r0, r1]).replies[1] == Process(Process(t, r0).table, r1).reply
    ensures |RunMap(m, [r0, r1]).replies| == 2
    ensures RunMap(m, [r0, r1]).replies[1] == MapProcess(MapProcess(m, r0).after, r1).reply
  {
    assert [r0, r1][1..] == [r1];
    assert Run(Process(t, r0).table, [r1]).replies == [Process(Process(t, r0).table, r1).reply];
    assert RunMap(MapProcess(m, r0).after, [r1]).replies == [MapProcess(MapProcess(m, r0).after, r1).reply];
  }

  /** The prefix-comparing store is a finite map on a set of keys if and only if no key is
      a proper prefix of another one of its bucket. */
  lemma ActsAsMapIff(keys: iset<CString>)
    requires forall k :: k in keys ==> IsKey(k)
    ensures ActsAsMap(keys) <==> PrefixFree(keys)
  {
    if PrefixFree(keys) {
      forall rs | RequestsOn(rs, keys)
        ensures Run(EmptyTable(), rs).replies == RunMap(map[], rs).replies
      {
        EmptyRepresents();
        RunRefinesMap(EmptyTable(), map[], keys, rs);
      }
    }
    forall a, b | ActsAsMap(keys) && a in keys && b in keys && a != b && Bucket(a) == Bucket(b)
      ensures !(a <= b)
    {
      var rs := [Request(0, SET, b, []), Request(0, GET, a, [])];
      assert RequestsOn(rs, keys);
      if a <= b {
        PrefixConfuses(a, b);
      }
    }
  }

  /** The benchmark's key-value operations behave as a map, whatever the instances and
      operations, if and only if no count exceeds 1078. */
  lemma BenchmarkActsAsMapIff(limit: int)
    ensures ActsAsMap(FittingKeys(limit)) <==> limit <= 1078
  {
    ActsAsMapIff(FittingKeys(limit));
    BenchmarkKeysPrefixFreeIff(limit);
  }
}
