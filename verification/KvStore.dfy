/** The request handlers of `kvstore.c` over the heap table, proved against the list
    specification: same reply, same table, for every well-formed request and every state of
    the entries' locks. */
module KvStores {
  import opened CStrings
  import opened Hash
  import opened Messages
  import opened Buckets
  import opened BenchmarkKeys
  import opened HashTables
  import opened MapRefinement
  import opened StoreMeaning

  class KvStore {
    var ht: HashTable

    ghost predicate Valid()
      reads this, ht, ht.Repr
    {
      this !in ht.Repr && ht.Valid() && ht.held == {}
    }

    ghost function Table(): Buckets.Table
      reads this, ht
    {
      ht.table
    }

    constructor ()
      ensures Valid() && fresh(ht) && fresh(ht.Repr) && Table() == EmptyTable()
    {
      ht := new HashTable();
    }

    /** The second half of `set_request`: overwrite the item, unless it is occupied. */
    method Overwrite(ghost b: nat, item: HashItem, ghost i: nat, msg: seq<Char>) returns (resp: Response)
      requires Valid() && b < CAPACITY && i < |ht.nodes[b]| == |ht.table[b]| && item == ht.nodes[b][i]
      requires |msg| <= MSG_SIZE
      modifies ht`table, item
      ensures Valid()
      ensures var was := old(ht.table)[b][i];
              if was.lock == Free then
                resp == Response(OK, []) && ht.table == old(ht.table)[b := old(ht.table)[b][i := was.(value := msg)]]
              else
                resp == Response(KEY_ERROR, []) && ht.table == old(ht.table)
    {
      resp := CLEARED;
      ht.NodeHoldsEntry(b, i);
      var got := ht.TryWriteLock(b, item, i);
      if !got {
        resp := resp.(code := KEY_ERROR);
        return;
      }
      ht.StoreValue(b, item, i, msg);
      resp := resp.(code := OK);
      ht.ReleaseLock(b, item, i);
      ghost var was := old(ht.table)[b][i];
      assert ht.table[b] == old(ht.table)[b][i := was.(value := msg)];
      assert ht.table == old(ht.table)[b := ht.table[b]];
    }

    /** The second half of `get_request`: copy the value, unless it is being written. */
    method CopyOut(ghost b: nat, item: HashItem, ghost i: nat) returns (resp: Response)
      requires Valid() && b < CAPACITY && i < |ht.nodes[b]| == |ht.table[b]| && item == ht.nodes[b][i]
      modifies ht`table, item
      ensures Valid() && ht.table == old(ht.table)
      ensures var was := ht.table[b][i];
              resp == if was.lock == Writer then Response(KEY_ERROR, []) else Response(OK, was.value)
    {
      resp := CLEARED;
      ht.NodeHoldsEntry(b, i);
      var got := ht.TryReadLock(b, item, i);
      if !got {
        resp := resp.(code := KEY_ERROR);
        return;
      }
      var value := ht.ReadValue(b, item, i);
      resp := Response(OK, value);
      ht.ReleaseLock(b, item, i);
      assert ht.table[b] == old(ht.table)[b];
    }

    method SetRequest(r: Request) returns (resp: Response)
      requires Valid() && WellFormed(r) && r.op == SET
      modifies ht, ht.Repr
      ensures Valid() && ht == old(ht) && fresh(ht.Repr - old(ht.Repr))
      ensures Process(old(Table()), r) == TableStep(Table(), resp)
    {
      var item := ht.GetKeyEntry(r.key);
      ghost var b := Bucket(r.key);
      ghost var i := Find(ht.table[b], r.key);
      ht.BucketHoldsChain(b);
      ht.NodeHoldsEntry(b, i);
      resp := Overwrite(b, item, i, r.msg);
      SetByParts(old(Table()), r, Table());
    }

    /** Creating the entry and then overwriting it is what SET specifies. */
    lemma SetByParts(before: Buckets.Table, r: Request, after: Buckets.Table)
      requires |before| == CAPACITY && r.op == SET
      requires var b := Bucket(r.key); var l := WithEntry(before[b], r.key); var i := Find(l, r.key);
               after == before[b := l][b := if l[i].lock == Free then l[i := l[i].(value := r.msg)] else l]
      ensures var b := Bucket(r.key); var l := WithEntry(before[b], r.key);
              Process(before, r) ==
              TableStep(after, Response(if l[Find(l, r.key)].lock == Free then OK else KEY_ERROR, []))
    {
    }

    method GetRequest(r: Request) returns (resp: Response)
      requires Valid() && WellFormed(r) && r.op == GET
      modifies ht, ht.Repr
      ensures Valid() && ht == old(ht) && ht.Repr == old(ht.Repr)
      ensures Process(old(Table()), r) == TableStep(Table(), resp)
    {
      var item := ht.Search(r.key);
      ghost var b := Bucket(r.key);
      ghost var i := Find(ht.table[b], r.key);
      ht.BucketHoldsChain(b);
      if item == null {
        resp := CLEARED.(code := KEY_ERROR);
        return;
      }
      ht.NodeHoldsEntry(b, i);
      resp := CopyOut(b, item, i);
    }

    method DelRequest(r: Request) returns (resp: Response)
      requires Valid() && WellFormed(r) && r.op == DEL
      modifies ht, ht.Repr
      ensures Valid() && ht == old(ht) && fresh(ht.Repr - old(ht.Repr))
      ensures Process(old(Table()), r) == TableStep(Table(), resp)
    {
      resp := CLEARED;
      var ret := ht.RemoveItem(r.key);
      if ret < 0 {
        resp := resp.(code := KEY_ERROR);
        return;
      }
      resp := resp.(code := OK);
    }

    /** RST: `init_hashtable` makes a new table; the old one is not consulted again. */
    method ResetRequest() returns (resp: Response)
      modifies this
      ensures Valid() && fresh(ht) && fresh(ht.Repr)
      ensures Table() == EmptyTable() && resp == Response(OK, [])
    {
      ht := new HashTable();
      resp := Response(OK, []);
    }

    /** The switch of `main_job` on a cleared response. */
    method Handle(r: Request) returns (resp: Response)
      requires Valid() && WellFormed(r)
      modifies this, ht, ht.Repr
      ensures Valid() && fresh(ht.Repr - old(ht.Repr)) && (ht == old(ht) || fresh(ht))
      ensures Process(old(Table()), r) == TableStep(Table(), resp)
    {
      resp := CLEARED;
      match r.op
      case SET => resp := SetRequest(r);
      case GET => resp := GetRequest(r);
      case DEL => resp := DelRequest(r);
      case RST => resp := ResetRequest();
      case _ =>
    }

    /** A run of the linked table: request after request, as `main_job` serves them. The replies
        are those of the lists; from an empty table, those the requests call for, whatever their
        keys, and on prefix-free keys those of a map. */
    method Serve(rs: seq<Request>) returns (replies: seq<Response>)
      requires Valid() && forall i :: 0 <= i < |rs| ==> WellFormed(rs[i])
      modifies this, ht, ht.Repr
      ensures Valid() && TableRun(Table(), replies) == Run(old(Table()), rs)
      ensures old(Table()) == EmptyTable() ==>
                |replies| == |rs| && forall i :: 0 <= i < |rs| ==> replies[i] == Answer(rs[..i], rs[i])
      ensures old(Table()) == EmptyTable() ==>
                forall keys :: PrefixFree(keys) && RequestsOn(rs, keys) ==> replies == RunMap(map[], rs).replies
    {
      replies := [];
      ghost var start := Table();
      var i := 0;
      while i < |rs|
        invariant 0 <= i <= |rs| && Valid()
        invariant (ht == old(ht) || fresh(ht)) && fresh(ht.Repr - old(ht.Repr))
        invariant TableRun(Table(), replies) == Run(start, rs[..i])
      {
        var reply := Handle(rs[i]);
        RunAppend(start, rs[..i], rs[i]);
        assert rs[..i] + [rs[i]] == rs[..i + 1];
        replies := replies + [reply];
        i := i + 1;
      }
      assert rs[..i] == rs;
      RunTells(rs);
      forall keys | start == EmptyTable() && PrefixFree(keys) && RequestsOn(rs, keys)
        ensures replies == RunMap(map[], rs).replies
      {
        EmptyRunIsMap(keys, rs);
      }
    }
  }
}
