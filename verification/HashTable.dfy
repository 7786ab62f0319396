/** The chained hash table of `hash.c` on the heap: doubly linked bucket lists with head
    insertion and in-place unlinking, refined to the lists of `Buckets`. */
module HashTables {
  import opened CStrings
  import opened Hash
  import opened Messages
  import opened Buckets

  class HashItem {
    var next: HashItem?
    var prev: HashItem?
    var key: CString
    var value: seq<Char>
    var lock: RwLock

    /** `calloc`: every field zero; the zero lock word is an unlocked one. */
    constructor Calloc()
      ensures next == null && prev == null && key == [] && value == [] && lock == Free
    {
      next, prev, key, value, lock := null, null, [], [], Free;
    }
  }

  /** A list from `head` through `ns`, ended by null, with prev and next mutually inverse,
      holding the entries `l`. */
  ghost predicate Linked(head: HashItem?, ns: seq<HashItem>, l: Chain)
    reads ns
  {
    && |ns| == |l|
    && head == (if |ns| == 0 then null else ns[0])
    && forall i :: 0 <= i < |ns| ==> LinkAt(ns, l, i)
  }

  ghost predicate LinkAt(ns: seq<HashItem>, l: Chain, i: nat)
    requires i < |ns| == |l|
    reads ns
  {
    && ns[i].next == (if i + 1 < |ns| then ns[i + 1] else null)
    && ns[i].prev == (if i > 0 then ns[i - 1] else null)
    && l[i] == Entry(ns[i].key, ns[i].value, ns[i].lock)
  }

  /** The walk of `search` over one list, comparing with strncmp. */
  method Walk(head: HashItem?, key: CString, ghost ns: seq<HashItem>, ghost l: Chain) returns (current: HashItem?)
    requires Linked(head, ns, l) && 0 !in key && forall i :: 0 <= i < |l| ==> 0 !in l[i].key
    ensures current == if Find(l, key) < |l| then ns[Find(l, key)] else null
  {
    current := head;
    ghost var i := 0;
    while current != null
      invariant 0 <= i <= |ns|
      invariant current == if i < |ns| then ns[i] else null
      invariant forall j :: 0 <= j < i ==> !(key <= l[j].key)
      decreases |ns| - i
    {
      assert LinkAt(ns, l, i);
      StrncmpIsPrefixTest(current.key, key);
      if StrncmpIsZero(current.key, key, |key|) {
        break;
      }
      current := current.next;
      i := i + 1;
    }
  }

  /** Links a fresh node before the head of one list, as `get_key_entry` does. */
  method PushFront(head: HashItem?, key: CString, ghost ns: seq<HashItem>, ghost l: Chain) returns (entry: HashItem)
    requires Linked(head, ns, l) && forall i :: 0 < i < |ns| ==> ns[i] != ns[0]
    modifies if head == null then {} else {head}
    ensures fresh(entry) && Linked(entry, [entry] + ns, [Entry(key, [], Free)] + l)
  {
    entry := new HashItem.Calloc();
    entry.key := key;
    if head != null {
      head.prev := entry;
      entry.next := head;
    }
    ghost var after, entries := [entry] + ns, [Entry(key, [], Free)] + l;
    forall i | 0 < i < |after|
      ensures after[i] == ns[i - 1] && entries[i] == l[i - 1]
      ensures LinkAt(after, entries, i)
    {
      assert old(LinkAt(ns, l, i - 1));
    }
    assert LinkAt(after, entries, 0);
  }

  /** Unlinks the node at position i, as `remove_item` does, and empties it. */
  method Unlink(head: HashItem?, item: HashItem, ghost i: nat, ghost ns: seq<HashItem>, ghost l: Chain)
    returns (newHead: HashItem?)
    requires Linked(head, ns, l) && i < |ns| && ns[i] == item
    requires forall j, k :: 0 <= j < k < |ns| ==> ns[j] != ns[k]
    modifies ns
    ensures Linked(newHead, ns[..i] + ns[i + 1..], l[..i] + l[i + 1..])
  {
    assert LinkAt(ns, l, i);
    item.value := [];
    item.key := [];
    if item.next != null {
      item.next.prev := item.prev;
    }
    if item.prev != null {
      item.prev.next := item.next;
    }
    newHead := head;
    if item == head {
      newHead := item.next;
    }
    ghost var ns' := ns[..i] + ns[i + 1..];
    ghost var l' := l[..i] + l[i + 1..];
    forall j | 0 <= j < |ns'|
      ensures LinkAt(ns', l', j)
    {
      var was := if j < i then j else j + 1;
      assert ns'[j] == ns[was] && l'[j] == l[was];
      assert old(LinkAt(ns, l, was));
    }
  }

  ghost predicate Within(ns: seq<HashItem>, repr: set<object>) {
    forall n :: n in ns ==> n in repr
  }

  lemma SameTable(t: Table, b: nat, i: nat)
    requires b < |t| && i < |t[b]|
    ensures t[b := t[b][i := t[b][i]]] == t
  {
    assert t[b][i := t[b][i]] == t[b];
  }

  class HashTable {
    var items: array<HashItem?>
    var locks: array<bool>

    /** The nodes of each bucket, head first, and the entries they hold. */
    ghost var nodes: seq<seq<HashItem>>
    ghost var table: Table

    /** The buckets whose mutex is held. */
    ghost var held: set<nat>
    ghost var Repr: set<object>

    ghost predicate Valid()
      reads this, Repr
    {
      Shape() && forall b :: 0 <= b < CAPACITY ==> Linked(items[b], nodes[b], table[b])
    }

    ghost predicate Shape()
      reads this, Repr
    {
      && items in Repr && locks in Repr && this !in Repr
      && items.Length == locks.Length == |nodes| == CAPACITY
      && TableOk(table)
      && (forall b :: 0 <= b < CAPACITY ==> Within(nodes[b], Repr))
      && (forall b :: 0 <= b < CAPACITY ==> (locks[b] <==> b in held))
    }

    /** Every list but that of one bucket is in order. */
    ghost predicate ValidBut(bucket: nat)
      reads this, Repr
    {
      Shape() && forall b :: 0 <= b < CAPACITY && b != bucket ==> Linked(items[b], nodes[b], table[b])
    }

    /** A node belongs to one bucket, at one position. */
    lemma OneNodeOnePlace(b: nat, i: nat, c: nat, j: nat)
      requires Valid() && b < CAPACITY && c < CAPACITY && i < |nodes[b]| && j < |nodes[c]|
      requires b != c || i != j
      ensures nodes[b][i] != nodes[c][j]
    {
      assert Linked(items[b], nodes[b], table[b]) && Linked(items[c], nodes[c], table[c]);
      assert ChainOk(table[b], b) && ChainOk(table[c], c);
      assert LinkAt(nodes[b], table[b], i) && LinkAt(nodes[c], table[c], j);
      if b == c {
        DistinctKeys(table[b], i, j);
      }
    }

    /** The nodes of one bucket are distinct, and no other bucket has them. */
    lemma BucketsApart(b: nat)
      requires Valid() && b < CAPACITY
      ensures forall i, j :: 0 <= i < j < |nodes[b]| ==> nodes[b][i] != nodes[b][j]
      ensures forall c, n :: 0 <= c < CAPACITY && c != b && n in nodes[c] ==> n !in nodes[b]
    {
      forall i, j | 0 <= i < j < |nodes[b]|
        ensures nodes[b][i] != nodes[b][j]
      {
        OneNodeOnePlace(b, i, b, j);
      }
      forall c, n | 0 <= c < CAPACITY && c != b && n in nodes[c]
        ensures n !in nodes[b]
      {
        var j :| 0 <= j < |nodes[c]| && nodes[c][j] == n;
        forall i | 0 <= i < |nodes[b]|
          ensures nodes[b][i] != n
        {
          OneNodeOnePlace(b, i, c, j);
        }
      }
    }

    /** `init_hashtable`. */
    constructor ()
      ensures Valid() && fresh(Repr) && table == EmptyTable() && held == {}
    {
      items := new HashItem?[CAPACITY](_ => null);
      locks := new bool[CAPACITY](_ => false);
      nodes := seq(CAPACITY, _ => []);
      table, held := EmptyTable(), {};
      new;
      Repr := {items, locks};
    }

    /** `search`. */
    method Search(key: CString) returns (current: HashItem?)
      requires Valid() && IsKey(key)
      ensures var b, i := Bucket(key), Find(table[Bucket(key)], key);
              current == if i < |nodes[b]| then nodes[b][i] else null
    {
      var hash := ComputeHash(key);
      var bucket := hash % CAPACITY;
      assert Linked(items[bucket], nodes[bucket], table[bucket]) && ChainOk(table[bucket], bucket);
      current := Walk(items[bucket], key, nodes[bucket], table[bucket]);
    }

    /** Makes a list the one of a bucket. */
    method Install(bucket: nat, head: HashItem?, ghost ns: seq<HashItem>, ghost l: Chain)
      requires ValidBut(bucket) && bucket < CAPACITY && ChainOk(l, bucket) && Linked(head, ns, l)
      modifies this, items
      ensures Valid() && Repr == old(Repr) + (set n | n in ns) && held == old(held)
      ensures table == old(table)[bucket := l] && nodes == old(nodes)[bucket := ns]
    {
      items[bucket] := head;
      nodes := nodes[bucket := ns];
      table := table[bucket := l];
      Repr := Repr + (set n | n in ns);
    }

    /** The pointer writes of `get_key_entry` for a missing key, but for the new head. */
    method PushInto(bucket: nat, key: CString) returns (entry: HashItem)
      requires Valid() && bucket < CAPACITY
      modifies Repr - {items, locks}
      ensures ValidBut(bucket) && fresh(entry)
      ensures Linked(entry, [entry] + nodes[bucket], [Entry(key, [], Free)] + table[bucket])
    {
      assert Linked(items[bucket], nodes[bucket], table[bucket]);
      BucketsApart(bucket);
      ghost var head := items[bucket];
      assert head != null ==> head in nodes[bucket];
      entry := PushFront(items[bucket], key, nodes[bucket], table[bucket]);
      forall b | 0 <= b < CAPACITY && b != bucket
        ensures Linked(items[b], nodes[b], table[b])
      {
        assert old(Linked(items[b], nodes[b], table[b]));
        assert forall n :: n in nodes[b] ==> n !in nodes[bucket];
        assert forall n :: n in nodes[b] ==> n != head;
        assert forall n :: n in nodes[b] ==> unchanged(n);
      }
    }

    /** The pointer writes of `remove_item`, but for the new head. */
    method UnlinkFrom(bucket: nat, item: HashItem, ghost i: nat) returns (head: HashItem?)
      requires Valid() && bucket < CAPACITY && i < |nodes[bucket]| && item == nodes[bucket][i]
      modifies Repr - {items, locks}
      ensures ValidBut(bucket)
      ensures Linked(head, nodes[bucket][..i] + nodes[bucket][i + 1..], table[bucket][..i] + table[bucket][i + 1..])
    {
      assert Linked(items[bucket], nodes[bucket], table[bucket]);
      BucketsApart(bucket);
      head := Unlink(items[bucket], item, i, nodes[bucket], table[bucket]);
      forall b | 0 <= b < CAPACITY && b != bucket
        ensures Linked(items[b], nodes[b], table[b])
      {
        assert old(Linked(items[b], nodes[b], table[b]));
        forall j | 0 <= j < |nodes[b]|
          ensures LinkAt(nodes[b], table[b], j)
        {
          assert old(LinkAt(nodes[b], table[b], j));
          assert nodes[b][j] in nodes[b] && nodes[b][j] !in nodes[bucket];
        }
      }
    }

    /** `pthread_mutex_lock` on a bucket; taking it twice would block for ever. */
    method LockBucket(bucket: nat)
      requires Valid() && bucket < CAPACITY && bucket !in held
      modifies this`held, locks
      ensures Valid() && held == old(held) + {bucket}
    {
      locks[bucket] := true;
      held := held + {bucket};
      forall b | 0 <= b < CAPACITY
        ensures Linked(items[b], nodes[b], table[b])
      {
        assert old(Linked(items[b], nodes[b], table[b]));
      }
    }

    method UnlockBucket(bucket: nat)
      requires Valid() && bucket < CAPACITY && bucket in held
      modifies this`held, locks
      ensures Valid() && held == old(held) - {bucket}
    {
      locks[bucket] := false;
      held := held - {bucket};
      forall b | 0 <= b < CAPACITY
        ensures Linked(items[b], nodes[b], table[b])
      {
        assert old(Linked(items[b], nodes[b], table[b]));
      }
    }

    /** Puts a new entry at the head of its bucket, whose mutex is held. */
    method InsertHead(bucket: nat, key: CString) returns (entry: HashItem)
      requires Valid() && IsKey(key) && bucket == Bucket(key) && bucket in held
      requires Find(table[bucket], key) == |table[bucket]|
      modifies this, Repr
      ensures Valid() && fresh(Repr - old(Repr)) && held == old(held)
      ensures table == old(table)[bucket := [Entry(key, [], Free)] + old(table)[bucket]]
      ensures nodes == old(nodes)[bucket := [entry] + old(nodes)[bucket]]
    {
      assert ChainOk(table[bucket], bucket);
      WithEntryKeepsOk(table[bucket], key);
      entry := PushInto(bucket, key);
      Install(bucket, entry, [entry] + nodes[bucket], [Entry(key, [], Free)] + table[bucket]);
    }

    /** What `get_key_entry` does while it holds the bucket's mutex. */
    method FindOrInsert(bucket: nat, key: CString) returns (entry: HashItem)
      requires Valid() && IsKey(key) && bucket == Bucket(key) && bucket in held
      modifies this, Repr
      ensures Valid() && fresh(Repr - old(Repr)) && held == old(held)
      ensures table == old(table)[bucket := WithEntry(old(table)[bucket], key)]
      ensures Find(table[bucket], key) < |nodes[bucket]| && entry == nodes[bucket][Find(table[bucket], key)]
    {
      var found := Search(key);
      assert Linked(items[bucket], nodes[bucket], table[bucket]);
      if found == null {
        entry := InsertHead(bucket, key);
        assert Find(table[bucket], key) == 0;
      } else {
        entry := found;
        assert old(table)[bucket := WithEntry(old(table)[bucket], key)] == old(table);
      }
    }

    /** `get_key_entry`: finds the key's entry or creates one at the head of its bucket,
        under the bucket's mutex, which every path releases. */
    method GetKeyEntry(key: CString) returns (entry: HashItem)
      requires Valid() && IsKey(key) && held == {}
      modifies this, Repr
      ensures Valid() && fresh(Repr - old(Repr)) && held == {}
      ensures table == old(table)[Bucket(key) := WithEntry(old(table)[Bucket(key)], key)]
      ensures var i := Find(table[Bucket(key)], key);
              i < |nodes[Bucket(key)]| && entry == nodes[Bucket(key)][i]
    {
      var hash := ComputeHash(key);
      var bucket := hash % CAPACITY;
      LockBucket(bucket);
      entry := FindOrInsert(bucket, key);
      UnlockBucket(bucket);
    }

    /** After such writes: the table whose entry i of this bucket is the node's. */
    ghost method Relabel(bucket: nat, i: nat, e: Entry)
      requires ValidBut(bucket) && bucket < CAPACITY && i < |table[bucket]| && |e.value| <= MSG_SIZE
      requires e.key == table[bucket][i].key
      requires Linked(items[bucket], nodes[bucket], table[bucket][i := e])
      modifies this`table
      ensures Valid() && table == old(table)[bucket := old(table)[bucket][i := e]]
    {
      assert ChainOk(table[bucket], bucket);
      EntryKeepsOk(table[bucket], bucket, i, e);
      table := table[bucket := table[bucket][i := e]];
    }

    /** Writes the value and lock word of the item at position i. */
    method WriteItem(ghost bucket: nat, item: HashItem, ghost i: nat, value: seq<Char>, lock: RwLock)
      requires Valid() && bucket < CAPACITY && i < |nodes[bucket]| == |table[bucket]| && item == nodes[bucket][i]
      requires |value| <= MSG_SIZE
      modifies this`table, item
      ensures Valid()
      ensures table == old(table)[bucket := old(table)[bucket][i := Entry(old(table)[bucket][i].key, value, lock)]]
    {
      BucketsApart(bucket);
      ghost var l := table[bucket][i := Entry(table[bucket][i].key, value, lock)];
      assert Linked(items[bucket], nodes[bucket], table[bucket]);
      item.value := value;
      item.lock := lock;
      forall b | 0 <= b < CAPACITY && b != bucket
        ensures Linked(items[b], nodes[b], table[b])
      {
        assert old(Linked(items[b], nodes[b], table[b]));
        forall j | 0 <= j < |nodes[b]|
          ensures LinkAt(nodes[b], table[b], j)
        {
          assert old(LinkAt(nodes[b], table[b], j));
          assert nodes[b][j] in nodes[b] && nodes[b][j] !in nodes[bucket];
        }
      }
      forall j | 0 <= j < |l|
        ensures LinkAt(nodes[bucket], l, j)
      {
        assert old(LinkAt(nodes[bucket], table[bucket], j));
        assert nodes[bucket][j] in nodes[bucket];
        assert j != i ==> nodes[bucket][j] != item;
      }
      Relabel(bucket, i, l[i]);
    }

    /** `pthread_rwlock_trywrlock` on the item at position i. */
    method TryWriteLock(ghost bucket: nat, item: HashItem, ghost i: nat) returns (ok: bool)
      requires Valid() && bucket < CAPACITY && i < |nodes[bucket]| == |table[bucket]| && item == nodes[bucket][i]
      modifies this`table, item
      ensures Valid() && ok == (old(table)[bucket][i].lock == Free)
      ensures !ok ==> table == old(table)
      ensures var was := old(table)[bucket][i];
              table == old(table)[bucket := old(table)[bucket][i := was.(lock := if ok then Writer else was.lock)]]
    {
      NodeHoldsEntry(bucket, i);
      ok := item.lock == Free;
      if ok {
        WriteItem(bucket, item, i, item.value, Writer);
      } else {
        SameTable(table, bucket, i);
      }
    }

    /** `pthread_rwlock_tryrdlock` on the item at position i; undone by one unlock. */
    method TryReadLock(ghost bucket: nat, item: HashItem, ghost i: nat) returns (ok: bool)
      requires Valid() && bucket < CAPACITY && i < |nodes[bucket]| == |table[bucket]| && item == nodes[bucket][i]
      modifies this`table, item
      ensures Valid() && ok == (old(table)[bucket][i].lock != Writer)
      ensures var was, now := old(table)[bucket][i], table[bucket][i];
              && now == was.(lock := now.lock)
              && (if ok then now.lock.Readers? && Unlock(now.lock) == was.lock else now == was)
      ensures !ok ==> table == old(table)
      ensures table == old(table)[bucket := old(table)[bucket][i := table[bucket][i]]]
    {
      NodeHoldsEntry(bucket, i);
      ok := item.lock != Writer;
      if ok {
        WriteItem(bucket, item, i, item.value, if item.lock == Free then Readers(0) else Readers(item.lock.others + 1));
      } else {
        SameTable(table, bucket, i);
      }
    }

    /** `pthread_rwlock_unlock` on the item at position i, whoever holds it. */
    method ReleaseLock(ghost bucket: nat, item: HashItem, ghost i: nat)
      requires Valid() && bucket < CAPACITY && i < |nodes[bucket]| == |table[bucket]| && item == nodes[bucket][i]
      modifies this`table, item
      ensures Valid()
      ensures var was := old(table)[bucket][i];
              table == old(table)[bucket := old(table)[bucket][i := was.(lock := Unlock(was.lock))]]
    {
      NodeHoldsEntry(bucket, i);
      WriteItem(bucket, item, i, item.value, Unlock(item.lock));
    }

    /** Overwrites the value of the item at position i, whose write lock is held. */
    method StoreValue(ghost bucket: nat, item: HashItem, ghost i: nat, value: seq<Char>)
      requires Valid() && bucket < CAPACITY && i < |nodes[bucket]| == |table[bucket]| && item == nodes[bucket][i]
      requires |value| <= MSG_SIZE && table[bucket][i].lock == Writer
      modifies this`table, item
      ensures Valid()
      ensures table == old(table)[bucket := old(table)[bucket][i := old(table)[bucket][i].(value := value)]]
    {
      NodeHoldsEntry(bucket, i);
      WriteItem(bucket, item, i, value, item.lock);
    }

    /** Copies the value of the item at position i, whose read lock is held. */
    method ReadValue(ghost bucket: nat, item: HashItem, ghost i: nat) returns (value: seq<Char>)
      requires Valid() && bucket < CAPACITY && i < |nodes[bucket]| == |table[bucket]| && item == nodes[bucket][i]
      requires table[bucket][i].lock.Readers?
      ensures value == table[bucket][i].value
    {
      NodeHoldsEntry(bucket, i);
      value := item.value;
    }

    lemma BucketHoldsChain(bucket: nat)
      requires Valid() && bucket < CAPACITY
      ensures |nodes[bucket]| == |table[bucket]|
    {
      assert Linked(items[bucket], nodes[bucket], table[bucket]);
    }

    lemma NodeHoldsEntry(bucket: nat, i: nat)
      requires Valid() && bucket < CAPACITY && i < |nodes[bucket]| == |table[bucket]|
      ensures var n := nodes[bucket][i]; table[bucket][i] == Entry(n.key, n.value, n.lock) && n in Repr
      ensures |nodes[bucket][i].value| <= MSG_SIZE
    {
      assert Linked(items[bucket], nodes[bucket], table[bucket]) && LinkAt(nodes[bucket], table[bucket], i);
      assert ChainOk(table[bucket], bucket) && Within(nodes[bucket], Repr);
      assert nodes[bucket][i] in nodes[bucket];
    }

    /** `remove_item`: an occupied item is left in place but its lock word is released. */
    method RemoveItem(key: CString) returns (ret: int)
      requires Valid() && IsKey(key) && held == {}
      modifies this, Repr
      ensures Valid() && fresh(Repr - old(Repr)) && held == {}
      ensures var step := DelInChain(old(table)[Bucket(key)], key);
              table == old(table)[Bucket(key) := step.chain] && ret == (if step.reply.code == OK then 0 else -1)
    {
      var hash := ComputeHash(key);
      var bucket := hash % CAPACITY;
      LockBucket(bucket);
      ret := RemoveLocked(bucket, key);
      UnlockBucket(bucket);
    }

    /** What `remove_item` does while it holds the bucket's mutex. */
    method RemoveLocked(bucket: nat, key: CString) returns (ret: int)
      requires Valid() && IsKey(key) && bucket == Bucket(key) && bucket in held
      modifies this, Repr
      ensures Valid() && fresh(Repr - old(Repr)) && held == old(held)
      ensures var step := DelInChain(old(table)[bucket], key);
              table == old(table)[bucket := step.chain] && ret == (if step.reply.code == OK then 0 else -1)
    {
      var item := Search(key);
      ghost var i, l := Find(table[bucket], key), table[bucket];
      assert Linked(items[bucket], nodes[bucket], l);
      if item == null {
        assert table[bucket := l] == table;
        return -1;
      }
      NodeHoldsEntry(bucket, i);
      var got := TryWriteLock(bucket, item, i);
      if !got {
        ReleaseLock(bucket, item, i);
        assert table[bucket] == DelInChain(l, key).chain;
        ret := -1;
      } else {
        Drop(bucket, item, i);
        assert table[bucket] == DelInChain(l, key).chain;
        ret := 0;
      }
    }

    /** Takes an item whose write lock is held out of its list, whose mutex is held. */
    method Drop(bucket: nat, item: HashItem, ghost i: nat)
      requires Valid() && bucket < CAPACITY && i < |nodes[bucket]| == |table[bucket]| && item == nodes[bucket][i]
      requires bucket in held && table[bucket][i].lock == Writer
      modifies this, Repr
      ensures Valid() && Repr == old(Repr) && held == old(held)
      ensures table == old(table)[bucket := old(table)[bucket][..i] + old(table)[bucket][i + 1..]]
    {
      assert Linked(items[bucket], nodes[bucket], table[bucket]) && ChainOk(table[bucket], bucket);
      RemovalKeepsOk(table[bucket], bucket, i);
      var head := UnlinkFrom(bucket, item, i);
      ghost var ns := nodes[bucket][..i] + nodes[bucket][i + 1..];
      assert forall n :: n in ns ==> n in nodes[bucket];
      assert Within(nodes[bucket], Repr);
      Install(bucket, head, ns, table[bucket][..i] + table[bucket][i + 1..]);
    }
  }
}
