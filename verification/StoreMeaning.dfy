/** What a sequence of requests means, whatever their keys, told from the requests alone: which
    keys are stored, which of them a request meets, and which message it holds. The lists of
    the buckets answer exactly so. */
module StoreMeaning {
  import opened CStrings
  import opened Hash
  import opened Messages
  import opened Buckets

  // ---------- the meaning ----------

  /** The key a query meets among these, newest first: the newest one of its bucket that extends
      it. Its place, or their number if there is none. */
  function Met(live: seq<CString>, q: CString): (r: nat)
    ensures r <= |live|
    ensures r < |live| ==> Bucket(live[r]) == Bucket(q) && q <= live[r]
    ensures forall j :: 0 <= j < r ==> !(Bucket(live[j]) == Bucket(q) && q <= live[j])
  {
    if live == [] || (Bucket(live[0]) == Bucket(q) && q <= live[0]) then 0 else 1 + Met(live[1..], q)
  }

  /** The keys stored after these requests, newest first. A SET stores a key if it meets none,
      a DEL removes the one it meets. */
  function Live(rs: seq<Request>): seq<CString> {
    if rs == [] then []
    else
      var live, r := Live(rs[..|rs| - 1]), rs[|rs| - 1];
      var i := Met(live, r.key);
      match r.op
      case SET => if i == |live| then [r.key] + live else live
      case DEL => if i == |live| then live else live[..i] + live[i + 1..]
      case RST => []
      case _ => live
  }

  /** The key a SET writes to: the one it meets, or its own. */
  function Target(live: seq<CString>, q: CString): CString {
    var i := Met(live, q);
    if i < |live| then live[i] else q
  }

  /** The message a stored key holds after these requests: that of the last SET that wrote to
      it. */
  function Holds(rs: seq<Request>, k: CString): seq<Char> {
    if rs == [] then []
    else
      var before, r := rs[..|rs| - 1], rs[|rs| - 1];
      if r.op == SET && Target(Live(before), r.key) == k then r.msg else Holds(before, k)
  }

  /** The answer to r after these requests. */
  function Answer(rs: seq<Request>, r: Request): Response {
    var live := Live(rs);
    var i := Met(live, r.key);
    match r.op
    case SET => Response(OK, [])
    case GET => if i == |live| then Response(KEY_ERROR, []) else Response(OK, Holds(rs, live[i]))
    case DEL => if i == |live| then Response(KEY_ERROR, []) else Response(OK, [])
    case RST => Response(OK, [])
    case _ => CLEARED
  }

  // ---------- the keys of one bucket ----------

  function KeysOf(live: seq<CString>, b: nat): (ks: seq<CString>)
    ensures forall k :: k in ks ==> k in live && Bucket(k) == b
  {
    if live == [] then [] else (if Bucket(live[0]) == b then [live[0]] else []) + KeysOf(live[1..], b)
  }

  lemma {:induction false} KeysOfConcat(a: seq<CString>, c: seq<CString>, b: nat)
    ensures KeysOf(a + c, b) == KeysOf(a, b) + KeysOf(c, b)
    decreases |a|
  {
    if a == [] {
      assert a + c == c;
    } else {
      assert (a + c)[1..] == a[1..] + c;
      KeysOfConcat(a[1..], c, b);
    }
  }

  lemma KeysOfSplit(live: seq<CString>, i: nat, b: nat)
    requires i < |live| && Bucket(live[i]) == b
    ensures KeysOf(live, b) == KeysOf(live[..i], b) + [live[i]] + KeysOf(live[i + 1..], b)
  {
    assert live == live[..i] + live[i..] && live[i..][1..] == live[i + 1..];
    KeysOfConcat(live[..i], live[i..], b);
  }

  lemma KeysOfSkip(live: seq<CString>, i: nat, b: nat)
    requires i < |live| && Bucket(live[i]) != b
    ensures KeysOf(live[..i] + live[i + 1..], b) == KeysOf(live, b)
  {
    assert live == live[..i] + live[i..] && live[i..][1..] == live[i + 1..];
    KeysOfConcat(live[..i], live[i..], b);
    KeysOfConcat(live[..i], live[i + 1..], b);
  }

  ghost predicate Distinct(live: seq<CString>) {
    forall i, j :: 0 <= i < j < |live| ==> live[i] != live[j]
  }

  lemma {:induction false} LiveIsDistinct(rs: seq<Request>)
    ensures Distinct(Live(rs))
    decreases |rs|
  {
    if rs != [] {
      LiveIsDistinct(rs[..|rs| - 1]);
    }
  }

  // ---------- the lists tell the meaning ----------

  /** These entries are those of these keys. */
  ghost predicate EntriesOf(l: Chain, ks: seq<CString>, rs: seq<Request>) {
    |l| == |ks| && forall j :: 0 <= j < |l| ==> l[j] == Entry(ks[j], Holds(rs, ks[j]), Free)
  }

  ghost predicate ChainTells(l: Chain, rs: seq<Request>, b: nat) {
    EntriesOf(l, KeysOf(Live(rs), b), rs)
  }

  ghost predicate Tells(t: Table, rs: seq<Request>) {
    |t| == CAPACITY && forall b :: 0 <= b < CAPACITY ==> ChainTells(t[b], rs, b)
  }

  /** The walk of the query's bucket finds the key the query meets. */
  lemma FindIsMet(l: Chain, rs: seq<Request>, q: CString)
    requires ChainTells(l, rs, Bucket(q))
    ensures
      var live, i := Live(rs), Met(Live(rs), q);
      if i == |live| then Find(l, q) == |l|
      else Find(l, q) == |KeysOf(live[..i], Bucket(q))| < |l| && l[Find(l, q)] == Entry(live[i], Holds(rs, live[i]), Free)
  {
    var live, b := Live(rs), Bucket(q);
    var i, ks := Met(live, q), KeysOf(live, b);
    if i < |live| {
      KeysOfSplit(live, i, b);
      var p := |KeysOf(live[..i], b)|;
      assert ks[p] == live[i];
      forall j | 0 <= j < p
        ensures !(q <= l[j].key)
      {
        assert ks[j] == KeysOf(live[..i], b)[j] && ks[j] in live[..i];
      }
    } else {
      forall j | 0 <= j < |l|
        ensures !(q <= l[j].key)
      {
        assert ks[j] in ks;
      }
    }
  }

  lemma AppendedLast(rs: seq<Request>, r: Request)
    ensures (rs + [r])[..|rs + [r]| - 1] == rs
  {
  }

  /** Requests that write to no stored key leave the other messages alone. */
  lemma HoldsOther(rs: seq<Request>, r: Request, k: CString)
    requires r.op == SET ==> Target(Live(rs), r.key) != k
    ensures Holds(rs + [r], k) == Holds(rs, k)
  {
    AppendedLast(rs, r);
  }

  lemma SetTells(l: Chain, rs: seq<Request>, r: Request, b: nat)
    requires r.op == SET && ChainTells(l, rs, b)
    ensures ChainTells(if b == Bucket(r.key) then SetInChain(l, r.key, r.msg).chain else l, rs + [r], b)
    ensures b == Bucket(r.key) ==> SetInChain(l, r.key, r.msg).reply == Response(OK, [])
  {
    AppendedLast(rs, r);
    LiveIsDistinct(rs);
    if b != Bucket(r.key) {
      SetElsewhere(l, rs, r, b);
    } else {
      FindIsMet(l, rs, r.key);
      if Met(Live(rs), r.key) == |Live(rs)| {
        SetNew(l, rs, r);
      } else {
        SetOld(l, rs, r);
      }
    }
  }

  lemma SetElsewhere(l: Chain, rs: seq<Request>, r: Request, b: nat)
    requires r.op == SET && ChainTells(l, rs, b) && b != Bucket(r.key)
    ensures ChainTells(l, rs + [r], b)
  {
    AppendedLast(rs, r);
    var live := Live(rs);
    assert KeysOf(Live(rs + [r]), b) == KeysOf(live, b) by {
      assert ([r.key] + live)[1..] == live;
    }
    forall j | 0 <= j < |l|
      ensures Holds(rs + [r], l[j].key) == Holds(rs, l[j].key)
    {
      assert KeysOf(live, b)[j] in KeysOf(live, b);
      HoldsOther(rs, r, l[j].key);
    }
  }

  lemma SetNewLive(rs: seq<Request>, r: Request)
    requires r.op == SET && Met(Live(rs), r.key) == |Live(rs)|
    ensures KeysOf(Live(rs + [r]), Bucket(r.key)) == [r.key] + KeysOf(Live(rs), Bucket(r.key))
    ensures Holds(rs + [r], r.key) == r.msg
  {
    AppendedLast(rs, r);
    assert ([r.key] + Live(rs))[1..] == Live(rs);
  }

  lemma SetNewChain(l: Chain, q: CString, x: seq<Char>)
    requires Find(l, q) == |l|
    ensures SetInChain(l, q, x) == ChainStep([Entry(q, x, Free)] + l, Response(OK, []))
  {
    var found: Chain := [Entry(q, [], Free)] + l;
    assert Find(found, q) == 0;
    assert found[0 := found[0].(value := x)] == [Entry(q, x, Free)] + l;
  }

  lemma SetNew(l: Chain, rs: seq<Request>, r: Request)
    requires r.op == SET && ChainTells(l, rs, Bucket(r.key)) && Met(Live(rs), r.key) == |Live(rs)| && Find(l, r.key) == |l|
    ensures ChainTells(SetInChain(l, r.key, r.msg).chain, rs + [r], Bucket(r.key))
    ensures SetInChain(l, r.key, r.msg).reply == Response(OK, [])
  {
    SetNewChain(l, r.key, r.msg);
    SetNewLive(rs, r);
    var ks := KeysOf(Live(rs), Bucket(r.key));
    forall j | 0 <= j < |ks|
      ensures Holds(rs + [r], ks[j]) == Holds(rs, ks[j])
    {
      assert ks[j] in ks;
      HoldsOther(rs, r, ks[j]);
    }
  }

  lemma SetOld(l: Chain, rs: seq<Request>, r: Request)
    requires r.op == SET && ChainTells(l, rs, Bucket(r.key)) && Met(Live(rs), r.key) < |Live(rs)| && Distinct(Live(rs))
    ensures ChainTells(SetInChain(l, r.key, r.msg).chain, rs + [r], Bucket(r.key))
    ensures SetInChain(l, r.key, r.msg).reply == Response(OK, [])
  {
    AppendedLast(rs, r);
    FindIsMet(l, rs, r.key);
    var live, q, b := Live(rs), r.key, Bucket(r.key);
    var p, ks := Find(l, q), KeysOf(live, b);
    assert WithEntry(l, q) == l && Live(rs + [r]) == live;
    var after := SetInChain(l, q, r.msg).chain;
    assert after == l[p := l[p].(value := r.msg)];
    DistinctKeysOf(live, b);
    forall j | 0 <= j < |after|
      ensures after[j] == Entry(ks[j], Holds(rs + [r], ks[j]), Free)
    {
      if j != p {
        assert ks[j] != ks[p];
        HoldsOther(rs, r, ks[j]);
      }
    }
  }

  lemma {:induction false} DistinctKeysOf(live: seq<CString>, b: nat)
    requires Distinct(live)
    ensures Distinct(KeysOf(live, b))
    decreases |live|
  {
    if live != [] {
      assert Distinct(live[1..]);
      DistinctKeysOf(live[1..], b);
      if Bucket(live[0]) == b {
        assert live[0] !in live[1..];
        assert forall j :: 0 <= j < |KeysOf(live[1..], b)| ==> KeysOf(live[1..], b)[j] in KeysOf(live[1..], b);
      }
    }
  }

  lemma DelLive(rs: seq<Request>, r: Request)
    requires r.op == DEL
    ensures
      var live, i := Live(rs), Met(Live(rs), r.key);
      Live(rs + [r]) == if i == |live| then live else live[..i] + live[i + 1..]
  {
    AppendedLast(rs, r);
  }

  lemma WithoutOne(ks: seq<CString>, a: seq<CString>, k: CString, c: seq<CString>)
    requires ks == a + [k] + c
    ensures ks[..|a|] + ks[|a| + 1..] == a + c
  {
  }

  lemma KeysOfRemoval(live: seq<CString>, i: nat, b: nat)
    requires i < |live| && Bucket(live[i]) == b
    ensures
      var ks, p := KeysOf(live, b), |KeysOf(live[..i], b)|;
      p < |ks| && KeysOf(live[..i] + live[i + 1..], b) == ks[..p] + ks[p + 1..]
  {
    KeysOfSplit(live, i, b);
    KeysOfConcat(live[..i], live[i + 1..], b);
    WithoutOne(KeysOf(live, b), KeysOf(live[..i], b), live[i], KeysOf(live[i + 1..], b));
  }

  lemma WithoutOneEntry(l: Chain, ks: seq<CString>, rs: seq<Request>, p: nat)
    requires EntriesOf(l, ks, rs) && p < |l|
    ensures EntriesOf(l[..p] + l[p + 1..], ks[..p] + ks[p + 1..], rs)
  {
    var after, now := l[..p] + l[p + 1..], ks[..p] + ks[p + 1..];
    forall j | 0 <= j < |after|
      ensures after[j] == Entry(now[j], Holds(rs, now[j]), Free)
    {
      var was := if j < p then j else j + 1;
      assert after[j] == l[was] && now[j] == ks[was];
    }
  }

  lemma EntriesStay(l: Chain, ks: seq<CString>, rs: seq<Request>, r: Request)
    requires EntriesOf(l, ks, rs) && r.op != SET
    ensures EntriesOf(l, ks, rs + [r])
  {
    forall j | 0 <= j < |l|
      ensures l[j] == Entry(ks[j], Holds(rs + [r], ks[j]), Free)
    {
      HoldsOther(rs, r, ks[j]);
    }
  }

  lemma KeysAfterDel(rs: seq<Request>, r: Request)
    requires r.op == DEL && Met(Live(rs), r.key) < |Live(rs)|
    ensures
      var live, b := Live(rs), Bucket(r.key);
      var ks, p := KeysOf(live, b), |KeysOf(live[..Met(live, r.key)], b)|;
      p < |ks| && KeysOf(Live(rs + [r]), b) == ks[..p] + ks[p + 1..]
  {
    DelLive(rs, r);
    var live := Live(rs);
    var i := Met(live, r.key);
    assert Live(rs + [r]) == live[..i] + live[i + 1..];
    KeysOfRemoval(live, i, Bucket(r.key));
  }

  lemma DelFound(l: Chain, rs: seq<Request>, r: Request)
    requires r.op == DEL && ChainTells(l, rs, Bucket(r.key)) && Met(Live(rs), r.key) < |Live(rs)|
    ensures DelInChain(l, r.key).reply == Response(OK, [])
    ensures ChainTells(DelInChain(l, r.key).chain, rs + [r], Bucket(r.key))
  {
    FindIsMet(l, rs, r.key);
    KeysAfterDel(rs, r);
    var p, ks := Find(l, r.key), KeysOf(Live(rs), Bucket(r.key));
    WithoutOneEntry(l, ks, rs, p);
    EntriesStay(l[..p] + l[p + 1..], ks[..p] + ks[p + 1..], rs, r);
  }

  lemma DelTells(l: Chain, rs: seq<Request>, r: Request, b: nat)
    requires r.op == DEL && ChainTells(l, rs, b)
    ensures ChainTells(if b == Bucket(r.key) then DelInChain(l, r.key).chain else l, rs + [r], b)
    ensures b == Bucket(r.key) ==> DelInChain(l, r.key).reply == Answer(rs, r)
  {
    var live, i := Live(rs), Met(Live(rs), r.key);
    DelLive(rs, r);
    EntriesStay(l, KeysOf(live, b), rs, r);
    if i == |live| {
      if b == Bucket(r.key) {
        FindIsMet(l, rs, r.key);
      }
    } else if b == Bucket(r.key) {
      DelFound(l, rs, r);
    } else {
      KeysOfSkip(live, i, b);
    }
  }

  lemma OthersTell(l: Chain, rs: seq<Request>, r: Request, b: nat)
    requires r.op != SET && r.op != DEL && r.op != RST && ChainTells(l, rs, b)
    ensures ChainTells(l, rs + [r], b)
  {
    AppendedLast(rs, r);
    EntriesStay(l, KeysOf(Live(rs), b), rs, r);
  }

  lemma ChainStaysTold(t: Table, rs: seq<Request>, r: Request, b: nat)
    requires Tells(t, rs) && b < CAPACITY
    ensures ChainTells(Process(t, r).table[b], rs + [r], b)
  {
    assert ChainTells(t[b], rs, b);
    match r.op
    case SET => SetTells(t[b], rs, r, b);
    case DEL => DelTells(t[b], rs, r, b);
    case RST => AppendedLast(rs, r);
    case _ => OthersTell(t[b], rs, r, b);
  }

  lemma ReplyIsAnswer(t: Table, rs: seq<Request>, r: Request)
    requires Tells(t, rs)
    ensures Process(t, r).reply == Answer(rs, r)
  {
    var b := Bucket(r.key);
    assert ChainTells(t[b], rs, b);
    match r.op
    case SET => SetTells(t[b], rs, r, b);
    case DEL => DelTells(t[b], rs, r, b);
    case GET => FindIsMet(t[b], rs, r.key);
    case _ =>
  }

  lemma RequestTells(t: Table, rs: seq<Request>, r: Request)
    requires Tells(t, rs)
    ensures Tells(Process(t, r).table, rs + [r]) && Process(t, r).reply == Answer(rs, r)
  {
    ReplyIsAnswer(t, rs, r);
    forall b | 0 <= b < CAPACITY
      ensures ChainTells(Process(t, r).table[b], rs + [r], b)
    {
      ChainStaysTold(t, rs, r, b);
    }
  }

  /** Every run from an empty table, with no hypothesis on keys: its table tells which keys are
      stored and what they hold, and each reply is the answer its requests call for. */
  lemma {:induction false} RunTells(rs: seq<Request>)
    ensures Tells(Run(EmptyTable(), rs).table, rs)
    ensures forall i :: 0 <= i < |rs| ==> Run(EmptyTable(), rs).replies[i] == Answer(rs[..i], rs[i])
    decreases |rs|
  {
    if rs != [] {
      var n := |rs| - 1;
      var before, r := rs[..n], rs[n];
      RunTells(before);
      assert rs == before + [r];
      RunAppend(EmptyTable(), before, r);
      RequestTells(Run(EmptyTable(), before).table, before, r);
      assert forall i :: 0 <= i < n ==> rs[..i] == before[..i] && rs[i] == before[i];
    }
  }

  /** Whatever the table, the keys and the locks: a GET right after an OK SET of the same key
      returns that SET's message. */
  lemma ReadYourWrite(t: Table, q: CString, x: seq<Char>, set1: Request, get: Request)
    requires |t| == CAPACITY && set1.op == SET && set1.key == q && set1.msg == x && get.op == GET && get.key == q
    requires Process(t, set1).reply.code == OK
    ensures Process(Process(t, set1).table, get).reply == Response(OK, x)
  {
    var l := t[Bucket(q)];
    var found := WithEntry(l, q);
    var i := Find(found, q);
    var after := found[i := found[i].(value := x)];
    SameFind(found, after, q);
  }

  lemma {:induction false} SameFind(l: Chain, k: Chain, q: CString)
    requires |l| == |k| && forall j :: 0 <= j < |l| ==> l[j].key == k[j].key
    ensures Find(l, q) == Find(k, q)
    decreases |l|
  {
    if l != [] && !(q <= l[0].key) {
      SameFind(l[1..], k[1..], q);
    }
  }
}
