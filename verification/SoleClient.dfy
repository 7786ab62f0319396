/** What a client reads back over a reliable connection when nobody else uses the store:
    the protocol and the store composed. */
module SoleClient {
  import opened CStrings
  import opened Hash
  import opened Messages
  import opened Buckets
  import opened BenchmarkKeys
  import opened MapRefinement
  import opened RcProtocol

  /** Nobody else uses the store: the i-th request met the table left by those before it. */
  ghost predicate Undisturbed(steps: seq<Step>) {
    forall i :: 0 <= i < |Tables(steps)| && i <= |Requests(steps)| ==>
      Tables(steps)[i] == Run(EmptyTable(), Requests(steps)[..i]).table
  }

  /** The i-th reply of a run is made on the table left by the requests before it. */
  lemma {:induction false} ReplyAt(t: Table, rs: seq<Request>, i: nat)
    requires |t| == CAPACITY && i < |rs|
    ensures Run(t, rs).replies[i] == Process(Run(t, rs[..i]).table, rs[i]).reply
    decreases |rs|
  {
    if i > 0 {
      ReplyAt(Process(t, rs[0]).table, rs[1..], i - 1);
      assert rs[..i][1..] == rs[1..][..i - 1];
    }
  }

  /** A client alone with the store, over any schedule of programs, cards and wire: on
      prefix-free keys, what it reads back is what a finite map would have answered to the
      requests it made. */
  lemma SoleClientSeesMap(s: State, steps: seq<Step>, t: State, keys: iset<CString>)
    requires Init(s) && Reaches(s, steps, t) && Undisturbed(steps)
    requires PrefixFree(keys) && forall i :: 0 <= i < |Requests(steps)| ==> Requests(steps)[i].key in keys
    ensures |t.h.got| <= |t.h.asked| <= |Requests(steps)| <= |t.h.asked| + 1
    ensures forall k :: 0 <= k < |t.h.got| ==> t.h.got[k] == RunMap(map[], Requests(steps)[..|t.h.asked|]).replies[k]
  {
    EndToEnd(s, steps, t);
    var rs := Requests(steps)[..|t.h.asked|];
    assert forall i :: 0 <= i < |rs| ==> rs[i] == Requests(steps)[i];
    EmptyRunIsMap(keys, rs);
    forall k | 0 <= k < |t.h.got|
      ensures t.h.got[k] == RunMap(map[], rs).replies[k]
    {
      ReplyInTurn(steps, rs, k);
    }
  }

  lemma ReplyInTurn(steps: seq<Step>, rs: seq<Request>, k: nat)
    requires Undisturbed(steps) && k < |Tables(steps)| && k < |rs| <= |Requests(steps)| && rs == Requests(steps)[..|rs|]
    ensures |Tables(steps)[k]| == CAPACITY
    ensures Process(Tables(steps)[k], Requests(steps)[k]).reply == Run(EmptyTable(), rs).replies[k]
  {
    ReplyAt(EmptyTable(), rs, k);
    assert rs[..k] == Requests(steps)[..k];
  }

  /** In particular for the benchmark's keys with counts up to 1078. */
  lemma BenchmarkClientSeesMap(s: State, steps: seq<Step>, t: State)
    requires Init(s) && Reaches(s, steps, t) && Undisturbed(steps)
    requires forall i :: 0 <= i < |Requests(steps)| ==> Requests(steps)[i].key in KeysUpTo(1078)
    ensures |t.h.got| <= |t.h.asked| <= |Requests(steps)| <= |t.h.asked| + 1
    ensures forall k :: 0 <= k < |t.h.got| ==> t.h.got[k] == RunMap(map[], Requests(steps)[..|t.h.asked|]).replies[k]
  {
    KeysUpTo1078ArePrefixFree(1078);
    SoleClientSeesMap(s, steps, t, KeysUpTo(1078));
  }
}
