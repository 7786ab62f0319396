/** The worker's ring of five request slots, including requests whose method is unknown: for
    those `main_job` does not advance the ring, although a slot was posted for them. The
    method it acts on is the one in the slot it reads, which may be an old one. */
module RequestRing {
  import opened Messages

  /** How many of the methods read so far were unknown. */
  function Unknowns(read: seq<Method>): (n: nat)
    ensures n <= |read|
  {
    if read == [] then 0 else Unknowns(read[..|read| - 1]) + (if read[|read| - 1] == UNK then 1 else 0)
  }

  /** The request counter after reading these methods. */
  function CountAfter(read: seq<Method>): (c: nat)
    ensures c < REQUEST_BACKLOG
  {
    (|read| - Unknowns(read)) % REQUEST_BACKLOG
  }

  /** Every slot posted for receiving up to and including the extra post of the next
      iteration, in posting order: the five pre-posted ones, then one per iteration. */
  function AllPosted(read: seq<Method>): (posted: seq<nat>)
    ensures |posted| == REQUEST_BACKLOG + |read| + 1
    ensures forall i :: 0 <= i < |posted| ==> posted[i] < REQUEST_BACKLOG
  {
    if read == [] then [0, 1, 2, 3, 4, 0] else AllPosted(read[..|read| - 1]) + [CountAfter(read)]
  }

  /** The next request fills the slot posted at its own number. */
  function FilledSlot(read: seq<Method>): nat {
    AllPosted(read)[|read|]
  }

  /** Until an unknown method has been sent, what is read is what was sent. */
  ghost predicate Faithful(sent: seq<Method>, read: seq<Method>) {
    |read| <= |sent| && forall i :: 0 <= i < |read| && UNK !in sent[..i] ==> read[i] == sent[i]
  }

  /** Counter and posted slots follow from what was read, and the client is ahead by no more
      than one request and the unknown methods read, which are replied to twice. */
  ghost predicate InStep(count: nat, posted: seq<nat>, sent: seq<Method>, read: seq<Method>) {
    && count == CountAfter(read) && posted == AllPosted(read)[..REQUEST_BACKLOG + |read|]
    && |read| <= |sent| <= |posted| && |sent| <= |read| + Unknowns(read) + 1
  }

  /** Each slot holds the last request delivered to it. */
  ghost predicate Contents(slots: seq<Method>, posted: seq<nat>, sent: seq<Method>) {
    && |slots| == REQUEST_BACKLOG && |sent| <= |posted|
    && forall j :: 0 <= j < |sent| && LastTo(posted, sent, j) ==> posted[j] < |slots| && slots[posted[j]] == sent[j]
  }

  /** No request after number j was delivered to its slot. */
  ghost predicate LastTo(posted: seq<nat>, sent: seq<Method>, j: nat)
    requires j < |sent| <= |posted|
  {
    forall m :: j < m < |sent| ==> posted[m] != posted[j]
  }

  /** How many requests had arrived at each read: the one read for, at least. */
  ghost predicate ArrivedBy(at: seq<nat>, sent: seq<Method>, read: seq<Method>) {
    |at| == |read| && forall i :: 0 <= i < |at| ==> i < at[i] <= |sent|
  }

  /** Number k is the only request with an unknown method, if there is one. */
  ghost predicate OnlyUnknown(sent: seq<Method>, k: nat) {
    forall i :: 0 <= i < |sent| ==> (sent[i] == UNK <==> i == k)
  }

  /** It is read again until five more requests have arrived, the last of them in its slot. */
  ghost predicate Stretch(read: seq<Method>, at: seq<nat>, k: nat) {
    |at| == |read| &&
    forall i :: 0 <= i < |read| ==> (read[i] == UNK <==> k <= i && forall m :: k < m <= i ==> at[m] <= k + 5)
  }

  ghost predicate ReadsOk(sent: seq<Method>, read: seq<Method>, at: seq<nat>) {
    && Faithful(sent, read) && ArrivedBy(at, sent, read)
    && forall k :: OnlyUnknown(sent, k) ==> Stretch(read, at, k)
  }

  /** The request counter, the methods in the slots, and the posted slots in order, of which the
      first |sent| are used up. History: the methods sent, and for each iteration the slot and
      the method read and how many requests had arrived. */
  datatype Ring = Ring(count: nat, slots: seq<Method>, posted: seq<nat>,
                       sent: seq<Method>, from: seq<nat>, read: seq<Method>, at: seq<nat>)

  datatype RingStep = Arrive(op: Method) | Iterate

  /** After calloc and the pre-post loop. */
  function Start(): Ring {
    Ring(0, [UNK, UNK, UNK, UNK, UNK], [0, 1, 2, 3, 4], [], [], [], [])
  }

  /** The client sends a request only after as many replies as it has sent before; an unknown
      method read is replied to twice. An iteration needs a request to have arrived for it. */
  predicate RingCan(g: Ring, step: RingStep) {
    match step
    case Arrive(op) =>
      && |g.sent| < |g.posted| && g.posted[|g.sent|] < |g.slots| && |g.sent| <= |g.read| + Unknowns(g.read)
    case Iterate => |g.read| < |g.sent| && g.count < |g.slots|
  }

  /** An arrival fills the oldest posted slot. An iteration of `main_job` posts the counter's
      slot, reads the method in it, and advances unless that is unknown. */
  function RingDo(g: Ring, step: RingStep): Ring
    requires RingCan(g, step)
  {
    match step
    case Arrive(op) => g.(slots := g.slots[g.posted[|g.sent|] := op], sent := g.sent + [op])
    case Iterate =>
      var op := g.slots[g.count];
      g.(count := if op == UNK then g.count else (g.count + 1) % REQUEST_BACKLOG,
         posted := g.posted + [g.count], from := g.from + [g.count], read := g.read + [op], at := g.at + [|g.sent|])
  }

  /** `client->request_count`, the methods in the request slots, and the card's receive queue
      (`posted`, of which the first `arrived` are used up) of one connection. */
  class Connection {
    var requestCount: nat
    const slots: array<Method>
    var posted: seq<nat>
    var arrived: nat

    ghost var sent: seq<Method>
    ghost var from: seq<nat>
    ghost var read: seq<Method>
    ghost var at: seq<nat>

    ghost function State(): Ring
      reads this, slots
    {
      Ring(requestCount, slots[..], posted, sent, from, read, at)
    }

    /** The slots from calloc, and the pre-post loop of `rc_accept_new_connection`. */
    constructor ()
      ensures fresh(slots) && arrived == |sent| && State() == Start()
    {
      slots := new Method[REQUEST_BACKLOG](_ => UNK);
      requestCount, posted, arrived, sent, from, read, at := 0, [], 0, [], [], [], [];
      new;
      var i := 0;
      while i < REQUEST_BACKLOG
        modifies this`requestCount, this`posted
        invariant 0 <= i <= REQUEST_BACKLOG
        invariant posted == [0, 1, 2, 3, 4][..i]
      {
        requestCount := i;
        PostReceive();
        i := i + 1;
      }
      requestCount := 0;
    }

    method PostReceive()
      modifies this`posted
      ensures posted == old(posted) + [requestCount]
    {
      posted := posted + [requestCount];
    }

    /** A request arrives in the oldest posted slot. */
    method Receive(op: Method)
      requires arrived == |sent| && RingCan(State(), Arrive(op))
      modifies this`arrived, this`sent, slots
      ensures arrived == |sent| && State() == RingDo(old(State()), Arrive(op))
    {
      slots[posted[arrived]] := op;
      arrived := arrived + 1;
      sent := sent + [op];
    }

    /** `ready_for_next_request`. */
    method Ready()
      modifies this`requestCount
      ensures requestCount == (old(requestCount) + 1) % REQUEST_BACKLOG
    {
      requestCount := (requestCount + 1) % REQUEST_BACKLOG;
    }

    /** One iteration of `main_job` as far as slots go. */
    method Next() returns (op: Method)
      requires arrived == |sent| && RingCan(State(), Iterate)
      modifies this`requestCount, this`posted, this`from, this`read, this`at
      ensures arrived == |sent| && State() == RingDo(old(State()), Iterate) && op == old(slots[requestCount])
    {
      PostReceive();
      from, at := from + [requestCount], at + [arrived];
      op := slots[requestCount];
      if op != UNK {
        Ready();
      }
      read := read + [op];
    }
  }

  // ---------- whole runs ----------

  ghost predicate RingInv(g: Ring) {
    && InStep(g.count, g.posted, g.sent, g.read) && Contents(g.slots, g.posted, g.sent)
    && ReadsOk(g.sent, g.read, g.at) && FromCounters(g.from, g.read)
  }

  ghost predicate FromCounters(from: seq<nat>, read: seq<Method>) {
    |from| == |read| && forall i :: 0 <= i < |from| ==> from[i] == CountAfter(read[..i])
  }

  lemma StartInv()
    ensures RingInv(Start())
  {
  }

  lemma ArriveKept(g: Ring, op: Method)
    requires RingInv(g) && RingCan(g, Arrive(op))
    ensures RingInv(RingDo(g, Arrive(op)))
  {
    ArrivalKeepsStep(g.count, g.posted, g.sent, g.read, op);
    ArrivalKeepsContents(g.slots, g.posted, g.sent, op);
    ArrivalKeepsReads(g.sent, g.read, g.at, op);
  }

  lemma IterateKeepsStep(g: Ring)
    requires RingCan(g, Iterate) && InStep(g.count, g.posted, g.sent, g.read) && Contents(g.slots, g.posted, g.sent)
    ensures var t := RingDo(g, Iterate); InStep(t.count, t.posted, t.sent, t.read) && Contents(t.slots, t.posted, t.sent)
  {
    IterationKeepsStep(g.slots, g.count, g.posted, g.sent, g.read);
  }

  lemma IterateKeepsReads(g: Ring)
    requires RingCan(g, Iterate) && RingInv(g)
    ensures var t := RingDo(g, Iterate); ReadsOk(t.sent, t.read, t.at) && FromCounters(t.from, t.read)
  {
    IterationKeepsReads(g.slots, g.count, g.posted, g.sent, g.read, g.at);
    FromGrows(g.from, g.read, g.slots[g.count]);
  }

  lemma IterateKept(g: Ring)
    requires RingInv(g) && RingCan(g, Iterate)
    ensures RingInv(RingDo(g, Iterate))
  {
    IterateKeepsStep(g);
    IterateKeepsReads(g);
  }

  lemma RingInvKept(g: Ring, step: RingStep)
    requires RingInv(g) && RingCan(g, step)
    ensures RingInv(RingDo(g, step))
  {
    match step
    case Arrive(op) => ArriveKept(g, op);
    case Iterate => IterateKept(g);
  }

  lemma FromGrows(from: seq<nat>, read: seq<Method>, op: Method)
    requires FromCounters(from, read)
    ensures FromCounters(from + [CountAfter(read)], read + [op])
  {
    assert forall i :: 0 <= i <= |read| ==> (read + [op])[..i] == read[..i];
    assert read[..|read|] == read;
  }

  ghost predicate RingReaches(g: Ring, steps: seq<RingStep>, t: Ring)
    decreases |steps|
  {
    if steps == [] then g == t else RingCan(g, steps[0]) && RingReaches(RingDo(g, steps[0]), steps[1..], t)
  }

  lemma {:induction false} RingInvAlways(g: Ring, steps: seq<RingStep>, t: Ring)
    requires RingInv(g) && RingReaches(g, steps, t)
    ensures RingInv(t)
    decreases |steps|
  {
    if steps != [] {
      RingInvKept(g, steps[0]);
      RingInvAlways(RingDo(g, steps[0]), steps[1..], t);
    }
  }

  lemma {:induction false} OneMoreStep(g: Ring, steps: seq<RingStep>, t: Ring, step: RingStep)
    requires RingReaches(g, steps, t) && RingCan(t, step)
    ensures RingReaches(g, steps + [step], RingDo(t, step))
    decreases |steps|
  {
    if steps == [] {
      assert [step][1..] == [];
    } else {
      OneMoreStep(RingDo(g, steps[0]), steps[1..], t, step);
      assert (steps + [step])[1..] == steps[1..] + [step];
    }
  }

  // ---------- one arrival ----------

  lemma ArrivalKeepsStep(count: nat, posted: seq<nat>, sent: seq<Method>, read: seq<Method>, op: Method)
    requires InStep(count, posted, sent, read) && |sent| < |posted| && |sent| <= |read| + Unknowns(read)
    ensures InStep(count, posted, sent + [op], read) && posted[|sent|] < REQUEST_BACKLOG
  {
    assert posted[|sent|] == AllPosted(read)[|sent|];
  }

  lemma ArrivalKeepsContents(slots: seq<Method>, posted: seq<nat>, sent: seq<Method>, op: Method)
    requires Contents(slots, posted, sent) && |sent| < |posted| && posted[|sent|] < |slots|
    ensures Contents(slots[posted[|sent|] := op], posted, sent + [op])
  {
    var after := sent + [op];
    forall j | 0 <= j < |after| && LastTo(posted, after, j)
      ensures posted[j] < |slots| && slots[posted[|sent|] := op][posted[j]] == after[j]
    {
      if j < |sent| {
        assert LastTo(posted, sent, j) && posted[|sent|] != posted[j];
      }
    }
  }

  lemma ArrivalKeepsReads(sent: seq<Method>, read: seq<Method>, at: seq<nat>, op: Method)
    requires ReadsOk(sent, read, at)
    ensures ReadsOk(sent + [op], read, at)
  {
    assert forall i :: 0 <= i < |read| ==> (sent + [op])[..i] == sent[..i];
    forall k | OnlyUnknown(sent + [op], k)
      ensures Stretch(read, at, k)
    {
      assert forall i :: 0 <= i < |sent| ==> (sent + [op])[i] == sent[i];
      assert OnlyUnknown(sent, k);
    }
  }

  // ---------- one iteration ----------

  lemma IterationKeepsStep(slots: seq<Method>, count: nat, posted: seq<nat>, sent: seq<Method>, read: seq<Method>)
    requires InStep(count, posted, sent, read) && Contents(slots, posted, sent) && |read| < |sent|
    ensures count < REQUEST_BACKLOG && count == CountAfter(read) && Contents(slots, posted + [count], sent)
    ensures
      var op := slots[count];
      InStep(if op == UNK then count else (count + 1) % REQUEST_BACKLOG, posted + [count], sent, read + [op])
  {
    var op := slots[count];
    PostedGrows(read, op);
    CountAdvances(read, op);
    assert (read + [op])[..|read + [op]| - 1] == read;
    assert forall j :: 0 <= j < |sent| ==> (posted + [count])[j] == posted[j];
    assert forall j :: 0 <= j < |sent| && LastTo(posted + [count], sent, j) ==> LastTo(posted, sent, j);
  }

  /** While nothing unknown has been read, the slot of the counter holds the newest request. */
  lemma KnownReadOwn(slots: seq<Method>, count: nat, posted: seq<nat>, sent: seq<Method>, read: seq<Method>)
    requires InStep(count, posted, sent, read) && Contents(slots, posted, sent) && |read| < |sent| && UNK !in read
    ensures count < |slots| && slots[count] == sent[|read|]
  {
    NoUnknowns(read);
    KnownAreAligned(read);
    assert |sent| == |read| + 1;
    assert posted[|read|] == AllPosted(read)[|read|];
    assert LastTo(posted, sent, |read|);
  }

  lemma IterationKeepsReads(slots: seq<Method>, count: nat, posted: seq<nat>, sent: seq<Method>, read: seq<Method>,
                            at: seq<nat>)
    requires InStep(count, posted, sent, read) && Contents(slots, posted, sent) && |read| < |sent|
    requires ReadsOk(sent, read, at) && count < |slots|
    ensures ReadsOk(sent, read + [slots[count]], at + [|sent|])
  {
    var op := slots[count];
    if UNK !in sent[..|read|] {
      AllKnownRead(sent, read);
      KnownReadOwn(slots, count, posted, sent, read);
    }
    assert forall i :: 0 <= i < |read| ==> (read + [op])[i] == read[i];
    forall k | OnlyUnknown(sent, k)
      ensures Stretch(read + [op], at + [|sent|], k)
    {
      StretchGrows(slots, count, posted, sent, read, at, k);
    }
  }

  lemma StretchGrows(slots: seq<Method>, count: nat, posted: seq<nat>, sent: seq<Method>, read: seq<Method>,
                     at: seq<nat>, k: nat)
    requires InStep(count, posted, sent, read) && Contents(slots, posted, sent) && |read| < |sent| && count < |slots|
    requires ArrivedBy(at, sent, read) && OnlyUnknown(sent, k) && Stretch(read, at, k)
    ensures Stretch(read + [slots[count]], at + [|sent|], k)
  {
    var n, op, after := |read|, slots[count], at + [|sent|];
    assert forall i :: 0 <= i < n ==> after[i] == at[i] && (read + [op])[i] == read[i];
    if n <= k {
      assert UNK !in read;
      KnownReadOwn(slots, count, posted, sent, read);
    } else if |sent| <= k + 5 {
      assert forall m :: k < m <= n ==> after[m] <= k + 5;
      StaleRead(slots, count, posted, sent, read, k);
    } else {
      assert after[n] > k + 5;
      FreshRead(slots, count, posted, sent, read, k);
    }
    assert op == UNK <==> k <= n && forall m :: k < m <= n ==> after[m] <= k + 5;
  }

  lemma KnownCount(read: seq<Method>)
    requires UNK !in read
    ensures CountAfter(read) == |read| % 5
  {
    NoUnknowns(read);
  }

  lemma AfterFirstFive(read: seq<Method>, k: nat, j: nat)
    requires 5 <= j <= k + 5 && k < |read| && UNK !in read[..k]
    ensures AllPosted(read)[j] == (j - 5) % 5
  {
    var i := j - 5;
    PostedAt(read, i);
    assert read[..i] == read[..k][..i];
    KnownCount(read[..i]);
  }

  lemma TakeAt(all: seq<nat>, n: nat, j: nat)
    requires j < n <= |all|
    ensures all[..n][j] == all[j]
  {
  }

  /** The slots of the five requests after number k are the five slots in turn. */
  lemma NextFive(read: seq<Method>, k: nat, j: nat)
    requires k < |read| && UNK !in read[..k] && j <= k + 5
    ensures AllPosted(read)[j] == j % 5
  {
    FiveLess(j);
    if j < 5 {
      PrePosted(read, j);
    } else {
      AfterFirstFive(read, k, j);
    }
  }

  lemma NextFivePosted(posted: seq<nat>, read: seq<Method>, k: nat, j: nat)
    requires posted == AllPosted(read)[..REQUEST_BACKLOG + |read|] && k < |read| && UNK !in read[..k] && j <= k + 5
    ensures j < |posted| && posted[j] == j % 5
  {
    NextFive(read, k, j);
    TakeAt(AllPosted(read), 5 + |read|, j);
  }

  lemma FiveLess(j: nat)
    ensures j % 5 == if j < 5 then j else (j - 5) % 5
  {
  }

  lemma StaleRead(slots: seq<Method>, count: nat, posted: seq<nat>, sent: seq<Method>, read: seq<Method>, k: nat)
    requires InStep(count, posted, sent, read) && Contents(slots, posted, sent) && OnlyUnknown(sent, k)
    requires k < |read| < |sent| <= k + 5 && forall i :: 0 <= i < |read| ==> (read[i] == UNK <==> k <= i)
    ensures count < |slots| && slots[count] == UNK
  {
    forall j | k <= j < |sent|
      ensures posted[j] == j % 5
    {
      NextFivePosted(posted, read, k, j);
    }
    UnknownsFrom(read, k, |read|, |read|);
    assert read[..|read|] == read;
    assert LastTo(posted, sent, k) by {
      forall m | k < m < |sent|
        ensures posted[m] != posted[k]
      {
        DifferentSlots(k, m);
      }
    }
  }

  lemma DifferentSlots(k: nat, m: nat)
    requires k < m < k + 5
    ensures m % 5 != k % 5
  {
  }

  /** Five more arrivals have overwritten every slot since. */
  lemma FreshRead(slots: seq<Method>, count: nat, posted: seq<nat>, sent: seq<Method>, read: seq<Method>, k: nat)
    requires InStep(count, posted, sent, read) && Contents(slots, posted, sent) && OnlyUnknown(sent, k)
    requires k < |read| < |sent| && |sent| > k + 5 && UNK !in read[..k]
    ensures count < |slots| && slots[count] != UNK
  {
    var j := SomeOfFive(k, count);
    NextFivePosted(posted, read, k, j);
    var last := LastOfSlot(posted, sent, j);
  }

  lemma SomeOfFive(k: nat, slot: nat) returns (j: nat)
    requires slot < 5
    ensures k < j <= k + 5 && j % 5 == slot
  {
    j := k + 1 + (slot + 4 - k % 5) % 5;
  }

  lemma {:induction false} LastOfSlot(posted: seq<nat>, sent: seq<Method>, j: nat) returns (last: nat)
    requires j < |sent| <= |posted|
    ensures j <= last < |sent| && posted[last] == posted[j] && LastTo(posted, sent, last)
    decreases |sent| - j
  {
    if LastTo(posted, sent, j) {
      last := j;
    } else {
      var m :| j < m < |sent| && posted[m] == posted[j];
      last := LastOfSlot(posted, sent, m);
    }
  }

  /** Unknown methods from k up to r only. */
  lemma {:induction false} UnknownsFrom(read: seq<Method>, k: nat, r: nat, n: nat)
    requires k <= r && n <= |read| && forall i :: 0 <= i < |read| ==> (read[i] == UNK <==> k <= i < r)
    ensures Unknowns(read[..n]) == if n <= k then 0 else if n <= r then n - k else r - k
    decreases n
  {
    if n > 0 {
      UnknownsFrom(read, k, r, n - 1);
      assert read[..n][..n - 1] == read[..n - 1];
    }
  }

  lemma CountAdvances(read: seq<Method>, op: Method)
    ensures CountAfter(read + [op]) == (if op == UNK then CountAfter(read) else (CountAfter(read) + 1) % REQUEST_BACKLOG)
  {
    assert (read + [op])[..|read + [op]| - 1] == read;
    var n := |read| - Unknowns(read);
    assert n == 5 * (n / 5) + n % 5;
  }

  lemma LastOf(s: seq<nat>, n: nat, x: nat)
    requires |s| == n + 1 && s[n] == x
    ensures s == s[..n] + [x]
  {
  }

  /** Each iteration posts the counter's slot. */
  lemma PostedGrows(read: seq<Method>, op: Method)
    ensures AllPosted(read) == AllPosted(read)[..REQUEST_BACKLOG + |read|] + [CountAfter(read)]
    ensures AllPosted(read + [op])[..REQUEST_BACKLOG + |read| + 1] == AllPosted(read)
  {
    PostedAt(read, |read|);
    assert read[..|read|] == read;
    LastOf(AllPosted(read), REQUEST_BACKLOG + |read|, CountAfter(read));
    AllPostedAppend(read, op);
  }

  lemma AllPostedAppend(read: seq<Method>, op: Method)
    ensures AllPosted(read + [op]) == AllPosted(read) + [CountAfter(read + [op])]
  {
    var after := read + [op];
    assert after[..|after| - 1] == read;
  }

  /** What was posted when k requests had been read stays posted, in its place. */
  lemma {:induction false} PostedAt(read: seq<Method>, k: nat)
    requires k <= |read|
    ensures AllPosted(read)[REQUEST_BACKLOG + k] == CountAfter(read[..k])
    decreases |read|
  {
    if k == |read| {
      assert read[..k] == read;
    } else {
      var p := read[..|read| - 1];
      PostedAt(p, k);
      assert p[..k] == read[..k];
    }
  }

  lemma {:induction false} PrePosted(read: seq<Method>, k: nat)
    requires k < REQUEST_BACKLOG
    ensures AllPosted(read)[k] == k
    decreases |read|
  {
    if read != [] {
      PrePosted(read[..|read| - 1], k);
    }
  }

  lemma {:induction false} UnknownsSplit(a: seq<Method>, b: seq<Method>)
    ensures Unknowns(a + b) == Unknowns(a) + Unknowns(b)
    decreases |b|
  {
    if b == [] {
      assert a + b == a;
    } else {
      assert (a + b)[..|a + b| - 1] == a + b[..|b| - 1];
      UnknownsSplit(a, b[..|b| - 1]);
    }
  }

  lemma {:induction false} NoUnknowns(read: seq<Method>)
    requires UNK !in read
    ensures Unknowns(read) == 0
    decreases |read|
  {
    if read != [] {
      NoUnknowns(read[..|read| - 1]);
    }
  }

  // ---------- alignment, by what was read ----------

  /** The worker reads the slot its request was delivered to if and only if none, or all
      five, of the last five methods it read were unknown. */
  lemma AlignedIff(read: seq<Method>)
    ensures |read| < REQUEST_BACKLOG ==> (FilledSlot(read) == CountAfter(read) <==> Unknowns(read) == 0)
    ensures |read| >= REQUEST_BACKLOG ==>
              (FilledSlot(read) == CountAfter(read) <==> Unknowns(read[|read| - REQUEST_BACKLOG..]) in {0, REQUEST_BACKLOG})
  {
    if |read| < REQUEST_BACKLOG {
      PrePosted(read, |read|);
      EarlyRemainder(|read|, Unknowns(read));
    } else {
      LateAligned(read, |read| - REQUEST_BACKLOG);
    }
  }

  lemma LateAligned(read: seq<Method>, k: nat)
    requires |read| == REQUEST_BACKLOG + k
    ensures FilledSlot(read) == CountAfter(read) <==> Unknowns(read[k..]) in {0, REQUEST_BACKLOG}
  {
    PostedAt(read, k);
    assert read == read[..k] + read[k..];
    UnknownsSplit(read[..k], read[k..]);
    SameRemainder(k - Unknowns(read[..k]), Unknowns(read[k..]));
  }

  lemma EarlyRemainder(n: nat, u: nat)
    requires u <= n < REQUEST_BACKLOG
    ensures (n - u) % REQUEST_BACKLOG == n <==> u == 0
  {
  }

  lemma SameRemainder(x: int, u: nat)
    requires 0 <= x && u <= REQUEST_BACKLOG
    ensures x % REQUEST_BACKLOG == (x + REQUEST_BACKLOG - u) % REQUEST_BACKLOG <==> u in {0, REQUEST_BACKLOG}
  {
    assert x == 5 * (x / 5) + x % 5;
  }

  lemma KnownAreAligned(read: seq<Method>)
    requires UNK !in read
    ensures FilledSlot(read) == CountAfter(read)
  {
    AlignedIff(read);
    NoUnknowns(read);
    if |read| >= REQUEST_BACKLOG {
      NoUnknowns(read[|read| - REQUEST_BACKLOG..]);
    }
  }

  lemma OneUnknownIsNot(read: seq<Method>)
    requires UNK !in read
    ensures FilledSlot(read + [UNK]) != CountAfter(read + [UNK])
  {
    var after := read + [UNK];
    AlignedIff(after);
    assert after[..|after| - 1] == read;
    NoUnknowns(read);
    if |after| >= REQUEST_BACKLOG {
      var tail := after[|after| - REQUEST_BACKLOG..];
      assert tail[..|tail| - 1] == read[|after| - REQUEST_BACKLOG..];
      NoUnknowns(read[|after| - REQUEST_BACKLOG..]);
    }
  }

  // ---------- alignment, by what was sent ----------

  lemma AllKnownRead(sent: seq<Method>, read: seq<Method>)
    requires Faithful(sent, read) && UNK !in sent[..|read|]
    ensures UNK !in read && read == sent[..|read|]
  {
    forall i | 0 <= i < |read|
      ensures read[i] == sent[..|read|][i]
    {
      assert forall x :: x in sent[..i] ==> x in sent[..|read|];
    }
  }

  /** By the methods read: the slot of request i is the slot of iteration i. */
  ghost predicate OwnSlot(read: seq<Method>, i: nat)
    requires i < |read|
  {
    FilledSlot(read[..i]) == CountAfter(read[..i])
  }

  lemma {:induction false} PostedPrefix(read: seq<Method>, i: nat)
    requires i <= |read|
    ensures AllPosted(read)[..REQUEST_BACKLOG + i + 1] == AllPosted(read[..i])
    decreases |read|
  {
    if i == |read| {
      assert read[..i] == read;
    } else {
      var p := read[..|read| - 1];
      PostedPrefix(p, i);
      assert p[..i] == read[..i];
      assert AllPosted(read)[..REQUEST_BACKLOG + i + 1] == AllPosted(p)[..REQUEST_BACKLOG + i + 1];
    }
  }

  lemma OwnSlotMeans(g: Ring, i: nat)
    requires RingInv(g) && i < |g.read|
    ensures i < |g.posted| && i < |g.from| && (g.posted[i] == g.from[i] <==> OwnSlot(g.read, i))
  {
    PostedPrefix(g.read, i);
    assert g.posted[i] == AllPosted(g.read)[i];
    assert AllPosted(g.read)[..REQUEST_BACKLOG + i + 1][i] == AllPosted(g.read[..i])[i];
  }

  /** In every run: every request so far was read from the slot it was delivered to if and only
      if no request before the last one had an unknown method. */
  lemma OwnSlotsIff(steps: seq<RingStep>, t: Ring)
    requires RingReaches(Start(), steps, t)
    ensures |t.read| <= |t.posted| && |t.read| == |t.from| && |t.read| <= |t.sent|
    ensures (forall i :: 0 <= i < |t.read| ==> t.posted[i] == t.from[i]) <==>
            (forall i :: 0 <= i < |t.read| - 1 ==> t.sent[i] != UNK)
  {
    StartInv();
    RingInvAlways(Start(), steps, t);
    forall i | 0 <= i < |t.read|
      ensures i < |t.posted| && i < |t.from| && (t.posted[i] == t.from[i] <==> OwnSlot(t.read, i))
    {
      OwnSlotMeans(t, i);
    }
    AllOwnIff(t.sent, t.read);
  }

  lemma AllOwnIff(sent: seq<Method>, read: seq<Method>)
    requires Faithful(sent, read)
    ensures (forall i :: 0 <= i < |read| ==> OwnSlot(read, i)) <==> (forall i :: 0 <= i < |read| - 1 ==> sent[i] != UNK)
  {
    if forall i :: 0 <= i < |read| - 1 ==> sent[i] != UNK {
      forall i | 0 <= i < |read|
        ensures OwnSlot(read, i)
      {
        KnownPrefix(sent, read, i);
        KnownAreAligned(read[..i]);
      }
    } else {
      var k := FirstUnknown(sent, |read| - 1);
      KnownPrefix(sent, read, k);
      assert read[k] == UNK;
      assert read[..k + 1] == read[..k] + [UNK];
      OneUnknownIsNot(read[..k]);
      assert !OwnSlot(read, k + 1);
    }
  }

  lemma KnownPrefix(sent: seq<Method>, read: seq<Method>, k: nat)
    requires Faithful(sent, read) && k <= |read| && forall i :: 0 <= i < k ==> sent[i] != UNK
    ensures UNK !in read[..k] && UNK !in sent[..k]
  {
    assert forall i :: 0 <= i <= k ==> UNK !in sent[..i];
  }

  lemma {:induction false} FirstUnknown(sent: seq<Method>, n: nat) returns (k: nat)
    requires n <= |sent| && exists i :: 0 <= i < n && sent[i] == UNK
    ensures k < n && sent[k] == UNK && forall i :: 0 <= i < k ==> sent[i] != UNK
    decreases n
  {
    if exists i :: 0 <= i < n - 1 && sent[i] == UNK {
      k := FirstUnknown(sent, n - 1);
    } else {
      k := n - 1;
    }
  }

  // ---------- what is read ----------

  /** The methods sent over a run, and how many had arrived at each iteration. */
  function Ops(steps: seq<RingStep>): seq<Method> {
    if steps == [] then [] else (if steps[0].Arrive? then [steps[0].op] else []) + Ops(steps[1..])
  }

  function ArrivedAt(n: nat, steps: seq<RingStep>): seq<nat>
    decreases |steps|
  {
    if steps == [] then []
    else if steps[0].Arrive? then ArrivedAt(n + 1, steps[1..])
    else [n] + ArrivedAt(n, steps[1..])
  }

  /** The last of the first n requests that was delivered to this slot, or -1. */
  function LastInto(posted: seq<nat>, n: nat, slot: nat): (j: int)
    requires n <= |posted|
    ensures -1 <= j < n && (j >= 0 ==> posted[j] == slot)
    ensures forall m :: j < m < n ==> posted[m] != slot
  {
    if n == 0 then -1 else if posted[n - 1] == slot then n - 1 else LastInto(posted, n - 1, slot)
  }

  /** What a slot holds after n arrivals: what calloc left, or the last request delivered to it. */
  function Held(posted: seq<nat>, sent: seq<Method>, n: nat, slot: nat): Method
    requires n <= |posted| && n <= |sent|
  {
    var j := LastInto(posted, n, slot);
    if j < 0 then UNK else sent[j]
  }

  ghost predicate HeldOk(g: Ring) {
    && |g.slots| == REQUEST_BACKLOG && |g.sent| <= |g.posted| && |g.read| == |g.from| == |g.at|
    && (forall s :: 0 <= s < REQUEST_BACKLOG ==> g.slots[s] == Held(g.posted, g.sent, |g.sent|, s))
    && (forall i :: 0 <= i < |g.read| ==> g.at[i] <= |g.sent| && g.read[i] == Held(g.posted, g.sent, g.at[i], g.from[i]))
  }

  lemma {:induction false} LastIntoStays(posted: seq<nat>, x: nat, n: nat, slot: nat)
    requires n <= |posted|
    ensures LastInto(posted + [x], n, slot) == LastInto(posted, n, slot)
    decreases n
  {
    if n > 0 && posted[n - 1] != slot {
      LastIntoStays(posted, x, n - 1, slot);
    }
  }

  lemma HeldOkArrive(g: Ring, op: Method)
    requires HeldOk(g) && RingCan(g, Arrive(op))
    ensures HeldOk(RingDo(g, Arrive(op)))
  {
  }

  lemma HeldOkIterate(g: Ring)
    requires HeldOk(g) && RingCan(g, Iterate)
    ensures HeldOk(RingDo(g, Iterate))
  {
    var t := RingDo(g, Iterate);
    forall n: nat, s: nat | n <= |g.sent|
      ensures LastInto(t.posted, n, s) == LastInto(g.posted, n, s)
    {
      LastIntoStays(g.posted, g.count, n, s);
    }
  }

  lemma {:induction false} HeldOkAlways(g: Ring, steps: seq<RingStep>, t: Ring)
    requires HeldOk(g) && RingReaches(g, steps, t)
    ensures HeldOk(t)
    decreases |steps|
  {
    if steps != [] {
      match steps[0] {
        case Arrive(op) => HeldOkArrive(g, op);
        case Iterate => HeldOkIterate(g);
      }
      HeldOkAlways(RingDo(g, steps[0]), steps[1..], t);
    }
  }

  lemma StepHistory(g: Ring, step: RingStep)
    requires RingCan(g, step)
    ensures RingDo(g, step).sent == g.sent + (if step.Arrive? then [step.op] else [])
    ensures RingDo(g, step).at == g.at + (if step.Arrive? then [] else [|g.sent|])
  {
  }

  lemma {:induction false} SentIsOps(g: Ring, steps: seq<RingStep>, t: Ring)
    requires RingReaches(g, steps, t)
    ensures t.sent == g.sent + Ops(steps)
    decreases |steps|
  {
    if steps != [] {
      StepHistory(g, steps[0]);
      SentIsOps(RingDo(g, steps[0]), steps[1..], t);
    }
  }

  lemma {:induction false} AtIsArrivedAt(g: Ring, steps: seq<RingStep>, t: Ring)
    requires RingReaches(g, steps, t)
    ensures t.at == g.at + ArrivedAt(|g.sent|, steps)
    decreases |steps|
  {
    if steps != [] {
      StepHistory(g, steps[0]);
      AtIsArrivedAt(RingDo(g, steps[0]), steps[1..], t);
    }
  }

  /** In every run: the methods sent are those of the arrivals, in order; and the method read in
      an iteration is that of the last request, of those arrived by then, that was delivered to
      the slot read, or the unknown one that calloc left there. */
  lemma ReadsWhatWasDelivered(steps: seq<RingStep>, t: Ring)
    requires RingReaches(Start(), steps, t)
    ensures t.sent == Ops(steps) && t.at == ArrivedAt(0, steps) && |t.read| == |t.from| == |t.at| && |t.sent| <= |t.posted|
    ensures forall i :: 0 <= i < |t.read| ==>
              t.at[i] <= |t.sent| && t.read[i] == Held(t.posted, Ops(steps), t.at[i], t.from[i])
  {
    HeldOkAlways(Start(), steps, t);
    SentIsOps(Start(), steps, t);
    AtIsArrivedAt(Start(), steps, t);
  }

  // ---------- one unknown request, request by request ----------

  /** The iteration at which the slot of unknown request k has been overwritten. */
  ghost predicate Recovers(at: seq<nat>, k: nat, r: nat) {
    && k < r <= k + 5 && (forall m :: k < m < r && m < |at| ==> at[m] <= k + 5)
    && (r < |at| ==> at[r] > k + 5)
  }

  lemma {:induction false} RecoveryExists(at: seq<nat>, k: nat, from: nat) returns (r: nat)
    requires k < from <= k + 5 && (forall i :: 0 <= i < |at| ==> i < at[i])
    requires forall m :: k < m < from && m < |at| ==> at[m] <= k + 5
    ensures Recovers(at, k, r)
    decreases k + 5 - from
  {
    if from == k + 5 || (from < |at| && at[from] > k + 5) {
      r := from;
    } else {
      r := RecoveryExists(at, k, from + 1);
    }
  }

  /** The unknown reads are k up to r. */
  ghost predicate UnknownFrom(read: seq<Method>, k: nat, r: nat) {
    k < r <= k + 5 && forall i :: 0 <= i < |read| ==> (read[i] == UNK <==> k <= i < r)
  }

  lemma StretchReads(sent: seq<Method>, read: seq<Method>, at: seq<nat>, k: nat, r: nat)
    requires ReadsOk(sent, read, at) && OnlyUnknown(sent, k) && Recovers(at, k, r)
    ensures UnknownFrom(read, k, r)
  {
    assert Stretch(read, at, k);
    forall j | 0 <= j < |read|
      ensures read[j] == UNK <==> k <= j < r
    {
      if j >= r {
        assert at[r] > k + 5;
      }
    }
  }

  /** How many of the first n reads are unknown. */
  function Before(k: nat, r: nat, n: nat): nat
    requires k < r
  {
    if n <= k then 0 else if n <= r then n - k else r - k
  }

  lemma WindowUnknowns(read: seq<Method>, k: nat, r: nat, i: nat)
    requires UnknownFrom(read, k, r) && 5 <= i <= |read|
    ensures Unknowns(read[..i][i - 5..]) == Before(k, r, i) - Before(k, r, i - 5)
  {
    UnknownsFrom(read, k, r, i);
    UnknownsFrom(read, k, r, i - 5);
    assert read[..i] == read[..i - 5] + read[..i][i - 5..];
    UnknownsSplit(read[..i - 5], read[..i][i - 5..]);
  }

  lemma StretchOwnSlot(read: seq<Method>, k: nat, r: nat, i: nat)
    requires UnknownFrom(read, k, r) && i < |read|
    ensures OwnSlot(read, i) <==> i <= k || i >= r + 5 || i == k + 5 == r
  {
    AlignedIff(read[..i]);
    if i < 5 {
      UnknownsFrom(read, k, r, i);
    } else {
      WindowUnknowns(read, k, r, i);
    }
  }

  /** In every run in which request k is the only unknown one, for every timing of arrivals: it
      is read in the iterations from k up to some r, at most five; request i is read from its
      own slot if and only if i <= k, or i >= r + 5, or i == k + 5 == r. So from request k + 10
      on the ring is in step again. */
  lemma OwnSlotIff(steps: seq<RingStep>, t: Ring, k: nat) returns (r: nat)
    requires RingReaches(Start(), steps, t) && OnlyUnknown(t.sent, k)
    ensures Recovers(t.at, k, r)
    ensures |t.read| <= |t.posted| && |t.read| == |t.from|
    ensures forall i :: 0 <= i < |t.read| ==> (t.read[i] == UNK <==> k <= i < r)
    ensures forall i :: 0 <= i < |t.read| ==>
              (t.posted[i] == t.from[i] <==> i <= k || i >= r + 5 || i == k + 5 == r)
  {
    StartInv();
    RingInvAlways(Start(), steps, t);
    r := RecoveryExists(t.at, k, k + 1);
    StretchReads(t.sent, t.read, t.at, k, r);
    forall i | 0 <= i < |t.read|
      ensures t.read[i] == UNK <==> k <= i < r
      ensures i < |t.posted| && i < |t.from|
      ensures t.posted[i] == t.from[i] <==> i <= k || i >= r + 5 || i == k + 5 == r
    {
      OwnSlotMeans(t, i);
      StretchOwnSlot(t.read, k, r, i);
    }
  }

  /** If every request is served before the next one arrives, exactly the requests 1 to 4 and 6
      to 9 after the unknown one are read from another slot. */
  lemma InTurnOwnSlotIff(steps: seq<RingStep>, t: Ring, k: nat, i: nat)
    requires RingReaches(Start(), steps, t) && OnlyUnknown(t.sent, k) && i < |t.read|
    requires forall m :: 0 <= m < |t.at| ==> t.at[m] == m + 1
    ensures i < |t.posted| && i < |t.from|
    ensures t.posted[i] == t.from[i] <==> i - k !in {1, 2, 3, 4, 6, 7, 8, 9}
  {
    StartInv();
    RingInvAlways(Start(), steps, t);
    OwnSlotMeans(t, i);
    StretchReads(t.sent, t.read, t.at, k, k + 5);
    StretchOwnSlot(t.read, k, k + 5, i);
  }

  // ---------- two runs with the same requests ----------

  lemma Play(g: Ring, step: RingStep, steps: seq<RingStep>) returns (more: seq<RingStep>, t: Ring)
    requires RingReaches(Start(), steps, g) && RingCan(g, step)
    ensures more == steps + [step] && t == RingDo(g, step) && RingReaches(Start(), more, t)
  {
    OneMoreStep(Start(), steps, g, step);
    more, t := steps + [step], RingDo(g, step);
  }

  lemma ServeOne(g: Ring, op: Method, steps: seq<RingStep>) returns (more: seq<RingStep>, t: Ring)
    requires RingReaches(Start(), steps, g) && RingCan(g, Arrive(op)) && RingCan(RingDo(g, Arrive(op)), Iterate)
    ensures t == RingDo(RingDo(g, Arrive(op)), Iterate) && RingReaches(Start(), more, t)
  {
    var mid, u := Play(g, Arrive(op), steps);
    more, t := Play(u, Iterate, mid);
  }

  lemma UnknownsAppend(read: seq<Method>, op: Method)
    ensures Unknowns(read + [op]) == Unknowns(read) + if op == UNK then 1 else 0
  {
    assert (read + [op])[..|read + [op]| - 1] == read;
  }

  lemma UnknownFirst() returns (steps: seq<RingStep>, t: Ring)
    ensures RingReaches(Start(), steps, t)
    ensures t == Ring(0, [UNK, UNK, UNK, UNK, UNK], [0, 1, 2, 3, 4, 0], [UNK], [0], [UNK], [1])
  {
    steps, t := ServeOne(Start(), UNK, []);
  }

  lemma UnknownThenOne() returns (steps: seq<RingStep>, t: Ring)
    ensures RingReaches(Start(), steps, t)
    ensures t == Ring(0, [UNK, SET, UNK, UNK, UNK], [0, 1, 2, 3, 4, 0, 0], [UNK, SET], [0, 0], [UNK, UNK], [1, 2])
  {
    steps, t := UnknownFirst();
    steps, t := ServeOne(t, SET, steps);
  }

  /** An unknown request and two known ones, each served before the next arrives. */
  lemma UnknownThenTwo() returns (steps: seq<RingStep>, t: Ring)
    ensures RingReaches(Start(), steps, t)
    ensures t == Ring(0, [UNK, SET, SET, UNK, UNK], [0, 1, 2, 3, 4, 0, 0, 0],
                      [UNK, SET, SET], [0, 0, 0], [UNK, UNK, UNK], [1, 2, 3])
  {
    steps, t := UnknownThenOne();
    steps, t := ServeOne(t, SET, steps);
  }

  lemma UnknownThenFour() returns (steps: seq<RingStep>, t: Ring)
    ensures RingReaches(Start(), steps, t)
    ensures t == Ring(0, [UNK, SET, SET, SET, SET], [0, 1, 2, 3, 4, 0, 0, 0, 0, 0],
                      [UNK, SET, SET, SET, SET], [0, 0, 0, 0, 0], [UNK, UNK, UNK, UNK, UNK], [1, 2, 3, 4, 5])
  {
    steps, t := UnknownThenTwo();
    steps, t := ServeOne(t, SET, steps);
    assert t == Ring(0, [UNK, SET, SET, SET, UNK], [0, 1, 2, 3, 4, 0, 0, 0, 0],
                     [UNK, SET, SET, SET], [0, 0, 0, 0], [UNK, UNK, UNK, UNK], [1, 2, 3, 4]);
    steps, t := ServeOne(t, SET, steps);
  }

  lemma ThreeUnknowns()
    ensures Unknowns([UNK, UNK, UNK]) == 3
  {
    UnknownsAppend([], UNK);
    assert [] + [UNK] == [UNK] && [UNK] + [UNK] == [UNK, UNK] && [UNK, UNK] + [UNK] == [UNK, UNK, UNK];
    UnknownsAppend([UNK], UNK);
    UnknownsAppend([UNK, UNK], UNK);
  }

  /** Then four more, in the same way: request 5 is read from its own slot, request 6 is not,
      although the last five requests were known. */
  lemma OneUnknownMisaligns() returns (steps: seq<RingStep>, t: Ring)
    ensures RingReaches(Start(), steps, t)
    ensures t.sent == [UNK, SET, SET, SET, SET, SET, SET]
    ensures t.posted == [0, 1, 2, 3, 4, 0, 0, 0, 0, 0, 0, 1] && t.from == [0, 0, 0, 0, 0, 0, 1]
  {
    steps, t := UnknownThenFour();
    steps, t := ServeOne(t, SET, steps);
    assert t == Ring(1, [SET, SET, SET, SET, SET], [0, 1, 2, 3, 4, 0, 0, 0, 0, 0, 0],
                     [UNK, SET, SET, SET, SET, SET], [0, 0, 0, 0, 0, 0], [UNK, UNK, UNK, UNK, UNK, SET],
                     [1, 2, 3, 4, 5, 6]);
    steps, t := ServeOne(t, SET, steps);
  }

  /** Or three more that arrive together, sent on the strength of the double replies: now
      request 5 is read from slot 2. */
  lemma RunningAheadMisaligns() returns (steps: seq<RingStep>, t: Ring)
    ensures RingReaches(Start(), steps, t)
    ensures t.sent == [UNK, SET, SET, SET, SET, SET]
    ensures t.posted == [0, 1, 2, 3, 4, 0, 0, 0, 0, 1, 2] && t.from == [0, 0, 0, 0, 1, 2]
  {
    steps, t := UnknownThenTwo();
    ThreeUnknowns();
    steps, t := Play(t, Arrive(SET), steps);
    steps, t := Play(t, Arrive(SET), steps);
    steps, t := Play(t, Arrive(SET), steps);
    assert t == Ring(0, [SET, SET, SET, SET, SET], [0, 1, 2, 3, 4, 0, 0, 0],
                     [UNK, SET, SET, SET, SET, SET], [0, 0, 0], [UNK, UNK, UNK], [1, 2, 3]);
    steps, t := Play(t, Iterate, steps);
    steps, t := Play(t, Iterate, steps);
    steps, t := Play(t, Iterate, steps);
  }
}
