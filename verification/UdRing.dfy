/** The datagram server: any number of workers poll one shared receive queue, then take one
    lock, then handle the slot the shared counter names, which need not be the slot their
    completion was for. The lock is taken in `ud_receive_header` and released in
    `ready_for_next_request`; the request is still read from its slot after that. */
module UdRing {
  import opened Messages
  import opened RcProtocol

  /** Where a worker is in `main_job`. */
  datatype UdPc = Poll | Await | Reading | Posting | Stepping | Unlocking | Working

  /** A worker's program counter, the slot it got from get_current_request, and the client it
      remembers for the address handle. It looks at its slot whenever it needs a part of the
      request: `looks` is what was there each time, `seen` how many datagrams had arrived by
      then, and `number` the datagram it handles, all three history. */
  datatype UdWorker = UdWorker(pc: UdPc, slot: nat, handling: int, number: nat, looks: seq<Request>, seen: seq<nat>)

  /** A reply: the client it is routed to, and what was looked at to make it. */
  datatype UdReply = UdReply(to: int, looks: seq<Request>, seen: seq<nat>)

  /** Datagrams in arrival order, those handled under the lock in order, which worker
      handled each, and the replies by datagram; polls, slots reposted, counter advances;
      and the workers that have polled a completion they have not yet spent. */
  datatype UdHistory = UdHistory(arrivals: seq<Request>, handled: seq<Request>, owner: seq<nat>,
                                 replies: map<nat, UdReply>, polls: nat, posts: nat, advances: nat,
                                 tokens: set<nat>)

  /** Shared: the slots, the posted receives in order, the unpolled completions (by slot),
      the request counter and the lock. */
  datatype Shared = Shared(slots: seq<Request>, ring: seq<nat>, cq: seq<nat>, count: nat, owner: Owner)

  datatype Owner = Nobody | HeldBy(w: nat)

  datatype UdState = UdState(m: Shared, workers: map<nat, UdWorker>, h: UdHistory)

  datatype UdStep =
    | Arrive(d: Request) | Join(w: nat) | PollCq(w: nat) | TakeLock(w: nat) | ReadSlot(w: nat)
    | Repost(w: nat) | Count(w: nat) | Unlock(w: nat) | Look(w: nat) | SendReply(w: nat)

  ghost predicate UdInit(s: UdState) {
    && |s.m.slots| == MAX_CLIENTS && s.m.ring == seq(MAX_CLIENTS, i requires 0 <= i => i) && s.m.cq == []
    && s.m.count == 0 && s.m.owner == Nobody && s.workers == map[]
    && s.h == UdHistory([], [], [], map[], 0, 0, 0, {})
  }

  predicate At(s: UdState, w: nat, pc: UdPc) {
    w in s.workers && s.workers[w].pc == pc
  }

  predicate UdEnabled(s: UdState, step: UdStep) {
    match step
    case Arrive(d) => Proper(d) && s.m.ring != [] && s.m.ring[0] < |s.m.slots|
    case Join(w) => w !in s.workers
    case PollCq(w) => At(s, w, Poll) && s.m.cq != []
    case TakeLock(w) => At(s, w, Await) && s.m.owner == Nobody
    case ReadSlot(w) => At(s, w, Reading) && s.m.count < |s.m.slots|
    case Repost(w) => At(s, w, Posting)
    case Count(w) => At(s, w, Stepping)
    case Unlock(w) => At(s, w, Unlocking)
    case Look(w) => w in s.workers && Busy(s.workers[w]) && s.workers[w].slot < |s.m.slots|
    case SendReply(w) => At(s, w, Working)
  }

  function UdDo(s: UdState, step: UdStep): UdState
    requires UdEnabled(s, step)
  {
    match step
    case Arrive(d) =>
      s.(m := s.m.(slots := s.m.slots[s.m.ring[0] := d], ring := s.m.ring[1..], cq := s.m.cq + [s.m.ring[0]]),
         h := s.h.(arrivals := s.h.arrivals + [d]))
    case Join(w) => s.(workers := s.workers[w := UdWorker(Poll, 0, 0, 0, [], [])])
    case PollCq(w) =>
      s.(m := s.m.(cq := s.m.cq[1..]),
         workers := s.workers[w := s.workers[w].(pc := Await)],
         h := s.h.(polls := s.h.polls + 1, tokens := s.h.tokens + {w}))
    case TakeLock(w) =>
      s.(m := s.m.(owner := HeldBy(w)), workers := s.workers[w := s.workers[w].(pc := Reading)])
    case ReadSlot(w) =>
      var current := s.m.slots[s.m.count];
      s.(workers := s.workers[w := s.workers[w].(pc := Posting, slot := s.m.count, handling := current.clientId,
                                                 number := |s.h.handled|, looks := [], seen := [])],
         h := s.h.(handled := s.h.handled + [current], owner := s.h.owner + [w], tokens := s.h.tokens - {w}))
    case Repost(w) =>
      s.(m := s.m.(ring := s.m.ring + [s.m.count]),
         workers := s.workers[w := s.workers[w].(pc := Stepping)],
         h := s.h.(posts := s.h.posts + 1))
    case Count(w) =>
      s.(m := s.m.(count := (s.m.count + 1) % MAX_CLIENTS),
         workers := s.workers[w := s.workers[w].(pc := Unlocking)],
         h := s.h.(advances := s.h.advances + 1))
    case Unlock(w) =>
      s.(m := s.m.(owner := Nobody), workers := s.workers[w := s.workers[w].(pc := Working)])
    case Look(w) =>
      var l := s.workers[w];
      s.(workers := s.workers[w := l.(looks := l.looks + [s.m.slots[l.slot]], seen := l.seen + [|s.h.arrivals|])])
    case SendReply(w) =>
      var l := s.workers[w];
      s.(workers := s.workers[w := l.(pc := Poll)],
         h := s.h.(replies := s.h.replies[l.number := UdReply(l.handling, l.looks, l.seen)]))
  }

  // ---------- invariants ----------

  predicate HoldsLock(l: UdWorker) {
    l.pc.Reading? || l.pc.Posting? || l.pc.Stepping? || l.pc.Unlocking?
  }

  predicate HasToken(l: UdWorker) {
    l.pc.Await? || l.pc.Reading?
  }

  /** From getting its slot until its reply is sent. */
  predicate Busy(l: UdWorker) {
    l.pc.Posting? || l.pc.Stepping? || l.pc.Unlocking? || l.pc.Working?
  }

  /** The lock excludes. */
  ghost predicate LockInv(s: UdState) {
    forall w :: w in s.workers ==> (HoldsLock(s.workers[w]) <==> s.m.owner == HeldBy(w))
  }

  ghost predicate OwnerExists(s: UdState) {
    s.m.owner.HeldBy? ==> s.m.owner.w in s.workers
  }

  /** Every polled completion is spent on one datagram or still held by one worker. */
  ghost predicate TokenInv(s: UdState) {
    && (forall w :: w in s.h.tokens ==> w in s.workers && HasToken(s.workers[w]))
    && (forall w :: w in s.workers && HasToken(s.workers[w]) ==> w in s.h.tokens)
    && s.h.polls == |s.h.handled| + |s.h.tokens|
  }

  /** Where the lock holder is in its critical section, in numbers. */
  ghost predicate Progress(s: UdState) {
    && s.m.count == s.h.advances % MAX_CLIENTS
    && |s.h.owner| == |s.h.handled|
    && match s.m.owner
       case Nobody => s.h.posts == s.h.advances == |s.h.handled|
       case HeldBy(w) =>
         w in s.workers &&
         match s.workers[w].pc
         case Posting => s.h.posts == s.h.advances == |s.h.handled| - 1 == s.workers[w].number
         case Stepping => s.h.posts == s.h.advances + 1 == |s.h.handled|
         case _ => s.h.posts == s.h.advances == |s.h.handled|
  }

  /** The posted receives and the unpolled completions are consecutive slots. */
  ghost predicate RingInv(m: Shared, h: UdHistory) {
    && |m.slots| == MAX_CLIENTS
    && |m.ring| == MAX_CLIENTS + h.posts - |h.arrivals|
    && |m.cq| == |h.arrivals| - h.polls
    && (forall i :: 0 <= i < |m.ring| ==> m.ring[i] == (|h.arrivals| + i) % MAX_CLIENTS)
    && (forall i :: 0 <= i < |m.cq| ==> m.cq[i] == (h.polls + i) % MAX_CLIENTS)
  }

  /** Each slot holds the last datagram whose number is its own modulo 1024. */
  ghost predicate SlotsInv(slots: seq<Request>, arrivals: seq<Request>) {
    && |slots| == MAX_CLIENTS
    && forall n :: 0 <= n < |arrivals| <= n + MAX_CLIENTS ==> slots[n % MAX_CLIENTS] == arrivals[n]
  }

  /** Datagrams are handled in arrival order, none skipped, repeated or reordered. */
  ghost predicate HandledInv(h: UdHistory) {
    |h.handled| <= |h.arrivals| && h.handled == h.arrivals[..|h.handled|]
  }

  /** A busy worker knows its datagram's slot and sender. */
  ghost predicate BusyInv(s: UdState) {
    forall w :: w in s.workers && Busy(s.workers[w]) ==>
      var l := s.workers[w];
      && l.number < |s.h.handled| && l.slot == l.number % MAX_CLIENTS
      && l.handling == s.h.handled[l.number].clientId
  }

  /** Each handled datagram is answered, or one worker is busy with it, never both. */
  ghost predicate OwnerInv(s: UdState) {
    && |s.h.owner| == |s.h.handled|
    && (forall n :: n in s.h.replies ==> n < |s.h.handled|)
    && (forall w :: w in s.workers && Busy(s.workers[w]) ==>
          var n := s.workers[w].number;
          n < |s.h.handled| && s.h.owner[n] == w && n !in s.h.replies)
    && (forall n :: 0 <= n < |s.h.owner| && n !in s.h.replies ==>
          s.h.owner[n] in s.workers && Busy(s.workers[s.h.owner[n]]) && s.workers[s.h.owner[n]].number == n)
  }

  /** The last datagram before the first `seen` that uses the slot of number n. */
  function Latest(n: nat, seen: nat): (m: nat)
    requires n < seen
    ensures n <= m < seen <= m + MAX_CLIENTS && m % MAX_CLIENTS == n % MAX_CLIENTS
    ensures seen <= n + MAX_CLIENTS ==> m == n
    decreases seen - n
  {
    if seen <= n + MAX_CLIENTS then n else Latest(n + MAX_CLIENTS, seen)
  }

  /** Each look at the slot of datagram n found the last datagram of that slot to have arrived
      by then: its own while fewer than 1024 more had arrived, a later one from then on. */
  ghost predicate LooksOk(n: nat, looks: seq<Request>, seen: seq<nat>, arrivals: seq<Request>) {
    && |looks| == |seen|
    && forall i :: 0 <= i < |seen| ==> n < seen[i] <= |arrivals| && looks[i] == arrivals[Latest(n, seen[i])]
  }

  ghost predicate ReadInv(s: UdState) {
    forall w :: w in s.workers && Busy(s.workers[w]) ==>
      var l := s.workers[w]; LooksOk(l.number, l.looks, l.seen, s.h.arrivals)
  }

  ghost predicate RepliesInv(h: UdHistory) {
    forall n :: n in h.replies ==>
      && n < |h.handled| && h.replies[n].to == h.handled[n].clientId
      && LooksOk(n, h.replies[n].looks, h.replies[n].seen, h.arrivals)
  }

  ghost predicate UdInv(s: UdState) {
    && LockInv(s) && OwnerExists(s) && TokenInv(s) && Progress(s) && RingInv(s.m, s.h)
    && SlotsInv(s.m.slots, s.h.arrivals) && HandledInv(s.h)
    && BusyInv(s) && OwnerInv(s) && ReadInv(s) && RepliesInv(s.h)
  }

  lemma LockKept(s: UdState, step: UdStep)
    requires UdEnabled(s, step) && LockInv(s) && OwnerExists(s)
    ensures var t := UdDo(s, step); LockInv(t) && OwnerExists(t)
  {
  }

  lemma TokenCountKept(s: UdState, step: UdStep)
    requires UdEnabled(s, step) && s.h.polls == |s.h.handled| + |s.h.tokens|
    requires step.PollCq? ==> step.w !in s.h.tokens
    requires step.ReadSlot? ==> step.w in s.h.tokens
    ensures var t := UdDo(s, step); t.h.polls == |t.h.handled| + |t.h.tokens|
  {
  }

  lemma TokenKept(s: UdState, step: UdStep)
    requires UdEnabled(s, step) && TokenInv(s)
    ensures var t := UdDo(s, step); TokenInv(t)
  {
    TokenCountKept(s, step);
  }

  lemma ProgressKept(s: UdState, step: UdStep)
    requires UdEnabled(s, step) && Progress(s) && LockInv(s) && OwnerExists(s)
    ensures var t := UdDo(s, step); Progress(t)
  {
  }

  /** The slot reposted follows the posted ones. */
  lemma RepostFollows(s: UdState, w: nat)
    requires At(s, w, Posting) && LockInv(s) && Progress(s) && RingInv(s.m, s.h)
    ensures s.m.count == (|s.h.arrivals| + |s.m.ring|) % MAX_CLIENTS
  {
    assert HoldsLock(s.workers[w]);
    assert s.h.advances == s.h.posts;
  }

  lemma RingKept(s: UdState, step: UdStep)
    requires UdEnabled(s, step) && RingInv(s.m, s.h)
    requires step.Repost? ==> s.m.count == (|s.h.arrivals| + |s.m.ring|) % MAX_CLIENTS
    ensures var t := UdDo(s, step); RingInv(t.m, t.h)
  {
  }

  lemma SlotsKept(s: UdState, step: UdStep)
    requires UdEnabled(s, step) && SlotsInv(s.m.slots, s.h.arrivals) && RingInv(s.m, s.h)
    ensures var t := UdDo(s, step); SlotsInv(t.m.slots, t.h.arrivals)
  {
  }

  /** Counting alone: a worker that holds the lock and an unspent completion finds, in the
      slot of the shared counter, the oldest datagram not yet handled. */
  lemma NextIsInSlot(s: UdState, w: nat)
    requires At(s, w, Reading) && LockInv(s) && Progress(s) && TokenInv(s)
    requires RingInv(s.m, s.h) && SlotsInv(s.m.slots, s.h.arrivals)
    ensures |s.h.handled| < |s.h.arrivals| && s.m.count == |s.h.handled| % MAX_CLIENTS
    ensures s.m.count < |s.m.slots| && s.m.slots[s.m.count] == s.h.arrivals[|s.h.handled|]
  {
    assert HoldsLock(s.workers[w]) && w in s.h.tokens;
    assert |s.h.tokens - {w}| == |s.h.tokens| - 1;
  }

  lemma HandledKept(s: UdState, step: UdStep)
    requires UdEnabled(s, step) && HandledInv(s.h)
    requires step.ReadSlot? ==> |s.h.handled| < |s.h.arrivals| && s.m.slots[s.m.count] == s.h.arrivals[|s.h.handled|]
    ensures var t := UdDo(s, step); HandledInv(t.h)
  {
  }

  lemma BusyKept(s: UdState, step: UdStep)
    requires UdEnabled(s, step) && BusyInv(s) && (step.ReadSlot? ==> s.m.count == |s.h.handled| % MAX_CLIENTS)
    ensures var t := UdDo(s, step); BusyInv(t)
  {
  }

  lemma OwnerReadKept(s: UdState, w: nat)
    requires UdEnabled(s, ReadSlot(w)) && OwnerInv(s)
    ensures OwnerInv(UdDo(s, ReadSlot(w)))
  {
    assert |s.h.handled| !in s.h.replies;
  }

  lemma OwnerReplyKept(s: UdState, w: nat)
    requires UdEnabled(s, SendReply(w)) && OwnerInv(s)
    ensures OwnerInv(UdDo(s, SendReply(w)))
  {
  }

  lemma OwnerKept(s: UdState, step: UdStep)
    requires UdEnabled(s, step) && OwnerInv(s)
    ensures var t := UdDo(s, step); OwnerInv(t)
  {
    match step
    case ReadSlot(w) => OwnerReadKept(s, w);
    case SendReply(w) => OwnerReplyKept(s, w);
    case _ =>
  }

  lemma ReadKept(s: UdState, step: UdStep)
    requires UdEnabled(s, step) && ReadInv(s) && SlotsInv(s.m.slots, s.h.arrivals) && BusyInv(s) && HandledInv(s.h)
    ensures var t := UdDo(s, step); ReadInv(t)
  {
  }

  lemma RepliesKept(s: UdState, step: UdStep)
    requires UdEnabled(s, step) && RepliesInv(s.h) && ReadInv(s) && BusyInv(s) && HandledInv(s.h)
    ensures var t := UdDo(s, step); RepliesInv(t.h)
  {
  }

  lemma UdInitInv(s: UdState)
    requires UdInit(s)
    ensures UdInv(s)
  {
  }

  lemma SharedKept(s: UdState, step: UdStep)
    requires UdInv(s) && UdEnabled(s, step)
    ensures var t := UdDo(s, step);
            LockInv(t) && OwnerExists(t) && TokenInv(t) && Progress(t) && RingInv(t.m, t.h)
  {
    if step.Repost? {
      RepostFollows(s, step.w);
    }
    LockKept(s, step);
    TokenKept(s, step);
    ProgressKept(s, step);
    RingKept(s, step);
  }

  lemma ContentsKept(s: UdState, step: UdStep)
    requires UdInv(s) && UdEnabled(s, step)
    ensures var t := UdDo(s, step);
            && SlotsInv(t.m.slots, t.h.arrivals) && HandledInv(t.h) && BusyInv(t) && OwnerInv(t)
            && ReadInv(t) && RepliesInv(t.h)
  {
    if step.ReadSlot? {
      NextIsInSlot(s, step.w);
    }
    SlotsKept(s, step);
    HandledKept(s, step);
    BusyKept(s, step);
    OwnerKept(s, step);
    ReadKept(s, step);
    RepliesKept(s, step);
  }

  lemma UdInvKept(s: UdState, step: UdStep)
    requires UdInv(s) && UdEnabled(s, step)
    ensures UdInv(UdDo(s, step))
  {
    SharedKept(s, step);
    ContentsKept(s, step);
  }

  // ---------- whole runs ----------

  ghost predicate UdReaches(s: UdState, steps: seq<UdStep>, t: UdState)
    decreases |steps|
  {
    if steps == [] then s == t
    else UdEnabled(s, steps[0]) && UdReaches(UdDo(s, steps[0]), steps[1..], t)
  }

  lemma {:induction false} UdInvAlways(s: UdState, steps: seq<UdStep>, t: UdState)
    requires UdInv(s) && UdReaches(s, steps, t)
    ensures UdInv(t)
    decreases |steps|
  {
    if steps != [] {
      UdInvKept(s, steps[0]);
      UdInvAlways(UdDo(s, steps[0]), steps[1..], t);
    }
  }

  /** The datagrams that arrive over a schedule. */
  function Datagrams(steps: seq<UdStep>): seq<Request> {
    if steps == [] then [] else (if steps[0].Arrive? then [steps[0].d] else []) + Datagrams(steps[1..])
  }

  lemma StepArrives(s: UdState, step: UdStep)
    requires UdEnabled(s, step)
    ensures UdDo(s, step).h.arrivals == s.h.arrivals + if step.Arrive? then [step.d] else []
  {
  }

  lemma {:induction false} ArrivalsAreDatagrams(s: UdState, steps: seq<UdStep>, t: UdState)
    requires UdReaches(s, steps, t)
    ensures t.h.arrivals == s.h.arrivals + Datagrams(steps)
    decreases |steps|
  {
    if steps != [] {
      StepArrives(s, steps[0]);
      ArrivalsAreDatagrams(UdDo(s, steps[0]), steps[1..], t);
    }
  }

  predicate AllIdle(s: UdState) {
    forall w :: w in s.workers ==> !Busy(s.workers[w])
  }

  /** Exactly once and in order, for any number of workers and any schedule: what is
      handled is a prefix of what arrived; a datagram is answered at most once, only after
      it was handled, and exactly once when no worker is busy. Every reply is routed by the
      sender of the datagram it answers: a worker about to reply is the first to do so. */
  lemma ExactlyOnce(s: UdState, steps: seq<UdStep>, t: UdState)
    requires UdInit(s) && UdReaches(s, steps, t)
    ensures t.h.arrivals == Datagrams(steps)
    ensures |t.h.handled| <= |t.h.arrivals| && t.h.handled == t.h.arrivals[..|t.h.handled|]
    ensures forall n :: n in t.h.replies ==> n < |t.h.handled| && t.h.replies[n].to == t.h.arrivals[n].clientId
    ensures AllIdle(t) ==> forall n :: 0 <= n < |t.h.handled| ==> n in t.h.replies
    ensures forall w, v :: w in t.workers && v in t.workers && w != v && Busy(t.workers[w]) && Busy(t.workers[v]) ==>
              t.workers[w].number != t.workers[v].number
    ensures forall w :: w in t.workers && Busy(t.workers[w]) ==> t.workers[w].number !in t.h.replies
  {
    UdInitInv(s);
    UdInvAlways(s, steps, t);
    EachOnce(t);
    ArrivalsOfRun(s, steps, t);
  }

  lemma ArrivalsOfRun(s: UdState, steps: seq<UdStep>, t: UdState)
    requires s.h.arrivals == [] && UdReaches(s, steps, t)
    ensures t.h.arrivals == Datagrams(steps)
  {
    ArrivalsAreDatagrams(s, steps, t);
  }

  lemma EachOnce(t: UdState)
    requires HandledInv(t.h) && OwnerInv(t) && RepliesInv(t.h)
    ensures forall n :: n in t.h.replies ==> n < |t.h.handled| && t.h.replies[n].to == t.h.arrivals[n].clientId
    ensures AllIdle(t) ==> forall n :: 0 <= n < |t.h.handled| ==> n in t.h.replies
    ensures forall w, v :: w in t.workers && v in t.workers && w != v && Busy(t.workers[w]) && Busy(t.workers[v]) ==>
              t.workers[w].number != t.workers[v].number
    ensures forall w :: w in t.workers && Busy(t.workers[w]) ==> t.workers[w].number !in t.h.replies
  {
  }

  /** The window: whatever a worker looks at, under the lock or after, is its own datagram
      exactly as long as at most 1024 have arrived from it on; then it is a later one, and a
      reply may mix parts of several. While the worker has not reposted it, the slot is safe. */
  lemma RingWindow(s: UdState, steps: seq<UdStep>, t: UdState)
    requires UdInit(s) && UdReaches(s, steps, t)
    ensures RepliesInv(t.h) && ReadInv(t) && WorkingSlots(t) && PostingSlots(t)
    ensures forall n :: n in t.h.replies && InTime(n, t.h.replies[n].seen) ==> AllOwn(n, t.h.replies[n].looks, t.h.arrivals)
  {
    UdInitInv(s);
    UdInvAlways(s, steps, t);
    WorkersFindSlots(t);
    PostersAreSafe(t);
  }

  ghost predicate InTime(n: nat, seen: seq<nat>) {
    forall i :: 0 <= i < |seen| ==> seen[i] <= n + MAX_CLIENTS
  }

  /** Everything looked at was the n-th datagram. */
  ghost predicate AllOwn(n: nat, looks: seq<Request>, arrivals: seq<Request>) {
    n < |arrivals| && forall i :: 0 <= i < |looks| ==> looks[i] == arrivals[n]
  }

  ghost predicate WorkingSlots(t: UdState) {
    forall w :: w in t.workers && Busy(t.workers[w]) ==>
      var l := t.workers[w];
      && l.slot < MAX_CLIENTS == |t.m.slots| && l.number < |t.h.arrivals|
      && t.m.slots[l.slot] == t.h.arrivals[Latest(l.number, |t.h.arrivals|)]
  }

  ghost predicate PostingSlots(t: UdState) {
    forall w :: w in t.workers && t.workers[w].pc.Posting? ==> |t.h.arrivals| <= t.workers[w].number + MAX_CLIENTS
  }

  lemma WorkersFindSlots(t: UdState)
    requires BusyInv(t) && HandledInv(t.h) && SlotsInv(t.m.slots, t.h.arrivals)
    ensures WorkingSlots(t)
  {
  }

  lemma PostersAreSafe(t: UdState)
    requires LockInv(t) && Progress(t) && RingInv(t.m, t.h)
    ensures PostingSlots(t)
  {
  }

  /** No queue overruns: at most 1024 receives posted, at most 1024 completions unpolled
      (the queue holds 1025), and every arrival finds a posted slot unless 1024 datagrams
      are waiting to be handled. */
  lemma UdNoOverrun(s: UdState, steps: seq<UdStep>, t: UdState)
    requires UdInit(s) && UdReaches(s, steps, t)
    ensures |t.m.ring| <= MAX_CLIENTS && |t.m.cq| <= MAX_CLIENTS
    ensures |t.h.arrivals| - |t.h.handled| < MAX_CLIENTS && t.m.owner == Nobody ==> t.m.ring != []
  {
    UdInitInv(s);
    UdInvAlways(s, steps, t);
    RingBounds(t);
  }

  lemma RingBounds(t: UdState)
    requires Progress(t) && TokenInv(t) && RingInv(t.m, t.h) && HandledInv(t.h) && LockInv(t)
    ensures |t.m.ring| <= MAX_CLIENTS && |t.m.cq| <= MAX_CLIENTS
    ensures |t.h.arrivals| - |t.h.handled| < MAX_CLIENTS && t.m.owner == Nobody ==> t.m.ring != []
  {
  }

  /** While a datagram waits to be handled and there is a worker, some worker can move. */
  lemma UdNoDeadlock(s: UdState, steps: seq<UdStep>, t: UdState, w: nat) returns (step: UdStep)
    requires UdInit(s) && UdReaches(s, steps, t) && |t.h.handled| < |t.h.arrivals| && w in t.workers
    ensures UdEnabled(t, step) && !step.Arrive? && !step.Join?
  {
    UdInitInv(s);
    UdInvAlways(s, steps, t);
    step := SomeWorkerMoves(t, w);
  }

  lemma SomeWorkerMoves(s: UdState, w: nat) returns (step: UdStep)
    requires UdInv(s) && |s.h.handled| < |s.h.arrivals| && w in s.workers
    ensures UdEnabled(s, step) && !step.Arrive? && !step.Join?
  {
    if s.m.owner.HeldBy? {
      step := HolderMoves(s, s.m.owner.w);
    } else if s.h.tokens != {} {
      var v :| v in s.h.tokens;
      assert HasToken(s.workers[v]) && !HoldsLock(s.workers[v]);
      step := TakeLock(v);
    } else {
      assert s.m.cq != [];
      assert !HoldsLock(s.workers[w]) && !HasToken(s.workers[w]);
      step := match s.workers[w].pc
      case Working => SendReply(w)
      case _ => PollCq(w);
    }
  }

  lemma HolderMoves(s: UdState, w: nat) returns (step: UdStep)
    requires UdInv(s) && s.m.owner == HeldBy(w)
    ensures UdEnabled(s, step) && !step.Arrive? && !step.Join?
  {
    assert HoldsLock(s.workers[w]);
    if s.workers[w].pc.Reading? {
      NextIsInSlot(s, w);
    }
    step := match s.workers[w].pc
    case Reading => ReadSlot(w)
    case Posting => Repost(w)
    case Stepping => Count(w)
    case _ => Unlock(w);
  }

  // ---------- the window is real ----------

  lemma {:induction false} ReachesOneMore(s: UdState, steps: seq<UdStep>, t: UdState, step: UdStep)
    requires UdReaches(s, steps, t) && UdEnabled(t, step)
    ensures UdReaches(s, steps + [step], UdDo(t, step))
    decreases |steps|
  {
    if steps == [] {
      assert [step][1..] == [];
    } else {
      ReachesOneMore(UdDo(s, steps[0]), steps[1..], t, step);
      assert (steps + [step])[1..] == steps[1..] + [step];
    }
  }

  /** One worker takes the first datagram as far as releasing the lock, and looks at it then
      or does not. */
  lemma FirstDatagram(s: UdState, d: Request, early: bool) returns (steps: seq<UdStep>, t: UdState)
    requires UdInit(s) && Proper(d)
    ensures UdReaches(s, steps, t)
    ensures At(t, 0, Working) && t.workers[0].number == 0 && t.h.arrivals == [d] && t.m.owner == Nobody
    ensures t.h.replies == map[] && |t.h.handled| == 1 && t.workers[0].looks == if early then [d] else []
    ensures forall i :: 0 <= i < |steps| ==>
              !steps[i].SendReply? && (steps[i].Arrive? ==> steps[i].d == d) && (steps[i].Join? ==> i == 0)
  {
    steps, t := [], s;
    var todo := [Join(0), Arrive(d), PollCq(0), TakeLock(0), ReadSlot(0), Repost(0), Count(0), Unlock(0)];
    steps, t := Follow(s, steps, t, todo[0]);
    steps, t := Follow(s, steps, t, todo[1]);
    steps, t := Follow(s, steps, t, todo[2]);
    steps, t := Follow(s, steps, t, todo[3]);
    steps, t := Follow(s, steps, t, todo[4]);
    steps, t := Follow(s, steps, t, todo[5]);
    steps, t := Follow(s, steps, t, todo[6]);
    steps, t := Follow(s, steps, t, todo[7]);
    if early {
      steps, t := Follow(s, steps, t, Look(0));
    }
  }

  lemma Follow(s: UdState, steps: seq<UdStep>, t: UdState, step: UdStep) returns (more: seq<UdStep>, u: UdState)
    requires UdReaches(s, steps, t) && UdEnabled(t, step)
    ensures more == steps + [step] && u == UdDo(t, step) && UdReaches(s, more, u)
  {
    ReachesOneMore(s, steps, t, step);
    more, u := steps + [step], UdDo(t, step);
  }

  /** While that worker is delayed, k more datagrams arrive. */
  lemma {:induction false} ManyArrive(s: UdState, d: Request, e: Request, k: nat, early: bool)
    returns (steps: seq<UdStep>, t: UdState)
    requires UdInit(s) && Proper(d) && Proper(e) && k <= MAX_CLIENTS
    ensures UdReaches(s, steps, t) && UdInv(t)
    ensures At(t, 0, Working) && t.workers[0].number == 0 && t.m.owner == Nobody && t.h.replies == map[]
    ensures t.workers[0].looks == if early then [d] else []
    ensures t.h.arrivals == [d] + seq(k, _ => e) && |t.h.handled| == 1
    decreases k
  {
    UdInitInv(s);
    if k == 0 {
      steps, t := FirstDatagram(s, d, early);
      assert seq(0, _ => e) == [];
      UdInvAlways(s, steps, t);
    } else {
      var before: seq<UdStep>, u: UdState := ManyArrive(s, d, e, k - 1, early);
      assert |u.m.ring| == MAX_CLIENTS + 1 - k;
      steps, t := Follow(s, before, u, Arrive(e));
      UdInvAlways(s, steps, t);
      assert [d] + seq(k - 1, _ => e) + [e] == [d] + seq(k, _ => e);
    }
  }

  /** It then looks, and replies. */
  lemma LateReply(s: UdState, d: Request, e: Request, early: bool) returns (steps: seq<UdStep>, t: UdState)
    requires UdInit(s) && Proper(d) && Proper(e)
    ensures UdReaches(s, steps, t)
    ensures t.h.arrivals != [] && t.h.arrivals[0] == d && 0 in t.h.replies && t.h.replies[0].to == d.clientId
    ensures t.h.replies[0].looks == (if early then [d] else []) + [e]
  {
    var before, u := ManyArrive(s, d, e, MAX_CLIENTS, early);
    var mid, v := Follow(s, before, u, Look(0));
    steps, t := Follow(s, mid, v, SendReply(0));
    UdInitInv(s);
    UdInvAlways(s, steps, t);
    var seen := t.h.replies[0].seen;
    assert seen[|seen| - 1] == 1 + MAX_CLIENTS;
    assert Latest(0, 1 + MAX_CLIENTS) == MAX_CLIENTS;
    assert t.h.arrivals[MAX_CLIENTS] == e;
  }

  /** A worker that is delayed between unlocking and looking at its slot while 1024 datagrams
      arrive answers the last of them in place of its own, to its own datagram's sender. */
  lemma LateReaderAnswersWrongRequest(s: UdState, d: Request, e: Request) returns (steps: seq<UdStep>, t: UdState)
    requires UdInit(s) && Proper(d) && Proper(e)
    ensures UdReaches(s, steps, t)
    ensures t.h.arrivals != [] && t.h.arrivals[0] == d && 0 in t.h.replies
    ensures t.h.replies[0].to == d.clientId && t.h.replies[0].looks == [e]
  {
    steps, t := LateReply(s, d, e, false);
  }

  /** One that is delayed between two looks answers a request nobody sent: one part of its
      own datagram, another of the later one. */
  lemma LateReaderMixesRequests(s: UdState, d: Request, e: Request) returns (steps: seq<UdStep>, t: UdState)
    requires UdInit(s) && Proper(d) && Proper(e)
    ensures UdReaches(s, steps, t)
    ensures t.h.arrivals != [] && t.h.arrivals[0] == d && 0 in t.h.replies
    ensures t.h.replies[0].to == d.clientId && t.h.replies[0].looks == [d, e]
  {
    steps, t := LateReply(s, d, e, true);
  }
}
