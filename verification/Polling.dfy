/** The completion polling loops of `rdma_common.c`, against a completion queue that keeps
    filling while it is polled. */
module Polling {
  /** A work completion: its work request and its status, 0 for success. */
  datatype Wc = Wc(wrId: nat, status: nat)

  const SUCCESS := 0

  /** What the device does around one poll: completions that arrive before it, the number
      it offers to hand over (or a negative error), and whether time has run out after it. */
  datatype Turn = Turn(arriving: seq<Wc>, offer: int, late: bool)

  /** Completions that arrive over the first k turns. */
  function Arriving(turns: seq<Turn>, k: nat): seq<Wc>
    requires k <= |turns|
  {
    if k == 0 then [] else Arriving(turns, k - 1) + turns[k - 1].arriving
  }

  /** What was queued and what arrives over the first k turns, in order. */
  function Stream(queue: seq<Wc>, turns: seq<Turn>, k: nat): (s: seq<Wc>)
    requires k <= |turns|
    ensures |s| == |queue| + |Arriving(turns, k)|
  {
    queue + Arriving(turns, k)
  }

  lemma StreamGrows(queue: seq<Wc>, turns: seq<Turn>, k: nat)
    requires k < |turns|
    ensures Stream(queue, turns, k + 1) == Stream(queue, turns, k) + turns[k].arriving
  {
  }

  function Min(a: nat, b: nat): nat {
    if a < b then a else b
  }

  /** How many completions a device makes available over the first k turns, starting with so
      many queued: in each turn what it offers, but no more than has arrived. */
  function Available(queued: nat, turns: seq<Turn>, k: nat): (n: nat)
    requires k <= |turns|
    ensures n <= queued + |Arriving(turns, k)|
  {
    if k == 0 then 0
    else
      var before, offer := Available(queued, turns, k - 1), turns[k - 1].offer;
      if offer < 0 then before else before + Min(offer, queued + |Arriving(turns, k)| - before)
  }

  class CompletionQueue {
    var pending: seq<Wc>

    constructor (pending: seq<Wc>)
      ensures this.pending == pending
    {
      this.pending := pending;
    }

    /** `ibv_poll_cq`: moves up to n entries, oldest first, into wc from `at` on. */
    method Poll(n: nat, wc: array<Wc>, at: nat, turn: Turn) returns (ret: int)
      requires at + n <= wc.Length
      modifies this, wc
      ensures turn.offer < 0 ==> ret == turn.offer && pending == old(pending) + turn.arriving && wc[..] == old(wc[..])
      ensures turn.offer >= 0 ==>
                var queue := old(pending) + turn.arriving;
                && ret == Min(n, Min(turn.offer, |queue|)) && pending == queue[ret..]
                && wc[..] == old(wc[..at]) + queue[..ret] + old(wc[..])[at + ret..]
    {
      pending := pending + turn.arriving;
      if turn.offer < 0 {
        return turn.offer;
      }
      var k := Min(n, Min(turn.offer, |pending|));
      forall i | 0 <= i < k {
        wc[at + i] := pending[i];
      }
      pending := pending[k..];
      ret := k;
    }
  }

  /** The value returned for a filled array: minus the first status that is not success, or
      the number of completions. */
  function Verdict(wc: seq<Wc>, from: nat): int
    requires from <= |wc|
    decreases |wc| - from
  {
    if from == |wc| then |wc|
    else if wc[from].status != SUCCESS then -(wc[from].status as int)
    else Verdict(wc, from + 1)
  }

  lemma {:induction false} VerdictMeaning(wc: seq<Wc>, from: nat)
    requires from <= |wc| && forall i :: 0 <= i < from ==> wc[i].status == SUCCESS
    ensures Verdict(wc, from) == |wc| <==> forall i :: 0 <= i < |wc| ==> wc[i].status == SUCCESS
    ensures Verdict(wc, from) < 0 <==> exists i :: 0 <= i < |wc| && wc[i].status != SUCCESS
    ensures forall i :: 0 <= i < |wc| && wc[i].status != SUCCESS && (forall j :: 0 <= j < i ==> wc[j].status == SUCCESS) ==>
              Verdict(wc, from) == -(wc[i].status as int)
    decreases |wc| - from
  {
    if from < |wc| && wc[from].status == SUCCESS {
      VerdictMeaning(wc, from + 1);
    }
  }

  /** How a polling call ended: still looping when the turns ran out, a poll error, or the
      wanted number of completions (or, with a timer, fewer). */
  datatype Outcome = StillPolling | PollError(code: int) | Finished(ret: int)

  /** One poll and the addition to `total_wc`. */
  method Collect(cq: CompletionQueue, wc: array<Wc>, maxWc: nat, total: nat, turn: Turn, ghost stream: seq<Wc>)
    returns (ret: int, sum: nat)
    requires total <= maxWc <= wc.Length && wc[..total] + cq.pending == stream
    modifies cq, wc
    ensures total <= sum <= maxWc && wc[..sum] + cq.pending == stream + turn.arriving
    ensures forall i :: sum <= i < wc.Length ==> wc[i] == old(wc[i])
    ensures (ret < 0 <==> turn.offer < 0) && (ret < 0 ==> ret == turn.offer)
    ensures sum == if turn.offer < 0 then total
                   else total + Min(maxWc - total, Min(turn.offer, old(|cq.pending|) + |turn.arriving|))
  {
    ghost var before, pending := wc[..], cq.pending;
    ret := cq.Poll(maxWc - total, wc, total, turn);
    PollConserves(before, total, pending, turn.arriving, if ret < 0 then 0 else ret, wc[..], stream);
    sum := if ret < 0 then total else total + ret;
    assert forall i :: sum <= i < wc.Length ==> wc[i] == wc[sum..][i - sum] == before[sum..][i - sum];
  }

  /** `process_work_completion_events` and its variant with a timeout, in polling mode.
      Whatever the batches, wc[..total] and what is left in the queue are, in order, exactly
      what was in the queue and what arrived: nothing is lost, repeated or overwritten. */
  method ProcessCompletions(cq: CompletionQueue, wc: array<Wc>, maxWc: nat, timed: bool, turns: seq<Turn>)
    returns (out: Outcome, total: nat, used: nat)
    requires maxWc <= wc.Length
    modifies cq, wc
    ensures used <= |turns| && total == Min(maxWc, Available(old(|cq.pending|), turns, used))
    ensures wc[..total] + cq.pending == Stream(old(cq.pending), turns, used)
    ensures forall i :: total <= i < wc.Length ==> wc[i] == old(wc[i])
    ensures forall k :: 0 < k < used ==> !Ends(old(|cq.pending|), turns, k, maxWc, timed)
    ensures if out.StillPolling? then used == |turns| && (used > 0 ==> !Ends(old(|cq.pending|), turns, used, maxWc, timed))
            else used > 0 && Ends(old(|cq.pending|), turns, used, maxWc, timed)
    ensures out.PollError? <==> used > 0 && turns[used - 1].offer < 0
    ensures out.PollError? ==> out.code == turns[used - 1].offer
    ensures out.Finished? ==> out.ret == Verdict(wc[..total], 0)
  {
    total, used := 0, 0;
    ghost var queue := cq.pending;
    while used < |turns|
      invariant 0 <= used <= |turns| && total == Min(maxWc, Available(|queue|, turns, used))
      invariant GoesOn(|queue|, turns, used, maxWc, timed) && (used > 0 ==> turns[used - 1].offer >= 0)
      invariant wc[..total] + cq.pending == Stream(queue, turns, used)
      invariant forall i :: total <= i < wc.Length ==> wc[i] == old(wc[i])
    {
      StreamGrows(queue, turns, used);
      AvailableGrows(|queue|, turns, used, maxWc, |cq.pending|);
      var ret;
      ret, total := Collect(cq, wc, maxWc, total, turns[used], Stream(queue, turns, used));
      used := used + 1;
      EndsWhen(|queue|, turns, used, maxWc, timed, total);
      if ret < 0 {
        out := PollError(ret);
        return;
      }
      if total >= maxWc || (timed && turns[used - 1].late) {
        var r := CheckStatuses(wc, total);
        out := Finished(r);
        return;
      }
    }
    out := StillPolling;
  }

  /** No turn up to n ends the loop. */
  ghost predicate GoesOn(queued: nat, turns: seq<Turn>, n: nat, maxWc: nat, timed: bool)
    requires n <= |turns|
  {
    forall k :: 0 < k <= n ==> !Ends(queued, turns, k, maxWc, timed)
  }

  lemma EndsWhen(queued: nat, turns: seq<Turn>, used: nat, maxWc: nat, timed: bool, total: nat)
    requires 0 < used <= |turns| && total == Min(maxWc, Available(queued, turns, used))
    requires GoesOn(queued, turns, used - 1, maxWc, timed)
    ensures Ends(queued, turns, used, maxWc, timed) <==>
            turns[used - 1].offer < 0 || total >= maxWc || (timed && turns[used - 1].late)
    ensures !Ends(queued, turns, used, maxWc, timed) ==> GoesOn(queued, turns, used, maxWc, timed)
  {
  }

  /** The loop ends with turn k: at an error, when enough is available, or when time is up. */
  predicate Ends(queued: nat, turns: seq<Turn>, k: nat, maxWc: nat, timed: bool)
    requires 0 < k <= |turns|
  {
    turns[k - 1].offer < 0 || Available(queued, turns, k) >= maxWc || (timed && turns[k - 1].late)
  }

  /** Asking for what is missing keeps up with what is available. */
  /** Asking for what is missing keeps up with what is available. */
  lemma AvailableGrows(queued: nat, turns: seq<Turn>, k: nat, maxWc: nat, pending: nat)
    requires k < |turns| && pending == queued + |Arriving(turns, k)| - Min(maxWc, Available(queued, turns, k))
    ensures
      var total, turn := Min(maxWc, Available(queued, turns, k)), turns[k];
      Min(maxWc, Available(queued, turns, k + 1)) ==
      if turn.offer < 0 then total else total + Min(maxWc - total, Min(turn.offer, pending + |turn.arriving|))
  {
  }

  /** Progress: once so many completions have arrived, n turns that offer at least one each
      make n available, up to that many. */
  lemma {:induction false} OffersArriveAt(queued: nat, turns: seq<Turn>, k: nat, n: nat, maxWc: nat)
    requires k + n <= |turns| && queued + |Arriving(turns, k)| >= maxWc
    requires forall i :: k <= i < k + n ==> turns[i].offer >= 1
    ensures Available(queued, turns, k + n) >= Min(n, maxWc)
    decreases n
  {
    if n > 0 {
      OffersArriveAt(queued, turns, k, n - 1, maxWc);
      ArrivingOnlyGrows(turns, k, k + n);
    }
  }

  lemma {:induction false} ArrivingOnlyGrows(turns: seq<Turn>, i: nat, j: nat)
    requires i <= j <= |turns|
    ensures |Arriving(turns, i)| <= |Arriving(turns, j)|
    decreases j
  {
    if i < j {
      ArrivingOnlyGrows(turns, i, j - 1);
    }
  }

  /** One poll keeps the stream: what was collected, then what is queued. */
  lemma PollConserves(before: seq<Wc>, total: nat, pending: seq<Wc>, arriving: seq<Wc>, ret: nat,
                      after: seq<Wc>, stream: seq<Wc>)
    requires total + ret <= |before| && ret <= |pending + arriving| && before[..total] + pending == stream
    requires after == before[..total] + (pending + arriving)[..ret] + before[total + ret..]
    ensures after[..total + ret] + (pending + arriving)[ret..] == stream + arriving
    ensures after[total + ret..] == before[total + ret..]
  {
    var queue := pending + arriving;
    assert queue[..ret] + queue[ret..] == queue;
    assert after[..total + ret] == before[..total] + queue[..ret];
    assert before[..total] + (pending + arriving) == (before[..total] + pending) + arriving;
  }

  /** The status check over the collected completions. */
  method CheckStatuses(wc: array<Wc>, total: nat) returns (r: int)
    requires total <= wc.Length
    ensures r == Verdict(wc[..total], 0)
  {
    var i := 0;
    while i < total
      invariant 0 <= i <= total
      invariant Verdict(wc[..total], 0) == Verdict(wc[..total], i)
    {
      if wc[i].status != SUCCESS {
        return -(wc[i].status as int);
      }
      i := i + 1;
    }
    r := total;
  }
}
