/** One reliable-connection client and its worker, in polling mode, as a step machine: the
    two program loops, the two network cards, and the wire. Sends and receives of one side
    complete on one shared queue, and neither loop looks at which completion it polled. A
    network card reads a send buffer when it transmits, not when the send is posted. */
module RcProtocol {
  import opened Messages
  import opened Buckets
  import opened Hash

  const MAX_WR := 8
  const CQ_CAPACITY := 16

  datatype Completion = SendDone | RecvDone

  /** Where the client is in its loop: fill the request, `rc_send_request` (post, poll),
      `rc_receive_response` (post, poll). */
  datatype ClientPc = Make | PostRequest | PollSent | PostReceive | PollReceived

  /** Where `main_job` is: prepare, receive header, dispatch, advance the ring, clear the
      response, handle, send the response (post, poll). */
  datatype WorkerPc = PostSlot | PollRequest | Dispatch | Advance | Clear | Handle | PostReply | PollReply

  /** The client's program counter and buffers, and its card: receives posted into the
      response buffer, sends not yet transmitted or not yet completed, completions. */
  datatype Client = Client(pc: ClientPc, request: Request, response: Response,
                           receives: nat, unsent: nat, unacked: nat, cq: seq<Completion>)

  /** The worker's program counter, request ring, counter, current slot and response buffer,
      and its card: the slots posted for receiving, in order, and the send side. */
  datatype Worker = Worker(pc: WorkerPc, slots: seq<Request>, count: nat, current: nat, reply: Response,
                           ring: seq<nat>, unsent: nat, unacked: nat, cq: seq<Completion>)

  datatype Wire = Wire(toServer: seq<Request>, toClient: seq<Response>)

  /** One handled request: the table it met, and the reply it got. */
  datatype Served = Served(before: Table, request: Request, reply: Response)

  /** Requests posted, requests handled, replies posted and replies read back, in order;
      requests that reached the worker and replies that reached the client, by number. */
  datatype History = History(asked: seq<Request>, served: seq<Served>, answers: seq<Response>, got: seq<Response>,
                             arrived: nat, delivered: nat)

  datatype State = State(c: Client, w: Worker, net: Wire, h: History)

  datatype Step =
    | MakeRequest(r: Request) | PostTheRequest | PollForSend | PostTheReceive | PollForReply
    | ClientTransmits | ClientSendCompletes | RequestArrives
    | ServerTransmits | ServerSendCompletes | ReplyArrives
    | PostTheSlot | PollForRequest | DispatchIt | AdvanceRing | ClearReply | HandleIt(before: Table)
    | PostTheReply | PollForSent

  /** Methods answered once: the dispatcher passes them through. */
  predicate AnsweredOnce(m: Method) {
    m in {SET, GET, DEL, DUMP, RST}
  }

  predicate Proper(r: Request) {
    WellFormed(r) && AnsweredOnce(r.op)
  }

  /** After connecting: the client has pre-posted one receive, the worker its five slots. */
  ghost predicate Init(s: State) {
    && s.c.pc == Make && s.c.receives == 1 && s.c.unsent == s.c.unacked == 0 && s.c.cq == []
    && s.w.pc == PostSlot && |s.w.slots| == REQUEST_BACKLOG && s.w.count == 0 && s.w.ring == [0, 1, 2, 3, 4]
    && s.w.unsent == s.w.unacked == 0 && s.w.cq == []
    && s.net == Wire([], [])
    && s.h == History([], [], [], [], 0, 0)
  }

  predicate Enabled(s: State, step: Step) {
    match step
    case MakeRequest(r) => s.c.pc == Make && Proper(r)
    case PostTheRequest => s.c.pc == PostRequest
    case PollForSend => s.c.pc == PollSent && s.c.cq != []
    case PostTheReceive => s.c.pc == PostReceive
    case PollForReply => s.c.pc == PollReceived && s.c.cq != []
    case ClientTransmits => s.c.unsent > 0
    case ClientSendCompletes => s.c.unacked > 0
    case RequestArrives => s.net.toServer != [] && s.w.ring != [] && s.w.ring[0] < |s.w.slots|
    case ServerTransmits => s.w.unsent > 0
    case ServerSendCompletes => s.w.unacked > 0
    case ReplyArrives => s.net.toClient != [] && s.c.receives > 0
    case PostTheSlot => s.w.pc == PostSlot
    case PollForRequest => s.w.pc == PollRequest && s.w.cq != []
    case DispatchIt => s.w.pc == Dispatch && s.w.count < |s.w.slots| && AnsweredOnce(s.w.slots[s.w.count].op)
    case AdvanceRing => s.w.pc == Advance
    case ClearReply => s.w.pc == Clear
    case HandleIt(before) => s.w.pc == Handle && s.w.current < |s.w.slots| && |before| == CAPACITY
    case PostTheReply => s.w.pc == PostReply
    case PollForSent => s.w.pc == PollReply && s.w.cq != []
  }

  /** What a handler leaves in the response buffer: the code, and for a GET answered OK the
      message; other methods leave it as it is. */
  function Filled(buffer: Response, r: Request, answer: Response): Response {
    match r.op
    case GET => if answer.code == OK then answer else buffer.(code := answer.code)
    case SET => buffer.(code := answer.code)
    case DEL => buffer.(code := answer.code)
    case RST => buffer.(code := answer.code)
    case _ => buffer
  }

  function Do(s: State, step: Step): State
    requires Enabled(s, step)
  {
    var (c, w, net, h) := (s.c, s.w, s.net, s.h);
    match step
    case MakeRequest(r) => State(c.(request := r, pc := PostRequest), w, net, h)
    case PostTheRequest =>
      State(c.(unsent := c.unsent + 1, pc := PollSent), w, net, h.(asked := h.asked + [c.request]))
    case PollForSend => State(c.(cq := c.cq[1..], pc := PostReceive), w, net, h)
    case PostTheReceive => State(c.(receives := c.receives + 1, pc := PollReceived), w, net, h)
    case PollForReply => State(c.(cq := c.cq[1..], pc := Make), w, net, h.(got := h.got + [c.response]))
    case ClientTransmits =>
      State(c.(unsent := c.unsent - 1, unacked := c.unacked + 1), w, net.(toServer := net.toServer + [c.request]), h)
    case ClientSendCompletes => State(c.(unacked := c.unacked - 1, cq := c.cq + [SendDone]), w, net, h)
    case RequestArrives =>
      State(c,
            w.(ring := w.ring[1..], slots := w.slots[w.ring[0] := net.toServer[0]], cq := w.cq + [RecvDone]),
            net.(toServer := net.toServer[1..]),
            h.(arrived := h.arrived + 1))
    case ServerTransmits =>
      State(c, w.(unsent := w.unsent - 1, unacked := w.unacked + 1), net.(toClient := net.toClient + [w.reply]), h)
    case ServerSendCompletes => State(c, w.(unacked := w.unacked - 1, cq := w.cq + [SendDone]), net, h)
    case ReplyArrives =>
      State(c.(receives := c.receives - 1, response := net.toClient[0], cq := c.cq + [RecvDone]),
            w,
            net.(toClient := net.toClient[1..]),
            h.(delivered := h.delivered + 1))
    case PostTheSlot => State(c, w.(ring := w.ring + [w.count], pc := PollRequest), net, h)
    case PollForRequest => State(c, w.(cq := w.cq[1..], pc := Dispatch), net, h)
    case DispatchIt => State(c, w.(current := w.count, pc := Advance), net, h)
    case AdvanceRing => State(c, w.(count := (w.count + 1) % REQUEST_BACKLOG, pc := Clear), net, h)
    case ClearReply => State(c, w.(reply := CLEARED, pc := Handle), net, h)
    case HandleIt(before) =>
      var r := w.slots[w.current];
      var reply := Filled(w.reply, r, Process(before, r).reply);
      State(c, w.(reply := reply, pc := PostReply), net, h.(served := h.served + [Served(before, r, reply)]))
    case PostTheReply =>
      State(c, w.(unsent := w.unsent + 1, pc := PollReply), net, h.(answers := h.answers + [w.reply]))
    case PollForSent => State(c, w.(cq := w.cq[1..], pc := PostSlot), net, h)
  }

  // ---------- the counting invariant ----------

  function Bit(b: bool): nat {
    if b then 1 else 0
  }

  /** Polls the client has made, and iterations and polls the worker has made, from where
      their programs are. */
  function ClientPolls(c: Client, h: History): int {
    2 * |h.got| + Bit(c.pc.PostReceive? || c.pc.PollReceived?)
  }

  function Rounds(w: Worker, h: History): int {
    |h.answers| - Bit(w.pc.PollReply?)
  }

  function WorkerPolls(w: Worker, h: History): int {
    2 * Rounds(w, h) + Bit(!w.pc.PostSlot? && !w.pc.PollRequest?)
  }

  /** The client: requests posted, receives posted, and completions waiting in its queue
      (of sends and of receives, less the polls). */
  ghost predicate ClientCounts(c: Client, h: History) {
    && |h.asked| == |h.got| + Bit(!c.pc.Make? && !c.pc.PostRequest?)
    && c.receives == 1 + |h.got| + Bit(c.pc.PollReceived?) - h.delivered
    && |c.cq| == h.delivered + (|h.asked| - c.unsent - c.unacked) - ClientPolls(c, h)
  }

  ghost predicate WorkerCounts(w: Worker, h: History) {
    && |h.served| == Rounds(w, h) + Bit(w.pc.PostReply? || w.pc.PollReply?)
    && |w.ring| == REQUEST_BACKLOG + Rounds(w, h) + Bit(!w.pc.PostSlot?) - h.arrived
    && |w.cq| == h.arrived + (|h.answers| - w.unsent - w.unacked) - WorkerPolls(w, h)
  }

  /** Each stage of a request's journey is behind the previous one, and the client is at
      most one request ahead of the replies it has received. */
  ghost predicate Pipeline(s: State) {
    && |s.net.toClient| == |s.h.answers| - s.w.unsent - s.h.delivered
    && |s.h.answers| <= s.h.arrived
    && |s.net.toServer| == |s.h.asked| - s.c.unsent - s.h.arrived
    && |s.h.asked| <= s.h.delivered + 1
  }

  /** At most one send of each side is under way. */
  ghost predicate OneSend(s: State) {
    && s.c.unsent + s.c.unacked <= Bit(s.h.asked != [])
    && s.w.unsent + s.w.unacked <= Bit(s.h.answers != [])
  }

  ghost predicate Flow(s: State) {
    ClientCounts(s.c, s.h) && WorkerCounts(s.w, s.h) && Pipeline(s) && OneSend(s)
  }

  lemma ClientCountsKept(s: State, step: Step)
    requires Enabled(s, step) && ClientCounts(s.c, s.h)
    ensures var t := Do(s, step); ClientCounts(t.c, t.h)
  {
  }

  lemma WorkerCountsKept(s: State, step: Step)
    requires Enabled(s, step) && WorkerCounts(s.w, s.h)
    ensures var t := Do(s, step); WorkerCounts(t.w, t.h)
  {
  }

  /** The worker has one reply to give when it is about to give it. */
  lemma AnswerIsDue(s: State)
    requires Flow(s) && s.w.pc.PostReply?
    ensures s.h.arrived == |s.h.answers| + 1 && s.w.unsent == 0 && s.w.unacked == 0
  {
  }

  /** The client is up to date when it is about to ask. */
  lemma RequestIsDue(s: State)
    requires Flow(s) && s.c.pc.PostRequest?
    ensures s.h.delivered == |s.h.asked| && s.c.unsent == 0 && s.c.unacked == 0
  {
  }

  lemma PipelineKept(s: State, step: Step)
    requires Enabled(s, step) && Pipeline(s)
    requires step.PostTheReply? ==> s.h.arrived == |s.h.answers| + 1
    requires step.PostTheRequest? ==> s.h.delivered == |s.h.asked|
    ensures var t := Do(s, step); Pipeline(t)
  {
  }

  lemma OneSendKept(s: State, step: Step)
    requires Enabled(s, step) && OneSend(s)
    requires step.PostTheReply? ==> s.w.unsent == 0 && s.w.unacked == 0
    requires step.PostTheRequest? ==> s.c.unsent == 0 && s.c.unacked == 0
    ensures var t := Do(s, step); OneSend(t)
  {
  }

  // ---------- what counting alone gives: no buffer is reused too early ----------

  /** The worker clears its response only when every earlier response send has completed,
      although its second poll may have taken the next request's completion instead. */
  lemma ReplyBufferIsFree(s: State)
    requires Flow(s) && (s.w.pc.Clear? || s.w.pc.Handle? || s.w.pc.PostReply?)
    ensures s.w.unsent == 0 && s.w.unacked == 0
  {
  }

  /** When the worker has polled for a request, that request has arrived and no other. */
  lemma PolledRequestIsHere(s: State)
    requires Flow(s) && !s.w.pc.PostSlot? && !s.w.pc.PollRequest? && !s.w.pc.PollReply?
    ensures s.h.arrived == |s.h.answers| + 1
  {
  }

  /** The client refills its request only when its send has completed and its reply is in. */
  lemma RequestBufferIsFree(s: State)
    requires Flow(s) && (s.c.pc.Make? || s.c.pc.PostRequest?)
    ensures s.c.unsent == 0 && s.c.unacked == 0
    ensures s.h.delivered == |s.h.asked| == |s.h.answers| == |s.h.got|
  {
  }

  /** No queue overruns its capacity: at most six receives posted by the worker and two by
      the client, one send each, two completions waiting on each side; and a message on the
      wire always finds a posted receive. */
  lemma NoOverrun(s: State)
    requires Flow(s)
    ensures |s.w.ring| <= 6 <= MAX_WR && s.c.receives <= 2 <= MAX_WR
    ensures s.c.unsent + s.c.unacked <= 1 && s.w.unsent + s.w.unacked <= 1
    ensures |s.c.cq| <= 2 <= CQ_CAPACITY && |s.w.cq| <= 2 <= CQ_CAPACITY
    ensures s.net.toServer != [] ==> |s.w.ring| >= 5
    ensures s.net.toClient != [] ==> s.c.receives >= 1
  {
  }

  // ---------- contents ----------

  /** The posted receive slots are consecutive, starting with the one the next request fills. */
  ghost predicate RingConsecutive(w: Worker, h: History) {
    |w.slots| == REQUEST_BACKLOG && forall i :: 0 <= i < |w.ring| ==> w.ring[i] == (h.arrived + i) % REQUEST_BACKLOG
  }

  /** The worker's counter names the slot of the request it handles next. */
  ghost predicate CountAligned(w: Worker, h: History) {
    && w.count == (Rounds(w, h) + Bit(w.pc.Clear? || w.pc.Handle? || w.pc.PostReply? || w.pc.PollReply?)) % REQUEST_BACKLOG
    && (w.pc.Advance? || w.pc.Clear? || w.pc.Handle? ==> w.current == Rounds(w, h) % REQUEST_BACKLOG)
  }

  /** The newest request to arrive is in its slot. */
  ghost predicate SlotFilled(w: Worker, h: History) {
    0 < h.arrived <= |h.asked| && |w.slots| == REQUEST_BACKLOG ==>
      w.slots[(h.arrived - 1) % REQUEST_BACKLOG] == h.asked[h.arrived - 1]
  }

  /** The client's request buffer holds its last request until the next is filled in. */
  ghost predicate RequestBuffer(c: Client, asked: seq<Request>) {
    && (c.pc.PostRequest? ==> Proper(c.request))
    && (!c.pc.PostRequest? && asked != [] ==> c.request == asked[|asked| - 1])
    && forall i :: 0 <= i < |asked| ==> Proper(asked[i])
  }

  /** The client's response buffer holds the last reply that reached it. */
  ghost predicate ResponseBuffer(c: Client, h: History) {
    0 < h.delivered <= |h.answers| ==> c.response == h.answers[h.delivered - 1]
  }

  /** The worker's response buffer holds its last reply until it is cleared. */
  ghost predicate ReplyBuffer(w: Worker, h: History) {
    && (w.pc.Handle? ==> w.reply == CLEARED)
    && (w.pc.PostReply? ==> h.served != [] && w.reply == h.served[|h.served| - 1].reply)
    && (!w.pc.Handle? && !w.pc.PostReply? && h.answers != [] ==> w.reply == h.answers[|h.answers| - 1])
  }

  ghost predicate ToServer(net: Wire, h: History) {
    forall i :: 0 <= i < |net.toServer| && h.arrived + i < |h.asked| ==> net.toServer[i] == h.asked[h.arrived + i]
  }

  ghost predicate ToClient(net: Wire, h: History) {
    forall i :: 0 <= i < |net.toClient| && h.delivered + i < |h.answers| ==>
      net.toClient[i] == h.answers[h.delivered + i]
  }

  /** The reply is the store's answer to this very request, on the table it met. */
  ghost predicate AnsweredBy(v: Served, r: Request) {
    v.request == r && |v.before| == CAPACITY && v.reply == Process(v.before, r).reply
  }

  /** What was handled is what was asked, in order, with the reply of the store. */
  ghost predicate ServedInOrder(h: History) {
    && |h.served| <= |h.asked|
    && forall i :: 0 <= i < |h.served| ==> AnsweredBy(h.served[i], h.asked[i])
  }

  /** What was answered is what was handled, and what was read back is what was answered. */
  ghost predicate AnswersInOrder(h: History) {
    && |h.got| <= |h.answers| <= |h.served|
    && (forall i :: 0 <= i < |h.answers| ==> h.answers[i] == h.served[i].reply)
    && (forall i :: 0 <= i < |h.got| ==> h.got[i] == h.answers[i])
  }

  ghost predicate Memory(s: State) {
    && RingConsecutive(s.w, s.h) && CountAligned(s.w, s.h) && SlotFilled(s.w, s.h)
    && RequestBuffer(s.c, s.h.asked) && ResponseBuffer(s.c, s.h) && ReplyBuffer(s.w, s.h)
    && ToServer(s.net, s.h) && ToClient(s.net, s.h)
  }

  ghost predicate Inv(s: State) {
    Flow(s) && Memory(s) && ServedInOrder(s.h) && AnswersInOrder(s.h)
  }

  /** The slot posted next follows the posted ones. */
  lemma NextSlot(s: State)
    requires WorkerCounts(s.w, s.h) && CountAligned(s.w, s.h) && s.w.pc.PostSlot?
    ensures s.w.count == (s.h.arrived + |s.w.ring|) % REQUEST_BACKLOG
  {
    assert s.h.arrived + |s.w.ring| == REQUEST_BACKLOG + |s.h.answers|;
  }

  lemma RingKept(s: State, step: Step)
    requires Enabled(s, step) && RingConsecutive(s.w, s.h)
    requires step.PostTheSlot? ==> s.w.count == (s.h.arrived + |s.w.ring|) % REQUEST_BACKLOG
    ensures var t := Do(s, step); RingConsecutive(t.w, t.h)
  {
  }

  lemma CountKept(s: State, step: Step)
    requires Enabled(s, step) && CountAligned(s.w, s.h) && WorkerCounts(s.w, s.h)
    ensures var t := Do(s, step); CountAligned(t.w, t.h)
  {
  }

  lemma SlotKept(s: State, step: Step)
    requires Enabled(s, step) && RingConsecutive(s.w, s.h) && SlotFilled(s.w, s.h) && ToServer(s.net, s.h) && Pipeline(s)
    ensures var t := Do(s, step); SlotFilled(t.w, t.h)
  {
  }

  lemma RequestBufferKept(s: State, step: Step)
    requires Enabled(s, step) && RequestBuffer(s.c, s.h.asked)
    ensures var t := Do(s, step); RequestBuffer(t.c, t.h.asked)
  {
  }

  lemma ResponseBufferKept(s: State, step: Step)
    requires Enabled(s, step) && ResponseBuffer(s.c, s.h) && ToClient(s.net, s.h) && Pipeline(s)
    ensures var t := Do(s, step); ResponseBuffer(t.c, t.h)
  {
  }

  lemma ReplyBufferKept(s: State, step: Step)
    requires Enabled(s, step) && ReplyBuffer(s.w, s.h)
    ensures var t := Do(s, step); ReplyBuffer(t.w, t.h)
  {
  }

  lemma ToServerKept(s: State, step: Step)
    requires Enabled(s, step) && ToServer(s.net, s.h) && Flow(s) && RequestBuffer(s.c, s.h.asked)
    ensures var t := Do(s, step); ToServer(t.net, t.h)
  {
  }

  lemma ToClientKept(s: State, step: Step)
    requires Enabled(s, step) && ToClient(s.net, s.h) && Flow(s) && ReplyBuffer(s.w, s.h)
    ensures var t := Do(s, step); ToClient(t.net, t.h)
  {
  }

  /** The slot the worker reads holds the request it is about to handle. */
  lemma HandledSlot(s: State)
    requires Flow(s) && CountAligned(s.w, s.h) && SlotFilled(s.w, s.h) && RingConsecutive(s.w, s.h)
    requires s.w.pc.Dispatch? || s.w.pc.Advance? || s.w.pc.Clear? || s.w.pc.Handle?
    ensures |s.h.served| < |s.h.asked| && |s.h.served| == |s.h.answers|
    ensures s.w.slots[if s.w.pc.Dispatch? then s.w.count else s.w.current] == s.h.asked[|s.h.served|]
  {
    PolledRequestIsHere(s);
  }

  lemma ServedKept(s: State, step: Step)
    requires Enabled(s, step) && ServedInOrder(s.h)
    requires step.HandleIt? ==> |s.h.served| < |s.h.asked| && s.w.slots[s.w.current] == s.h.asked[|s.h.served|]
    requires step.HandleIt? ==> s.w.reply == CLEARED
    ensures var t := Do(s, step); ServedInOrder(t.h)
  {
    if step.HandleIt? {
      FilledFromClear(step.before, s.w.slots[s.w.current]);
    }
  }

  /** In a cleared buffer a handler leaves exactly the store's reply. */
  lemma FilledFromClear(t: Table, r: Request)
    requires |t| == CAPACITY
    ensures Filled(CLEARED, r, Process(t, r).reply) == Process(t, r).reply
  {
  }

  /** After both polls of a round, its reply has been delivered. */
  lemma ReplyIsHere(s: State)
    requires Flow(s) && s.c.pc.PollReceived? && s.c.cq != []
    ensures s.h.delivered == |s.h.got| + 1 <= |s.h.answers|
  {
  }

  lemma AnswersKept(s: State, step: Step)
    requires Enabled(s, step) && AnswersInOrder(s.h)
    requires step.PostTheReply? ==> |s.h.served| == |s.h.answers| + 1 && s.w.reply == s.h.served[|s.h.answers|].reply
    requires step.PollForReply? ==> |s.h.got| < |s.h.answers| && s.c.response == s.h.answers[|s.h.got|]
    ensures AnswersInOrder(Do(s, step).h)
  {
  }

  lemma InitInv(s: State)
    requires Init(s)
    ensures Inv(s)
  {
  }

  lemma FlowKept(s: State, step: Step)
    requires Flow(s) && Enabled(s, step)
    ensures Flow(Do(s, step))
  {
    if step.PostTheReply? {
      AnswerIsDue(s);
    } else if step.PostTheRequest? {
      RequestIsDue(s);
    }
    ClientCountsKept(s, step);
    WorkerCountsKept(s, step);
    PipelineKept(s, step);
    OneSendKept(s, step);
  }

  lemma MemoryKept(s: State, step: Step)
    requires Inv(s) && Enabled(s, step)
    ensures Memory(Do(s, step))
  {
    if step.PostTheSlot? {
      NextSlot(s);
    }
    RingKept(s, step);
    CountKept(s, step);
    SlotKept(s, step);
    RequestBufferKept(s, step);
    ResponseBufferKept(s, step);
    ReplyBufferKept(s, step);
    ToServerKept(s, step);
    ToClientKept(s, step);
  }

  lemma InvKept(s: State, step: Step)
    requires Inv(s) && Enabled(s, step)
    ensures Inv(Do(s, step))
  {
    FlowKept(s, step);
    MemoryKept(s, step);
    HistoriesKept(s, step);
  }

  /** The reply about to be posted is the last one made. */
  lemma ReplyIsDue(s: State)
    requires Flow(s) && ReplyBuffer(s.w, s.h) && s.w.pc.PostReply?
    ensures |s.h.served| == |s.h.answers| + 1 && s.w.reply == s.h.served[|s.h.answers|].reply
  {
  }

  /** The reply about to be read is the one to the client's last request. */
  lemma ReplyIsRead(s: State)
    requires Flow(s) && ResponseBuffer(s.c, s.h) && s.c.pc.PollReceived? && s.c.cq != []
    ensures |s.h.got| < |s.h.answers| && s.c.response == s.h.answers[|s.h.got|]
  {
    ReplyIsHere(s);
  }

  lemma HistoriesKept(s: State, step: Step)
    requires Inv(s) && Enabled(s, step)
    ensures ServedInOrder(Do(s, step).h) && AnswersInOrder(Do(s, step).h)
  {
    if step.HandleIt? {
      HandledSlot(s);
    } else if step.PollForReply? {
      ReplyIsRead(s);
    } else if step.PostTheReply? {
      ReplyIsDue(s);
    }
    ServedKept(s, step);
    AnswersKept(s, step);
  }

  // ---------- whole runs ----------

  /** A schedule: the steps taken, by whichever party, one after the other. */
  ghost predicate Reaches(s: State, steps: seq<Step>, t: State)
    decreases |steps|
  {
    if steps == [] then s == t
    else Enabled(s, steps[0]) && Reaches(Do(s, steps[0]), steps[1..], t)
  }

  lemma {:induction false} InvAlways(s: State, steps: seq<Step>, t: State)
    requires Inv(s) && Reaches(s, steps, t)
    ensures Inv(t)
    decreases |steps|
  {
    if steps != [] {
      InvKept(s, steps[0]);
      InvAlways(Do(s, steps[0]), steps[1..], t);
    }
  }

  /** The requests made over a schedule, and the tables the store had when they were handled. */
  function Requests(steps: seq<Step>): seq<Request> {
    if steps == [] then []
    else (if steps[0].MakeRequest? then [steps[0].r] else []) + Requests(steps[1..])
  }

  function Tables(steps: seq<Step>): seq<Table> {
    if steps == [] then []
    else (if steps[0].HandleIt? then [steps[0].before] else []) + Tables(steps[1..])
  }

  /** Requests posted, and the one filled in but not yet posted. */
  function AllMade(s: State): seq<Request> {
    s.h.asked + (if s.c.pc.PostRequest? then [s.c.request] else [])
  }

  function TablesMet(served: seq<Served>): (ts: seq<Table>)
    ensures |ts| == |served| && forall i :: 0 <= i < |ts| ==> ts[i] == served[i].before
  {
    seq(|served|, i requires 0 <= i < |served| => served[i].before)
  }

  lemma StepMakes(s: State, step: Step)
    requires Enabled(s, step)
    ensures AllMade(Do(s, step)) == AllMade(s) + (if step.MakeRequest? then [step.r] else [])
    ensures TablesMet(Do(s, step).h.served) == TablesMet(s.h.served) + (if step.HandleIt? then [step.before] else [])
  {
  }

  /** What is posted is what was made, in order; only the last may not be posted yet. */
  lemma {:induction false} AskedIsMade(s: State, steps: seq<Step>, t: State)
    requires Reaches(s, steps, t)
    ensures AllMade(t) == AllMade(s) + Requests(steps)
    decreases |steps|
  {
    if steps != [] {
      StepMakes(s, steps[0]);
      AskedIsMade(Do(s, steps[0]), steps[1..], t);
    }
  }

  /** What is handled meets the tables of the schedule. */
  lemma {:induction false} ServedMeetTables(s: State, steps: seq<Step>, t: State)
    requires Reaches(s, steps, t)
    ensures TablesMet(t.h.served) == TablesMet(s.h.served) + Tables(steps)
    decreases |steps|
  {
    if steps != [] {
      StepMakes(s, steps[0]);
      ServedMeetTables(Do(s, steps[0]), steps[1..], t);
    }
  }

  /** Handled is what was asked, read back is what was answered. */
  ghost predicate InOrder(h: History) {
    && |h.got| <= |h.served| <= |h.asked|
    && (forall k :: 0 <= k < |h.asked| ==> Proper(h.asked[k]))
    && (forall k :: 0 <= k < |h.served| ==> AnsweredBy(h.served[k], h.asked[k]))
    && (forall k :: 0 <= k < |h.got| ==> h.got[k] == h.served[k].reply)
  }

  lemma HistoryInOrder(s: State, steps: seq<Step>, t: State)
    requires Init(s) && Reaches(s, steps, t)
    ensures InOrder(t.h) && AllMade(t) == Requests(steps) && TablesMet(t.h.served) == Tables(steps)
  {
    InitInv(s);
    InvAlways(s, steps, t);
    AskedIsMade(s, steps, t);
    ServedMeetTables(s, steps, t);
  }

  /** End to end, for every schedule of programs, cards and wire: the k-th request handled
      is the k-th request made, and what the client reads back in its k-th round is the
      store's reply to exactly that request, on the table the store had then. */
  lemma EndToEnd(s: State, steps: seq<Step>, t: State)
    requires Init(s) && Reaches(s, steps, t)
    ensures Requests(steps) == t.h.asked + (if t.c.pc.PostRequest? then [t.c.request] else [])
    ensures |t.h.got| <= |Tables(steps)| == |t.h.served| <= |t.h.asked| <= |Requests(steps)|
    ensures forall k :: 0 <= k < |t.h.asked| ==> Proper(Requests(steps)[k])
    ensures forall k :: 0 <= k < |t.h.served| ==>
              t.h.served[k].before == Tables(steps)[k] && AnsweredBy(t.h.served[k], Requests(steps)[k])
    ensures forall k :: 0 <= k < |t.h.got| ==>
              |Tables(steps)[k]| == CAPACITY && t.h.got[k] == Process(Tables(steps)[k], Requests(steps)[k]).reply
  {
    HistoryInOrder(s, steps, t);
    assert forall k :: 0 <= k < |t.h.asked| ==> Requests(steps)[k] == t.h.asked[k];
    assert forall k :: 0 <= k < |t.h.served| ==> t.h.served[k].before == Tables(steps)[k];
  }

  /** Buffer safety and queue bounds, for every schedule. */
  lemma NeverReusedEarly(s: State, steps: seq<Step>, t: State)
    requires Init(s) && Reaches(s, steps, t)
    ensures t.w.pc.Clear? || t.w.pc.Handle? || t.w.pc.PostReply? ==> t.w.unsent == 0 && t.w.unacked == 0
    ensures t.c.pc.Make? ==> t.c.unsent == 0 && t.c.unacked == 0 && |t.h.got| == |t.h.asked|
    ensures |t.w.ring| <= 6 && t.c.receives <= 2 && |t.c.cq| <= 2 && |t.w.cq| <= 2
  {
    InitInv(s);
    InvAlways(s, steps, t);
    NoOverrun(t);
    if t.c.pc.Make? {
      RequestBufferIsFree(t);
    }
    if t.w.pc.Clear? || t.w.pc.Handle? || t.w.pc.PostReply? {
      ReplyBufferIsFree(t);
    }
  }

  lemma SameSlot(n: nat, i: int)
    ensures (n + i) % REQUEST_BACKLOG == (n % REQUEST_BACKLOG + i) % REQUEST_BACKLOG
  {
    assert n == 5 * (n / 5) + n % 5;
  }

  /** At the top of an iteration the posted receives are slots count .. count + 4 modulo
      five, less the first if the next request is already in; after the extra post they are
      followed by slot count again. */
  ghost predicate PostedAhead(w: Worker, h: History) {
    var early := h.arrived - |h.answers|;
    w.pc.PostSlot? || w.pc.PollRequest? ==>
      && |w.ring| == REQUEST_BACKLOG + Bit(w.pc.PollRequest?) - early
      && forall i :: 0 <= i < |w.ring| ==> w.ring[i] == (w.count + early + i) % REQUEST_BACKLOG
  }

  lemma SlotsPostedAhead(w: Worker, h: History)
    requires WorkerCounts(w, h) && RingConsecutive(w, h) && CountAligned(w, h)
    ensures PostedAhead(w, h)
  {
    var early := h.arrived - |h.answers|;
    if w.pc.PostSlot? || w.pc.PollRequest? {
      forall i | 0 <= i < |w.ring|
        ensures w.ring[i] == (w.count + early + i) % REQUEST_BACKLOG
      {
        SameSlot(|h.answers|, early + i);
      }
    }
  }

  /** Slot alignment, for every schedule: the posted receives run ahead of the counter, and
      when the worker dispatches it reads the slot its request was delivered to. */
  lemma RingStaysAligned(s: State, steps: seq<Step>, t: State)
    requires Init(s) && Reaches(s, steps, t)
    ensures PostedAhead(t.w, t.h)
    ensures t.w.pc.Dispatch? ==> t.w.count < |t.w.slots| && |t.h.served| < |t.h.asked| &&
                                 t.w.slots[t.w.count] == t.h.asked[|t.h.served|]
  {
    InitInv(s);
    InvAlways(s, steps, t);
    SlotsPostedAhead(t.w, t.h);
    if t.w.pc.Dispatch? {
      HandledSlot(t);
    }
  }

  /** The machine never wedges: in every run, whenever the client is inside a round, some step
      other than making a new request is possible. */
  lemma NoDeadlock(s: State, steps: seq<Step>, t: State) returns (step: Step)
    requires Init(s) && Reaches(s, steps, t) && !t.c.pc.Make?
    ensures Enabled(t, step) && !step.MakeRequest?
  {
    InitInv(s);
    InvAlways(s, steps, t);
    step := SomethingMoves(t);
  }

  lemma SomethingMoves(s: State) returns (step: Step)
    requires Inv(s) && !s.c.pc.Make?
    ensures Enabled(s, step) && !step.MakeRequest?
  {
    if s.c.pc.PostRequest? {
      step := PostTheRequest;
    } else if s.c.pc.PostReceive? {
      step := PostTheReceive;
    } else if s.c.cq != [] {
      step := if s.c.pc.PollSent? then PollForSend else PollForReply;
    } else if s.c.unsent > 0 {
      step := ClientTransmits;
    } else if s.c.unacked > 0 {
      step := ClientSendCompletes;
    } else if s.net.toClient != [] {
      NoOverrun(s);
      step := ReplyArrives;
    } else if s.w.unsent > 0 {
      step := ServerTransmits;
    } else if s.net.toServer != [] {
      NoOverrun(s);
      assert s.w.ring[0] == s.h.arrived % REQUEST_BACKLOG;
      step := RequestArrives;
    } else {
      step := WorkerMoves(s);
    }
  }

  lemma WorkerMoves(s: State) returns (step: Step)
    requires Inv(s) && |s.h.asked| == s.h.arrived == s.h.delivered + 1 && s.net.toClient == [] && s.w.unsent == 0
    ensures Enabled(s, step) && !step.MakeRequest?
  {
    match s.w.pc
    case PostSlot => step := PostTheSlot;
    case PollRequest => step := if s.w.unacked > 0 then ServerSendCompletes else PollForRequest;
    case Dispatch =>
      HandledSlot(s);
      step := DispatchIt;
    case Advance => step := AdvanceRing;
    case Clear => step := ClearReply;
    case Handle => step := HandleIt(EmptyTable());
    case PostReply => step := PostTheReply;
    case PollReply => step := if s.w.unacked > 0 then ServerSendCompletes else PollForSent;
  }

  // ---------- every round ends ----------

  /** The steps the client's program and card have taken, as their counters tell. */
  function ClientSteps(c: Client, h: History): int {
    var waiting, reading := Bit(c.pc.PostReceive? || c.pc.PollReceived?), Bit(c.pc.PollReceived?);
    2 * |h.asked| + Bit(c.pc.PostRequest?) + 3 * |h.got| + waiting + reading
    + (|h.asked| - c.unsent) + (|h.asked| - c.unsent - c.unacked)
  }

  /** And the worker's: its program's place in an iteration, and its card. */
  function WorkerSteps(w: Worker, h: History): int {
    8 * Rounds(w, h) + Place(w.pc) + (|h.answers| - w.unsent) + (|h.answers| - w.unsent - w.unacked)
  }

  function Place(pc: WorkerPc): nat {
    match pc
    case PostSlot => 0
    case PollRequest => 1
    case Dispatch => 2
    case Advance => 3
    case Clear => 4
    case Handle => 5
    case PostReply => 6
    case PollReply => 7
  }

  function StepsTaken(s: State): int {
    ClientSteps(s.c, s.h) + WorkerSteps(s.w, s.h) + s.h.arrived + s.h.delivered
  }

  predicate OfClient(step: Step) {
    || step.MakeRequest? || step.PostTheRequest? || step.PollForSend? || step.PostTheReceive? || step.PollForReply?
    || step.ClientTransmits? || step.ClientSendCompletes?
  }

  predicate OfWire(step: Step) {
    step.RequestArrives? || step.ReplyArrives?
  }

  lemma ClientStepCounts(s: State, step: Step)
    requires Enabled(s, step)
    ensures var t := Do(s, step); ClientSteps(t.c, t.h) == ClientSteps(s.c, s.h) + Bit(OfClient(step))
  {
  }

  lemma WorkerStepCounts(s: State, step: Step)
    requires Enabled(s, step)
    ensures var t := Do(s, step); WorkerSteps(t.w, t.h) == WorkerSteps(s.w, s.h) + Bit(!OfClient(step) && !OfWire(step))
  {
  }

  lemma WireStepCounts(s: State, step: Step)
    requires Enabled(s, step)
    ensures var t := Do(s, step); t.h.arrived + t.h.delivered == s.h.arrived + s.h.delivered + Bit(OfWire(step))
  {
  }

  lemma EveryStepCounts(s: State, step: Step)
    requires Enabled(s, step)
    ensures StepsTaken(Do(s, step)) == StepsTaken(s) + 1
  {
    ClientStepCounts(s, step);
    WorkerStepCounts(s, step);
    WireStepCounts(s, step);
  }

  lemma {:induction false} RunCounts(s: State, steps: seq<Step>, t: State)
    requires Reaches(s, steps, t)
    ensures StepsTaken(t) == StepsTaken(s) + |steps|
    decreases |steps|
  {
    if steps != [] {
      EveryStepCounts(s, steps[0]);
      RunCounts(Do(s, steps[0]), steps[1..], t);
    }
  }

  /** No counter is ahead of the requests made, but for one slot posted for the next. */
  lemma StepsBounded(s: State)
    requires Flow(s) && |s.h.served| <= |s.h.asked|
    ensures StepsTaken(s) <= 19 * |AllMade(s)| + 1
  {
  }

  /** Every round ends, with no assumption of fairness: a run with n requests made has at most
      19 n + 1 steps, and if it cannot go on but by a new request, the client has read back
      the replies to all n. */
  lemma EveryRoundEnds(s: State, steps: seq<Step>, t: State)
    requires Init(s) && Reaches(s, steps, t)
    ensures |steps| <= 19 * |Requests(steps)| + 1
    ensures (forall step :: Enabled(t, step) ==> step.MakeRequest?) ==> |t.h.got| == |t.h.asked| == |Requests(steps)|
  {
    InitInv(s);
    InvAlways(s, steps, t);
    RunCounts(s, steps, t);
    AskedIsMade(s, steps, t);
    StepsBounded(t);
    if forall step :: Enabled(t, step) ==> step.MakeRequest? {
      if !t.c.pc.Make? {
        var step := NoDeadlock(s, steps, t);
      }
      RequestBufferIsFree(t);
    }
  }
}
