/** The retransmission protocol that a session runs over a packet transport, as a step system.

    Two endpoints exchange packets over a network that loses, duplicates and reorders them.  An
    event is one operation that a lock or an atomic variable of the session makes indivisible, so
    the writer, the output loop, the input loop and the reader interleave freely. */
module Arq {
  import opened Bytes
  import opened Fragmentation

  const TREE_CAPACITY: nat := 4096
  const RECV_QUEUE_CAPACITY: nat := 1024 * 1024
  const MIN_WINDOW: nat := 16
  const MAX_WINDOW: nat := 4096
  const TX_COUNT_LIMIT: nat := 20
  const EARLY_RETRANSMISSION: nat := 3
  const EARLY_RETRANSMISSION_LIMIT: nat := 1

  /** A segment waiting to be sent; its sequence number is its key in the tree that holds it. */
  datatype Segment = Segment(isOpen: bool, payload: bytes, window: nat, fragment: byte)

  /** A segment sent and not acknowledged yet. */
  datatype Sent = Sent(segment: Segment, txCount: nat, ackCount: byte)

  /** What travels.  Open requests and responses use session metadata, which has no
      acknowledgement number; data and acknowledgement packets carry one. */
  datatype Packet =
    | OpenPacket(sn: nat, payload: bytes)
    | DataPacket(sn: nat, payload: bytes, unAck: nat, window: nat, fragment: byte)
    | AckPacket(sn: nat, unAck: nat, window: nat)

  predicate HasUnAck(p: Packet) {
    !p.OpenPacket?
  }

  predicate HasSegment(p: Packet) {
    !p.AckPacket?
  }

  function Wire(sn: nat, segment: Segment, unAck: nat): Packet {
    if segment.isOpen then OpenPacket(sn, segment.payload)
    else DataPacket(sn, segment.payload, unAck, segment.window, segment.fragment)
  }

  // ---------------------------------------------------------------------------------------------
  // Segment trees
  // ---------------------------------------------------------------------------------------------

  /** A segment tree refuses a segment when it is full, even one that would replace another. */
  function Insert<T>(tree: map<nat, T>, capacity: nat, sn: nat, item: T): map<nat, T> {
    if |tree| >= capacity then tree else tree[sn := item]
  }

  ghost predicate IsMin<T>(tree: map<nat, T>, k: nat) {
    k in tree && forall j :: j in tree ==> k <= j
  }

  /** The tree holds exactly the sequence numbers of [lo, hi). */
  ghost predicate HoldsRange<T>(tree: map<nat, T>, lo: int, hi: int) {
    forall k: nat :: k in tree <==> lo <= k < hi
  }

  // ---------------------------------------------------------------------------------------------
  // The sending half of a session: the writer, the output loop and the acknowledgement handling
  // ---------------------------------------------------------------------------------------------

  /** What the output loop has taken from sendQueue and not put in sendBuf yet. */
  datatype Hand = EmptyHand | Holding(sn: nat, segment: Segment)

  /** The last five fields are history: they record what happened, and only `Dequeue` looks at one, for
      the congestion windows that the output loop can have read. */
  datatype Sender = Sender(
    isClient: bool,
    openQueued: bool,               // open request (client) or open response (server) was queued
    sendQueue: map<nat, Segment>,
    reserved: nat,                  // fragments the writer found room for and has not queued yet
    inHand: Hand,
    sendBuf: map<nat, Sent>,
    nextSend: nat,
    congestionWindow: nat,
    remoteWindow: nat,
    log: seq<Segment>,              // every segment ever queued, by sequence number
    txLog: seq<nat>,                // how many times each of them was transmitted
    dequeued: nat,                  // segments that left sendQueue
    acked: nat,                     // segments that left sendBuf
    windows: set<nat>               // every congestion window since a segment last left sendQueue
  )

  datatype TxEvent =
    | QueueOpenRequest(payload: bytes)
    | QueueOpenResponse
    | Reserve(n: nat)
    | QueueFragment(payload: bytes, window: nat, fragment: byte)
    | Abandon
    | Dequeue(sn: nat, window: nat)
    | Transmit(unAck: nat)
    | Retransmit(sn: nat, unAck: nat)
    | SendAck(unAck: nat, window: nat)
    | SetCongestionWindow(size: nat)
    | DropAcked(sn: nat, packet: Packet)
    | StoreWindow(packet: Packet)
    | CountAck(packet: Packet)

  /** How many more segments may be sent now. */
  function SendWindow(t: Sender): nat {
    Max(0, Min(t.congestionWindow - |t.sendBuf|, t.remoteWindow))
  }

  /** A segment leaves the queue only while fewer are in flight than the congestion window that the
      output loop has read for it; the loop reads that window, the number in flight and the remote
      window one after another, and the input loop may change them meanwhile. */
  ghost predicate TxEnabled(t: Sender, ev: TxEvent, inbox: set<Packet>) {
    match ev
    case QueueOpenRequest(payload) => t.isClient && !t.openQueued && |payload| <= MAX_OPEN_PAYLOAD
    case QueueOpenResponse => !t.isClient && !t.openQueued && exists p :: p in inbox && p.OpenPacket?
    case Reserve(n) => (t.isClient ==> t.openQueued) && t.reserved == 0 && TREE_CAPACITY - |t.sendQueue| > n
    case QueueFragment(_, _, _) => t.reserved > 0
    case Abandon => true
    case Dequeue(k, window) =>
      && t.inHand.EmptyHand? && TREE_CAPACITY - |t.sendBuf| > 1 && IsMin(t.sendQueue, k)
      && window in t.windows && |t.sendBuf| < window
    case Transmit(_) => t.inHand.Holding?
    case Retransmit(k, _) => k in t.sendBuf && t.sendBuf[k].txCount < TX_COUNT_LIMIT
    case SendAck(_, _) => true
    case SetCongestionWindow(size) => MIN_WINDOW <= size <= MAX_WINDOW
    case DropAcked(k, p) => p in inbox && HasUnAck(p) && IsMin(t.sendBuf, k) && k < p.unAck
    case StoreWindow(p) => HasUnAck(p)
    case CountAck(p) => p in inbox && p.AckPacket?
  }

  /** The sequence number is used up whether or not the tree accepts the segment. */
  function QueueSegment(t: Sender, segment: Segment): Sender {
    t.(sendQueue := Insert(t.sendQueue, TREE_CAPACITY, t.nextSend, segment),
       nextSend := t.nextSend + 1,
       log := t.log + [segment],
       txLog := t.txLog + [0])
  }

  function CountTransmission(txLog: seq<nat>, k: nat): seq<nat> {
    if k < |txLog| then txLog[k := txLog[k] + 1] else txLog
  }

  ghost function TxApply(t: Sender, ev: TxEvent, inbox: set<Packet>): Sender
    requires TxEnabled(t, ev, inbox)
  {
    match ev
    case QueueOpenRequest(payload) => QueueSegment(t, Segment(true, payload, 0, 0)).(openQueued := true)
    case QueueOpenResponse => QueueSegment(t, Segment(true, [], 0, 0)).(openQueued := true)
    case Reserve(n) => t.(reserved := n)
    case QueueFragment(payload, window, fragment) =>
      QueueSegment(t, Segment(false, payload, window, fragment)).(reserved := t.reserved - 1)
    case Abandon => t.(reserved := 0)
    case Dequeue(k, _) =>
      t.(inHand := Holding(k, t.sendQueue[k]), sendQueue := t.sendQueue - {k}, dequeued := t.dequeued + 1,
         windows := {t.congestionWindow})
    case Transmit(_) =>
      var k, segment := t.inHand.sn, t.inHand.segment;
      t.(inHand := EmptyHand,
         sendBuf := Insert(t.sendBuf, TREE_CAPACITY, k, Sent(segment, 1, 0)),
         txLog := CountTransmission(t.txLog, k))
    case Retransmit(k, _) =>
      t.(sendBuf := t.sendBuf[k := Sent(t.sendBuf[k].segment, t.sendBuf[k].txCount + 1, 0)],
         txLog := CountTransmission(t.txLog, k))
    case SendAck(_, _) => t
    case SetCongestionWindow(size) => t.(congestionWindow := size, windows := t.windows + {size})
    case DropAcked(k, _) => t.(sendBuf := t.sendBuf - {k}, acked := t.acked + 1)
    case StoreWindow(p) => t.(remoteWindow := p.window)
    case CountAck(p) =>
      if p.unAck in t.sendBuf then
        var item := t.sendBuf[p.unAck];
        t.(sendBuf := t.sendBuf[p.unAck := item.(ackCount := (item.ackCount + 1) % 256)])
      else t
  }

  /** What the event puts on the network. */
  function Emits(t: Sender, ev: TxEvent): set<Packet> {
    match ev
    case Transmit(unAck) => if t.inHand.Holding? then {Wire(t.inHand.sn, t.inHand.segment, unAck)} else {}
    case Retransmit(k, unAck) => if k in t.sendBuf then {Wire(k, t.sendBuf[k].segment, unAck)} else {}
    case SendAck(unAck, window) => {AckPacket(Max(0, t.nextSend - 1), unAck, window)}
    case _ => {}
  }

  // ---------------------------------------------------------------------------------------------
  // The receiving half of a session: the input loop and the reader
  // ---------------------------------------------------------------------------------------------

  /** Where the input loop stands in delivering one packet. */
  datatype Phase = Idle | Moving | Taken(packet: Packet) | Queued

  /** The last three fields are history. */
  datatype Receiver = Receiver(
    recvBuf: map<nat, Packet>,
    recvQueue: map<nat, Packet>,
    phase: Phase,
    nextRecv: nat,
    unread: bytes,
    popped: nat,                    // segments that left recvQueue
    read: bytes,                    // bytes handed to the application
    latest: Option<Packet>          // the segment that was put in order last
  )

  datatype RxEvent =
    | Arrive(packet: Packet)
    | Take(sn: nat)
    | Enqueue
    | Advance
    | StopMoving
    | Pop(sn: nat)
    | Consume(n: nat)

  ghost predicate RxEnabled(r: Receiver, ev: RxEvent, inbox: set<Packet>) {
    match ev
    case Arrive(p) => p in inbox && HasSegment(p) && r.phase.Idle? && TREE_CAPACITY - |r.recvBuf| > 1
    case Take(k) =>
      r.phase.Moving? && RECV_QUEUE_CAPACITY - |r.recvQueue| > 1 && IsMin(r.recvBuf, k) && k <= r.nextRecv
    case Enqueue => r.phase.Taken?
    case Advance => r.phase.Queued?
    case StopMoving =>
      r.phase.Moving? && (RECV_QUEUE_CAPACITY - |r.recvQueue| <= 1 || forall k :: k in r.recvBuf ==> k > r.nextRecv)
    case Pop(k) => IsMin(r.recvQueue, k)
    case Consume(n) => n <= |r.unread|
  }

  function SegmentPayload(p: Packet): bytes {
    if HasSegment(p) then p.payload else []
  }

  ghost function RxApply(r: Receiver, ev: RxEvent, inbox: set<Packet>): Receiver
    requires RxEnabled(r, ev, inbox)
  {
    match ev
    case Arrive(p) => r.(recvBuf := Insert(r.recvBuf, TREE_CAPACITY, p.sn, p), phase := Moving)
    case Take(k) =>
      r.(recvBuf := r.recvBuf - {k}, phase := if k == r.nextRecv then Taken(r.recvBuf[k]) else Moving)
    case Enqueue =>
      r.(recvQueue := Insert(r.recvQueue, RECV_QUEUE_CAPACITY, r.phase.packet.sn, r.phase.packet), phase := Queued,
         latest := Some(r.phase.packet))
    case Advance => r.(nextRecv := r.nextRecv + 1, phase := Moving)
    case StopMoving => r.(phase := Idle)
    case Pop(k) =>
      r.(recvQueue := r.recvQueue - {k}, unread := r.unread + SegmentPayload(r.recvQueue[k]), popped := r.popped + 1)
    case Consume(n) => r.(read := r.read + r.unread[..n], unread := r.unread[n..])
  }

  // ---------------------------------------------------------------------------------------------
  // One endpoint
  // ---------------------------------------------------------------------------------------------

  datatype Endpoint = Endpoint(tx: Sender, rx: Receiver)

  datatype Event = Tx(tx: TxEvent) | Rx(rx: RxEvent)

  function Fresh(isClient: bool): Endpoint {
    Endpoint(
      Sender(isClient, false, map[], 0, EmptyHand, map[], 0, MIN_WINDOW, MIN_WINDOW, [], [], 0, 0, {MIN_WINDOW}),
      Receiver(map[], map[], Idle, 0, [], 0, [], None))
  }

  /** How many more segments may be received now. */
  function ReceiveWindow(e: Endpoint): nat {
    Max(0, e.tx.congestionWindow - |e.rx.recvBuf|)
  }

  /** Whether an event can happen, given every packet the peer has ever sent.  The
      acknowledgement number in an outgoing packet was read from `nextRecv` now or earlier, a window
      that is stored came with a packet or with the segment that was put in order last, and the
      window was computed from a congestion window and a buffer size read at different times. */
  ghost predicate Enabled(e: Endpoint, ev: Event, inbox: set<Packet>) {
    match ev
    case Tx(tx) =>
      && TxEnabled(e.tx, tx, inbox)
      && (tx.StoreWindow? ==> tx.packet in inbox || e.rx.latest == Some(tx.packet))
      && (tx.Transmit? || tx.Retransmit? || tx.SendAck? ==> tx.unAck <= e.rx.nextRecv)
    case Rx(rx) => RxEnabled(e.rx, rx, inbox)
  }

  ghost function Apply(e: Endpoint, ev: Event, inbox: set<Packet>): Endpoint
    requires Enabled(e, ev, inbox)
  {
    match ev
    case Tx(tx) => e.(tx := TxApply(e.tx, tx, inbox))
    case Rx(rx) => e.(rx := RxApply(e.rx, rx, inbox))
  }

  function Sends(e: Endpoint, ev: Event): set<Packet> {
    if ev.Tx? then Emits(e.tx, ev.tx) else {}
  }

  // ---------------------------------------------------------------------------------------------
  // Two endpoints and the network between them
  // ---------------------------------------------------------------------------------------------

  /** `toB` and `toA` hold every packet ever sent: a lost packet is one never used again, a
      duplicated one is used twice, and reordering is using them in any order. */
  datatype System = System(a: Endpoint, b: Endpoint, toB: set<Packet>, toA: set<Packet>)

  datatype Action = Action(atA: bool, event: Event)

  function Initial(): System {
    System(Fresh(true), Fresh(false), {}, {})
  }

  function Swap(s: System): System {
    System(s.b, s.a, s.toA, s.toB)
  }

  ghost predicate CanStep(s: System, act: Action) {
    if act.atA then Enabled(s.a, act.event, s.toA) else Enabled(s.b, act.event, s.toB)
  }

  ghost function StepA(s: System, ev: Event): System
    requires Enabled(s.a, ev, s.toA)
  {
    System(Apply(s.a, ev, s.toA), s.b, s.toB + Sends(s.a, ev), s.toA)
  }

  ghost function Step(s: System, act: Action): System
    requires CanStep(s, act)
  {
    if act.atA then StepA(s, act.event) else Swap(StepA(Swap(s), act.event))
  }

  /** A run is any list of actions, each possible where it happens. */
  ghost predicate CanExecute(s: System, acts: seq<Action>)
    decreases |acts|, 0
  {
    acts == [] || (var init := acts[..|acts| - 1];
                   CanExecute(s, init) && CanStep(Execute(s, init), acts[|acts| - 1]))
  }

  ghost function Execute(s: System, acts: seq<Action>): System
    requires CanExecute(s, acts)
    decreases |acts|, 1
  {
    if acts == [] then s
    else Step(Execute(s, acts[..|acts| - 1]), acts[|acts| - 1])
  }

  lemma ExecuteLast(s: System, acts: seq<Action>, act: Action)
    requires CanExecute(s, acts) && CanStep(Execute(s, acts), act)
    ensures CanExecute(s, acts + [act]) && Execute(s, acts + [act]) == Step(Execute(s, acts), act)
  {
    assert (acts + [act])[..|acts|] == acts;
  }

  // ---------------------------------------------------------------------------------------------
  // A run of one endpoint while the other stands still
  // ---------------------------------------------------------------------------------------------

  ghost predicate CanRun(e: Endpoint, evs: seq<Event>, inbox: set<Packet>)
    decreases |evs|, 0
  {
    evs == [] || (var init := evs[..|evs| - 1];
                  CanRun(e, init, inbox) && Enabled(RunAll(e, init, inbox), evs[|evs| - 1], inbox))
  }

  ghost function RunAll(e: Endpoint, evs: seq<Event>, inbox: set<Packet>): Endpoint
    requires CanRun(e, evs, inbox)
    decreases |evs|, 1
  {
    if evs == [] then e
    else Apply(RunAll(e, evs[..|evs| - 1], inbox), evs[|evs| - 1], inbox)
  }

  /** Everything a run of one endpoint puts on the network. */
  ghost function AllSends(e: Endpoint, evs: seq<Event>, inbox: set<Packet>): set<Packet>
    requires CanRun(e, evs, inbox)
    decreases |evs|
  {
    if evs == [] then {}
    else
      var init := evs[..|evs| - 1];
      AllSends(e, init, inbox) + Sends(RunAll(e, init, inbox), evs[|evs| - 1])
  }

  lemma RunLast(e: Endpoint, evs: seq<Event>, ev: Event, inbox: set<Packet>)
    requires CanRun(e, evs, inbox) && Enabled(RunAll(e, evs, inbox), ev, inbox)
    ensures CanRun(e, evs + [ev], inbox)
    ensures RunAll(e, evs + [ev], inbox) == Apply(RunAll(e, evs, inbox), ev, inbox)
    ensures AllSends(e, evs + [ev], inbox) == AllSends(e, evs, inbox) + Sends(RunAll(e, evs, inbox), ev)
  {
    assert (evs + [ev])[..|evs|] == evs;
  }

  /** A stretch of one endpoint's life, during which the peer sends nothing new. */
  datatype Run = Run(start: Endpoint, events: seq<Event>, inbox: set<Packet>, sent: set<Packet>)

  /** The run's events lead from its start to `e` and put on the network what the run says. */
  ghost predicate Traced(run: Run, e: Endpoint) {
    && CanRun(run.start, run.events, run.inbox)
    && RunAll(run.start, run.events, run.inbox) == e
    && AllSends(run.start, run.events, run.inbox) == run.sent
  }

  lemma TraceStart(e: Endpoint, inbox: set<Packet>)
    ensures Traced(Run(e, [], inbox, {}), e)
  {
  }

  function Then(run: Run, e: Endpoint, ev: Event): Run {
    run.(events := run.events + [ev], sent := run.sent + Sends(e, ev))
  }

  lemma Extend(run: Run, e: Endpoint, ev: Event)
    requires Traced(run, e) && Enabled(e, ev, run.inbox)
    ensures Traced(Then(run, e, ev), Apply(e, ev, run.inbox))
  {
    RunLast(run.start, run.events, ev, run.inbox);
  }

  function AtA(evs: seq<Event>): seq<Action> {
    seq(|evs|, i requires 0 <= i < |evs| => Action(true, evs[i]))
  }

  /** A run of one endpoint is a run of the whole system. */
  lemma {:induction false} LocalRunIsSystemRun(s: System, evs: seq<Event>)
    requires CanRun(s.a, evs, s.toA)
    ensures CanExecute(s, AtA(evs))
    ensures Execute(s, AtA(evs)) ==
            System(RunAll(s.a, evs, s.toA), s.b, s.toB + AllSends(s.a, evs, s.toA), s.toA)
    decreases |evs|
  {
    hide Enabled, Apply, Sends;
    if evs == [] {
      assert s.toB + {} == s.toB;
    } else {
      var init := evs[..|evs| - 1];
      LocalRunIsSystemRun(s, init);
      assert AtA(evs)[..|evs| - 1] == AtA(init);
      assert s.toB + AllSends(s.a, evs, s.toA)
          == (s.toB + AllSends(s.a, init, s.toA)) + Sends(RunAll(s.a, init, s.toA), evs[|evs| - 1]);
    }
  }
}
