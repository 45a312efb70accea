/** What every run of the retransmission protocol keeps, and what an application may rely on. */
module ArqSafety {
  import opened Bytes
  import opened Arq

  /** The application bytes carried by a list of segments. */
  function Payloads(log: seq<Segment>): bytes {
    if log == [] then [] else Payloads(log[..|log| - 1]) + log[|log| - 1].payload
  }

  lemma PayloadsSnoc(log: seq<Segment>, n: nat)
    requires n < |log|
    ensures Payloads(log[..n + 1]) == Payloads(log[..n]) + log[n].payload
  {
    assert log[..n + 1][..n] == log[..n];
  }

  /** The number of segments that were put on the network at least once. */
  function Transmitted(t: Sender): int {
    t.dequeued - if t.inHand.Holding? then 1 else 0
  }

  /** The number of segments put in order, counting one whose number is not acknowledged yet. */
  function InOrder(r: Receiver): nat {
    r.nextRecv + if r.phase.Queued? then 1 else 0
  }

  // ---------------------------------------------------------------------------------------------
  // The invariant
  // ---------------------------------------------------------------------------------------------

  /** Sequence numbers run, without gaps, through sendBuf, the output loop's hand and sendQueue. */
  ghost predicate Numbering(t: Sender) {
    && |t.log| == |t.txLog| == t.nextSend
    && t.acked <= Transmitted(t)
    && t.dequeued <= t.nextSend
    && HoldsRange(t.sendBuf, t.acked, Transmitted(t))
    && HoldsRange(t.sendQueue, t.dequeued, t.nextSend)
    && (t.inHand.Holding? ==> t.inHand.sn == Transmitted(t))
  }

  /** No tree of the sender is ever full when a segment has to go in. */
  ghost predicate SenderRoom(t: Sender) {
    && |t.sendQueue| + t.reserved + (if t.openQueued then 0 else 1) <= TREE_CAPACITY
    && |t.sendBuf| + (if t.inHand.Holding? then 1 else 0) <= TREE_CAPACITY - 1
    && (t.isClient && !t.openQueued ==> t.nextSend == t.reserved == 0)
    && t.congestionWindow in t.windows && (forall w :: w in t.windows ==> MIN_WINDOW <= w <= MAX_WINDOW)
  }

  /** Every tree of the sender holds what was queued under that number. */
  ghost predicate SenderContents(t: Sender)
    requires Numbering(t)
  {
    && (forall k :: k in t.sendQueue ==> t.sendQueue[k] == t.log[k])
    && (forall k :: k in t.sendBuf ==> t.sendBuf[k].segment == t.log[k])
    && (t.inHand.Holding? ==> t.inHand.segment == t.log[t.inHand.sn])
  }

  ghost predicate TransmissionCounts(t: Sender)
    requires Numbering(t)
  {
    && (forall k :: 0 <= k < |t.txLog| ==> t.txLog[k] <= TX_COUNT_LIMIT)
    && (forall k :: Transmitted(t) <= k < |t.txLog| ==> t.txLog[k] == 0)
    && (forall k :: k in t.sendBuf ==> t.sendBuf[k].txCount == t.txLog[k])
  }

  ghost predicate SenderOk(t: Sender) {
    Numbering(t) && SenderRoom(t) && SenderContents(t) && TransmissionCounts(t)
  }

  /** recvQueue holds exactly the segments put in order and not read yet. */
  ghost predicate ReceiverOk(r: Receiver) {
    && r.popped <= InOrder(r)
    && HoldsRange(r.recvQueue, r.popped, InOrder(r))
    && (forall k :: k in r.recvQueue ==> HasSegment(r.recvQueue[k]) && r.recvQueue[k].sn == k)
    && (forall k :: k in r.recvBuf ==> HasSegment(r.recvBuf[k]) && r.recvBuf[k].sn == k)
    && (r.phase.Taken? ==> HasSegment(r.phase.packet) && r.phase.packet.sn == r.nextRecv
                           && |r.recvQueue| + 1 < RECV_QUEUE_CAPACITY)
  }

  /** The packet is a true copy of the segment that was queued under its number. */
  predicate Genuine(p: Packet, log: seq<Segment>)
    requires HasSegment(p)
  {
    && p.sn < |log| && p.payload == log[p.sn].payload && p.OpenPacket? == log[p.sn].isOpen
    && (p.DataPacket? ==> p.window == log[p.sn].window && p.fragment == log[p.sn].fragment)
  }

  /** It is one that the sender has transmitted. */
  predicate Authentic(p: Packet, t: Sender) {
    HasSegment(p) && p.sn < Transmitted(t) && Genuine(p, t.log)
  }

  /** What the receiver and the network know about the sender: `data` travels from the sender to
      the receiver, and `acks` travels back. */
  ghost predicate Agree(t: Sender, r: Receiver, data: set<Packet>, acks: set<Packet>) {
    && (forall p :: p in data && HasSegment(p) ==> Authentic(p, t))
    && (forall k :: k in r.recvBuf ==> Authentic(r.recvBuf[k], t))
    && (forall k :: k in r.recvQueue ==> Authentic(r.recvQueue[k], t))
    && (r.phase.Taken? ==> Authentic(r.phase.packet, t))
    && (forall p :: p in acks && HasUnAck(p) ==> p.unAck <= r.nextRecv)
    && t.acked <= r.nextRecv
    && InOrder(r) <= Transmitted(t)
    && r.popped <= |t.log|
    && r.read + r.unread == Payloads(t.log[..r.popped])
  }

  ghost predicate Inv(s: System) {
    && SenderOk(s.a.tx) && ReceiverOk(s.a.rx)
    && SenderOk(s.b.tx) && ReceiverOk(s.b.rx)
    && Agree(s.a.tx, s.b.rx, s.toB, s.toA)
    && Agree(s.b.tx, s.a.rx, s.toA, s.toB)
  }

  // ---------------------------------------------------------------------------------------------
  // Trees that hold a range of sequence numbers
  // ---------------------------------------------------------------------------------------------

  lemma RemoveMin<T>(tree: map<nat, T>, lo: int, hi: int, k: nat)
    requires 0 <= lo && HoldsRange(tree, lo, hi) && IsMin(tree, k)
    ensures k == lo < hi && HoldsRange(tree - {k}, lo + 1, hi) && |tree - {k}| == |tree| - 1
  {
    assert lo in tree;
    assert (tree - {k}).Keys == tree.Keys - {k};
  }

  lemma AddNext<T>(tree: map<nat, T>, lo: int, hi: nat, item: T)
    requires lo <= hi && HoldsRange(tree, lo, hi)
    ensures HoldsRange(tree[hi := item], lo, hi + 1) && |tree[hi := item]| == |tree| + 1
  {
    assert hi !in tree;
  }

  lemma Replace<T>(tree: map<nat, T>, lo: int, hi: int, k: nat, item: T)
    requires k in tree && HoldsRange(tree, lo, hi)
    ensures HoldsRange(tree[k := item], lo, hi) && |tree[k := item]| == |tree|
  {
    assert tree[k := item].Keys == tree.Keys;
  }

  // ---------------------------------------------------------------------------------------------
  // Every event of the sender keeps the sender's part
  // ---------------------------------------------------------------------------------------------

  lemma QueueKeepsNumbering(t: Sender, segment: Segment)
    requires Numbering(t) && |t.sendQueue| < TREE_CAPACITY
    ensures var t' := QueueSegment(t, segment);
      && Numbering(t') && |t'.sendQueue| == |t.sendQueue| + 1
      && t'.sendQueue == t.sendQueue[t.nextSend := segment]
  {
    AddNext(t.sendQueue, t.dequeued, t.nextSend, segment);
  }

  lemma QueueSegmentOk(t: Sender, segment: Segment)
    requires SenderOk(t) && |t.sendQueue| < TREE_CAPACITY
    ensures var t' := QueueSegment(t, segment);
      Numbering(t') && SenderContents(t') && TransmissionCounts(t') && |t'.sendQueue| == |t.sendQueue| + 1
  {
    QueueKeepsNumbering(t, segment);
    hide Insert, SenderRoom;
  }

  /** What the trees and the history say does not depend on anything else. */
  ghost predicate SameTrees(t: Sender, t': Sender) {
    && t'.sendQueue == t.sendQueue && t'.inHand == t.inHand && t'.sendBuf == t.sendBuf && t'.nextSend == t.nextSend
    && t'.log == t.log && t'.txLog == t.txLog && t'.dequeued == t.dequeued && t'.acked == t.acked
  }

  lemma SameTreesOk(t: Sender, t': Sender)
    requires SameTrees(t, t') && Numbering(t) && SenderContents(t) && TransmissionCounts(t)
    ensures Numbering(t') && SenderContents(t') && TransmissionCounts(t')
  {
  }

  lemma QueuedOk(t: Sender, segment: Segment, t': Sender)
    requires SenderOk(t) && |t.sendQueue| < TREE_CAPACITY && SameTrees(QueueSegment(t, segment), t')
    ensures Numbering(t') && SenderContents(t') && TransmissionCounts(t') && |t'.sendQueue| == |t.sendQueue| + 1
  {
    hide Numbering, SenderContents, TransmissionCounts;
    QueueSegmentOk(t, segment);
    SameTreesOk(QueueSegment(t, segment), t');
  }

  lemma OpenRequestOk(t: Sender, payload: bytes, inbox: set<Packet>)
    requires SenderOk(t) && TxEnabled(t, QueueOpenRequest(payload), inbox)
    ensures SenderOk(TxApply(t, QueueOpenRequest(payload), inbox))
  {
    assert t.sendQueue == map[];
    hide Numbering, SenderContents, TransmissionCounts;
    QueuedOk(t, Segment(true, payload, 0, 0), TxApply(t, QueueOpenRequest(payload), inbox));
  }

  lemma QueueEventOk(t: Sender, ev: TxEvent, inbox: set<Packet>)
    requires SenderOk(t) && TxEnabled(t, ev, inbox)
    requires ev.QueueOpenResponse? || ev.QueueFragment?
    ensures SenderOk(TxApply(t, ev, inbox))
  {
    hide Numbering, SenderContents, TransmissionCounts;
    match ev
    case QueueOpenResponse => QueuedOk(t, Segment(true, [], 0, 0), TxApply(t, ev, inbox));
    case QueueFragment(payload, window, fragment) =>
      QueuedOk(t, Segment(false, payload, window, fragment), TxApply(t, ev, inbox));
  }

  lemma DequeueOk(t: Sender, k: nat, window: nat, inbox: set<Packet>)
    requires SenderOk(t) && TxEnabled(t, Dequeue(k, window), inbox)
    ensures SenderOk(TxApply(t, Dequeue(k, window), inbox))
  {
    RemoveMin(t.sendQueue, t.dequeued, t.nextSend, k);
  }

  /** The sender after one transmission of segment `k`, with what sendBuf then holds for it. */
  function AfterTransmission(t: Sender, k: nat, item: Sent): Sender {
    t.(sendBuf := t.sendBuf[k := item], txLog := CountTransmission(t.txLog, k))
  }

  lemma CountsAfterTransmission(t: Sender, k: nat, item: Sent)
    requires Numbering(t) && TransmissionCounts(t) && k < |t.txLog|
    requires t.txLog[k] < TX_COUNT_LIMIT && item.txCount == t.txLog[k] + 1
    ensures var t' := AfterTransmission(t, k, item);
      && (forall j :: 0 <= j < |t'.txLog| ==> t'.txLog[j] <= TX_COUNT_LIMIT)
      && (forall j :: 0 <= j < |t'.txLog| && j != k ==> t'.txLog[j] == t.txLog[j])
      && (forall j :: j in t'.sendBuf ==> j < |t'.txLog| && t'.sendBuf[j].txCount == t'.txLog[j])
  {
  }

  lemma FirstTransmissionOk(t: Sender)
    requires SenderOk(t) && t.inHand.Holding?
    ensures SenderOk(AfterTransmission(t, t.inHand.sn, Sent(t.inHand.segment, 1, 0)).(inHand := EmptyHand))
  {
    var k, item := t.inHand.sn, Sent(t.inHand.segment, 1, 0);
    CountsAfterTransmission(t, k, item);
    AddNext(t.sendBuf, t.acked, k, item);
  }

  lemma TransmitOk(t: Sender, unAck: nat, inbox: set<Packet>)
    requires SenderOk(t) && TxEnabled(t, Transmit(unAck), inbox)
    ensures SenderOk(TxApply(t, Transmit(unAck), inbox))
  {
    hide Numbering, SenderContents, TransmissionCounts, CountTransmission;
    FirstTransmissionOk(t);
  }

  lemma SameSegmentOk(t: Sender, k: nat, item: Sent, txLog: seq<nat>)
    requires SenderOk(t) && k in t.sendBuf && item.segment == t.sendBuf[k].segment && |txLog| == |t.txLog|
    ensures var t' := t.(sendBuf := t.sendBuf[k := item], txLog := txLog);
      k < Transmitted(t) && Numbering(t') && SenderRoom(t') && SenderContents(t')
  {
    Replace(t.sendBuf, t.acked, Transmitted(t), k, item);
  }

  lemma NextTransmissionOk(t: Sender, k: nat)
    requires SenderOk(t) && k in t.sendBuf && t.sendBuf[k].txCount < TX_COUNT_LIMIT
    ensures SenderOk(AfterTransmission(t, k, Sent(t.sendBuf[k].segment, t.sendBuf[k].txCount + 1, 0)))
  {
    var item := Sent(t.sendBuf[k].segment, t.sendBuf[k].txCount + 1, 0);
    SameSegmentOk(t, k, item, CountTransmission(t.txLog, k));
    CountsAfterTransmission(t, k, item);
    hide SenderRoom, SenderContents, HoldsRange;
  }

  lemma RetransmitOk(t: Sender, k: nat, unAck: nat, inbox: set<Packet>)
    requires SenderOk(t) && TxEnabled(t, Retransmit(k, unAck), inbox)
    ensures SenderOk(TxApply(t, Retransmit(k, unAck), inbox))
  {
    hide SenderOk, CountTransmission;
    NextTransmissionOk(t, k);
  }

  lemma DropAckedOk(t: Sender, k: nat, p: Packet, inbox: set<Packet>)
    requires SenderOk(t) && TxEnabled(t, DropAcked(k, p), inbox)
    ensures SenderOk(TxApply(t, DropAcked(k, p), inbox))
    ensures k == t.acked
  {
    RemoveMin(t.sendBuf, t.acked, Transmitted(t), k);
  }

  lemma CountedOk(t: Sender, k: nat, ackCount: byte)
    requires SenderOk(t) && k in t.sendBuf
    ensures SenderOk(t.(sendBuf := t.sendBuf[k := t.sendBuf[k].(ackCount := ackCount)]))
  {
    SameSegmentOk(t, k, t.sendBuf[k].(ackCount := ackCount), t.txLog);
    hide SenderRoom, SenderContents, HoldsRange;
  }

  lemma CountAckOk(t: Sender, p: Packet, inbox: set<Packet>)
    requires SenderOk(t) && TxEnabled(t, CountAck(p), inbox)
    ensures SenderOk(TxApply(t, CountAck(p), inbox))
  {
    hide SenderOk;
    if p.unAck in t.sendBuf {
      CountedOk(t, p.unAck, (t.sendBuf[p.unAck].ackCount + 1) % 256);
    }
  }

  lemma BookkeepingOk(t: Sender, ev: TxEvent, inbox: set<Packet>)
    requires SenderOk(t) && TxEnabled(t, ev, inbox)
    requires ev.SendAck? || ev.SetCongestionWindow? || ev.StoreWindow? || ev.Reserve? || ev.Abandon?
    ensures SenderOk(TxApply(t, ev, inbox))
  {
    hide Numbering, SenderContents, TransmissionCounts;
    SameTreesOk(t, TxApply(t, ev, inbox));
  }

  lemma TxKeepsSenderOk(t: Sender, ev: TxEvent, inbox: set<Packet>)
    requires SenderOk(t) && TxEnabled(t, ev, inbox)
    ensures SenderOk(TxApply(t, ev, inbox))
  {
    hide SenderOk, TxApply, TxEnabled;
    match ev
    case QueueOpenRequest(payload) => OpenRequestOk(t, payload, inbox);
    case Dequeue(k, window) => DequeueOk(t, k, window, inbox);
    case Transmit(unAck) => TransmitOk(t, unAck, inbox);
    case Retransmit(k, unAck) => RetransmitOk(t, k, unAck, inbox);
    case DropAcked(k, p) => DropAckedOk(t, k, p, inbox);
    case SendAck(_, _) => BookkeepingOk(t, ev, inbox);
    case SetCongestionWindow(_) => BookkeepingOk(t, ev, inbox);
    case StoreWindow(_) => BookkeepingOk(t, ev, inbox);
    case Reserve(_) => BookkeepingOk(t, ev, inbox);
    case Abandon => BookkeepingOk(t, ev, inbox);
    case CountAck(p) => CountAckOk(t, p, inbox);
    case _ => QueueEventOk(t, ev, inbox);
  }

  // ---------------------------------------------------------------------------------------------
  // Every event of the sender keeps the agreement with the receiver
  // ---------------------------------------------------------------------------------------------

  /** Queueing more, transmitting more, and dropping what the receiver has put in order. */
  lemma SenderProgressKeepsAgree(t: Sender, t': Sender, r: Receiver, data: set<Packet>, acks: set<Packet>)
    requires Agree(t, r, data, acks)
    requires t.log <= t'.log && Transmitted(t) <= Transmitted(t') && t'.acked <= r.nextRecv
    ensures Agree(t', r, data, acks)
  {
    assert t'.log[..r.popped] == t.log[..r.popped];
  }

  lemma GenuineDataKeepsAgree(t: Sender, r: Receiver, data: set<Packet>, acks: set<Packet>, more: set<Packet>)
    requires Agree(t, r, data, acks)
    requires forall p :: p in more && HasSegment(p) ==> Authentic(p, t)
    ensures Agree(t, r, data + more, acks)
  {
  }

  lemma EarlierAcksKeepAgree(t: Sender, r: Receiver, data: set<Packet>, acks: set<Packet>, more: set<Packet>)
    requires Agree(t, r, data, acks)
    requires forall p :: p in more && HasUnAck(p) ==> p.unAck <= r.nextRecv
    ensures Agree(t, r, data, acks + more)
  {
  }

  /** Only true copies of transmitted segments are ever emitted. */
  lemma EmitsGenuine(t: Sender, ev: TxEvent, inbox: set<Packet>)
    requires SenderOk(t) && TxEnabled(t, ev, inbox)
    ensures var t' := TxApply(t, ev, inbox);
      forall p :: p in Emits(t, ev) && HasSegment(p) ==> Authentic(p, t')
  {
  }

  lemma SenderProgress(t: Sender, ev: TxEvent, r: Receiver, data: set<Packet>, acks: set<Packet>)
    requires SenderOk(t) && Agree(t, r, data, acks) && TxEnabled(t, ev, acks)
    ensures var t' := TxApply(t, ev, acks);
      t.log <= t'.log && Transmitted(t) <= Transmitted(t') && t'.acked <= r.nextRecv
  {
    if ev.DropAcked? {
      DropAckedOk(t, ev.sn, ev.packet, acks);
    }
  }

  lemma TxKeepsAgree(t: Sender, ev: TxEvent, r: Receiver, data: set<Packet>, acks: set<Packet>)
    requires SenderOk(t) && Agree(t, r, data, acks) && TxEnabled(t, ev, acks)
    ensures Agree(TxApply(t, ev, acks), r, data + Emits(t, ev), acks)
  {
    var t' := TxApply(t, ev, acks);
    SenderProgress(t, ev, r, data, acks);
    SenderProgressKeepsAgree(t, t', r, data, acks);
    EmitsGenuine(t, ev, acks);
    GenuineDataKeepsAgree(t', r, data, acks, Emits(t, ev));
  }

  // ---------------------------------------------------------------------------------------------
  // Every event of the receiver keeps the receiver's part and the agreement
  // ---------------------------------------------------------------------------------------------

  lemma MovingOk(r: Receiver, ev: RxEvent, inbox: set<Packet>)
    requires ReceiverOk(r) && RxEnabled(r, ev, inbox)
    requires ev.Arrive? || ev.Take? || ev.Advance? || ev.StopMoving? || ev.Consume?
    ensures ReceiverOk(RxApply(r, ev, inbox))
  {
  }

  lemma EnqueueOk(r: Receiver, inbox: set<Packet>)
    requires ReceiverOk(r) && RxEnabled(r, Enqueue, inbox)
    ensures ReceiverOk(RxApply(r, Enqueue, inbox))
  {
    AddNext(r.recvQueue, r.popped, r.nextRecv, r.phase.packet);
  }

  lemma PopOk(r: Receiver, k: nat, inbox: set<Packet>)
    requires ReceiverOk(r) && RxEnabled(r, Pop(k), inbox)
    ensures ReceiverOk(RxApply(r, Pop(k), inbox))
    ensures k == r.popped
  {
    RemoveMin(r.recvQueue, r.popped, InOrder(r), k);
  }

  lemma RxKeepsReceiverOk(r: Receiver, ev: RxEvent, inbox: set<Packet>)
    requires ReceiverOk(r) && RxEnabled(r, ev, inbox)
    ensures ReceiverOk(RxApply(r, ev, inbox))
  {
    match ev
    case Enqueue => EnqueueOk(r, inbox);
    case Pop(k) => PopOk(r, k, inbox);
    case _ => MovingOk(r, ev, inbox);
  }

  /** What the receiver holds came from the sender, and moving it around does not change that. */
  lemma HoldingsKeepAgree(t: Sender, r: Receiver, r': Receiver, data: set<Packet>, acks: set<Packet>)
    requires Agree(t, r, data, acks) && AllAuthentic(t, r')
    requires r'.popped == r.popped && r'.read == r.read && r'.unread == r.unread
    requires r.nextRecv <= r'.nextRecv && InOrder(r') <= Transmitted(t)
    ensures Agree(t, r', data, acks)
  {
    hide Authentic, Payloads;
  }

  /** Everything that the receiver holds came from the sender. */
  ghost predicate AllAuthentic(t: Sender, r: Receiver) {
    && (forall k :: k in r.recvBuf ==> Authentic(r.recvBuf[k], t))
    && (forall k :: k in r.recvQueue ==> Authentic(r.recvQueue[k], t))
    && (r.phase.Taken? ==> Authentic(r.phase.packet, t))
  }

  lemma ArriveHolds(t: Sender, r: Receiver, p: Packet, data: set<Packet>)
    requires AllAuthentic(t, r) && RxEnabled(r, Arrive(p), data) && Authentic(p, t)
    ensures AllAuthentic(t, RxApply(r, Arrive(p), data))
  {
    hide Authentic;
  }

  lemma TakeHolds(t: Sender, r: Receiver, k: nat, data: set<Packet>)
    requires AllAuthentic(t, r) && RxEnabled(r, Take(k), data)
    ensures AllAuthentic(t, RxApply(r, Take(k), data))
  {
    hide Authentic;
  }

  lemma EnqueueHolds(t: Sender, r: Receiver, data: set<Packet>)
    requires AllAuthentic(t, r) && RxEnabled(r, Enqueue, data)
    ensures AllAuthentic(t, RxApply(r, Enqueue, data))
  {
    hide Authentic;
  }

  lemma MovingHolds(t: Sender, r: Receiver, ev: RxEvent, data: set<Packet>)
    requires AllAuthentic(t, r) && RxEnabled(r, ev, data) && !ev.Pop? && !ev.Consume?
    requires ev.Arrive? ==> Authentic(ev.packet, t)
    ensures AllAuthentic(t, RxApply(r, ev, data))
  {
    hide Authentic;
    if ev.Arrive? {
      ArriveHolds(t, r, ev.packet, data);
    } else if ev.Take? {
      TakeHolds(t, r, ev.sn, data);
    } else if ev.Enqueue? {
      EnqueueHolds(t, r, data);
    }
  }

  lemma MovingPositions(r: Receiver, ev: RxEvent, data: set<Packet>)
    requires RxEnabled(r, ev, data) && !ev.Pop? && !ev.Consume?
    ensures var r' := RxApply(r, ev, data);
      && r'.popped == r.popped && r'.read == r.read && r'.unread == r.unread && r.nextRecv <= r'.nextRecv
      && InOrder(r') == InOrder(r) + if ev.Enqueue? then 1 else 0
    ensures ev.Enqueue? ==> r.phase.Taken?
    ensures ev.Arrive? ==> ev.packet in data && HasSegment(ev.packet)
  {
  }

  lemma MovingKeepsAgree(t: Sender, r: Receiver, ev: RxEvent, data: set<Packet>, acks: set<Packet>)
    requires ReceiverOk(r) && Agree(t, r, data, acks) && RxEnabled(r, ev, data)
    requires !ev.Pop? && !ev.Consume?
    ensures Agree(t, RxApply(r, ev, data), data, acks)
  {
    hide RxEnabled, RxApply, Genuine, Payloads, HoldsRange;
    MovingPositions(r, ev, data);
    MovingHolds(t, r, ev, data);
    HoldingsKeepAgree(t, r, RxApply(r, ev, data), data, acks);
  }

  /** Reading moves bytes towards the application and neither drops nor repeats any. */
  lemma PopKeepsAgree(t: Sender, r: Receiver, k: nat, data: set<Packet>, acks: set<Packet>)
    requires ReceiverOk(r) && Agree(t, r, data, acks) && RxEnabled(r, Pop(k), data)
    ensures Agree(t, RxApply(r, Pop(k), data), data, acks)
  {
    PopOk(r, k, data);
    assert Authentic(r.recvQueue[k], t);
    PayloadsSnoc(t.log, k);
    hide Payloads, HoldsRange;
    assert r.read + (r.unread + t.log[k].payload) == (r.read + r.unread) + t.log[k].payload;
  }

  lemma ConsumeKeepsAgree(t: Sender, r: Receiver, n: nat, data: set<Packet>, acks: set<Packet>)
    requires ReceiverOk(r) && Agree(t, r, data, acks) && RxEnabled(r, Consume(n), data)
    ensures Agree(t, RxApply(r, Consume(n), data), data, acks)
  {
    assert r.read + r.unread == (r.read + r.unread[..n]) + r.unread[n..];
  }

  // ---------------------------------------------------------------------------------------------
  // Every run
  // ---------------------------------------------------------------------------------------------

  lemma EmitsEarlierAcks(e: Endpoint, ev: TxEvent, inbox: set<Packet>)
    requires Enabled(e, Tx(ev), inbox)
    ensures forall p :: p in Emits(e.tx, ev) && HasUnAck(p) ==> p.unAck <= e.rx.nextRecv
  {
    hide TxEnabled;
  }

  lemma TxStepKeepsInv(s: System, ev: TxEvent)
    requires Inv(s) && Enabled(s.a, Tx(ev), s.toA)
    ensures Inv(StepA(s, Tx(ev)))
  {
    hide SenderOk, ReceiverOk, Agree, TxEnabled, TxApply, Emits;
    TxKeepsSenderOk(s.a.tx, ev, s.toA);
    TxKeepsAgree(s.a.tx, ev, s.b.rx, s.toB, s.toA);
    EmitsEarlierAcks(s.a, ev, s.toA);
    EarlierAcksKeepAgree(s.b.tx, s.a.rx, s.toA, s.toB, Emits(s.a.tx, ev));
  }

  lemma RxStepKeepsInv(s: System, ev: RxEvent)
    requires Inv(s) && Enabled(s.a, Rx(ev), s.toA)
    ensures Inv(StepA(s, Rx(ev)))
  {
    hide SenderOk, ReceiverOk, Agree, RxEnabled, RxApply;
    RxKeepsReceiverOk(s.a.rx, ev, s.toA);
    match ev {
      case Pop(k) => PopKeepsAgree(s.b.tx, s.a.rx, k, s.toA, s.toB);
      case Consume(n) => ConsumeKeepsAgree(s.b.tx, s.a.rx, n, s.toA, s.toB);
      case _ => MovingKeepsAgree(s.b.tx, s.a.rx, ev, s.toA, s.toB);
    }
    assert s.toB + {} == s.toB;
  }

  lemma StepKeepsInv(s: System, act: Action)
    requires Inv(s) && CanStep(s, act)
    ensures Inv(Step(s, act))
  {
    hide SenderOk, ReceiverOk, Agree, Enabled, Apply, Sends;
    var s1 := if act.atA then s else Swap(s);
    match act.event
    case Tx(ev) => TxStepKeepsInv(s1, ev);
    case Rx(ev) => RxStepKeepsInv(s1, ev);
  }

  lemma {:induction false} RunKeepsInv(s: System, acts: seq<Action>)
    requires Inv(s) && CanExecute(s, acts)
    ensures Inv(Execute(s, acts))
    decreases |acts|
  {
    if acts != [] {
      var init := acts[..|acts| - 1];
      RunKeepsInv(s, init);
      StepKeepsInv(Execute(s, init), acts[|acts| - 1]);
    }
  }

  /** A run of one endpoint keeps that endpoint's own part. */
  lemma {:induction false} RunKeepsEndpointOk(e0: Endpoint, evs: seq<Event>, inbox: set<Packet>)
    requires SenderOk(e0.tx) && ReceiverOk(e0.rx) && CanRun(e0, evs, inbox)
    ensures SenderOk(RunAll(e0, evs, inbox).tx) && ReceiverOk(RunAll(e0, evs, inbox).rx)
    decreases |evs|
  {
    if evs != [] {
      var init := evs[..|evs| - 1];
      RunKeepsEndpointOk(e0, init, inbox);
      var e := RunAll(e0, init, inbox);
      match evs[|evs| - 1]
      case Tx(ev) => TxKeepsSenderOk(e.tx, ev, inbox);
      case Rx(ev) => RxKeepsReceiverOk(e.rx, ev, inbox);
    }
  }

  /** Whatever one endpoint does while its peer stands still, the whole system keeps its invariant. */
  lemma RunOfOneSideKeepsInv(s: System, run: Run, e: Endpoint)
    requires Inv(s) && run.start == s.a && run.inbox == s.toA && Traced(run, e)
    ensures Inv(System(e, s.b, s.toB + run.sent, s.toA))
    ensures Inv(Swap(System(e, s.b, s.toB + run.sent, s.toA)))
  {
    LocalRunIsSystemRun(s, run.events);
    RunKeepsInv(s, AtA(run.events));
  }

  lemma FreshOk(isClient: bool)
    ensures SenderOk(Fresh(isClient).tx) && ReceiverOk(Fresh(isClient).rx)
  {
  }

  lemma InitialInv()
    ensures Inv(Initial())
  {
    FreshOk(true);
    FreshOk(false);
    hide SenderOk, ReceiverOk;
  }

  lemma ReachableInv(acts: seq<Action>)
    requires CanExecute(Initial(), acts)
    ensures Inv(Execute(Initial(), acts))
  {
    InitialInv();
    RunKeepsInv(Initial(), acts);
  }

  // ---------------------------------------------------------------------------------------------
  // What the applications see
  // ---------------------------------------------------------------------------------------------

  /** The bytes that wait in recvQueue, in the order of the sequence numbers [lo, hi). */
  function QueuedBytes(queue: map<nat, Packet>, lo: nat, hi: nat): bytes
    decreases hi
  {
    if lo >= hi then []
    else QueuedBytes(queue, lo, hi - 1) + (if hi - 1 in queue then SegmentPayload(queue[hi - 1]) else [])
  }

  /** The stream as the receiving application gets it: read, left over, and waiting. */
  function Received(r: Receiver): bytes {
    r.read + r.unread + QueuedBytes(r.recvQueue, r.popped, InOrder(r))
  }

  lemma {:induction false} QueuedBytesAreLog(queue: map<nat, Packet>, log: seq<Segment>, lo: nat, hi: nat)
    requires lo <= hi <= |log|
    requires forall k :: lo <= k < hi ==> k in queue && SegmentPayload(queue[k]) == log[k].payload
    ensures Payloads(log[..lo]) + QueuedBytes(queue, lo, hi) == Payloads(log[..hi])
    decreases hi
  {
    hide Payloads;
    var before := Payloads(log[..lo]);
    if lo == hi {
      assert before + [] == before;
    } else {
      var rest, last := QueuedBytes(queue, lo, hi - 1), log[hi - 1].payload;
      assert before + rest == Payloads(log[..hi - 1]) by { QueuedBytesAreLog(queue, log, lo, hi - 1); }
      assert Payloads(log[..hi]) == (before + rest) + last by { PayloadsSnoc(log, hi - 1); }
      assert (before + rest) + last == before + (rest + last);
    }
  }

  lemma {:induction false} PayloadsPrefix(log: seq<Segment>, n: nat)
    requires n <= |log|
    ensures Payloads(log[..n]) <= Payloads(log)
    decreases |log| - n
  {
    if n == |log| {
      assert log[..n] == log;
    } else {
      PayloadsSnoc(log, n);
      PayloadsPrefix(log, n + 1);
    }
  }

  /** The received stream is what the peer queued up to the receiver's position, and so a prefix
      of everything the peer queued. */
  ghost predicate StreamDelivered(t: Sender, r: Receiver) {
    && InOrder(r) <= |t.log|
    && Received(r) == Payloads(t.log[..InOrder(r)])
    && Received(r) <= Payloads(t.log)
  }

  lemma AgreeDelivers(t: Sender, r: Receiver, data: set<Packet>, acks: set<Packet>)
    requires SenderOk(t) && ReceiverOk(r) && Agree(t, r, data, acks)
    ensures StreamDelivered(t, r)
  {
    forall k | r.popped <= k < InOrder(r)
      ensures k in r.recvQueue && SegmentPayload(r.recvQueue[k]) == t.log[k].payload
    {
      assert Authentic(r.recvQueue[k], t);
    }
    QueuedBytesAreLog(r.recvQueue, t.log, r.popped, InOrder(r));
    PayloadsPrefix(t.log, InOrder(r));
  }

  /** In every run, in both directions, the receiving application gets the sender's bytes in
      order, with none missing and none repeated. */
  lemma EveryRunDeliversInOrder(acts: seq<Action>)
    requires CanExecute(Initial(), acts)
    ensures var s := Execute(Initial(), acts);
      StreamDelivered(s.a.tx, s.b.rx) && StreamDelivered(s.b.tx, s.a.rx)
  {
    hide SenderOk, ReceiverOk, Agree, StreamDelivered, CanExecute, Execute;
    ReachableInv(acts);
    var s := Execute(Initial(), acts);
    AgreeDelivers(s.a.tx, s.b.rx, s.toB, s.toA);
    AgreeDelivers(s.b.tx, s.a.rx, s.toA, s.toB);
  }

  // ---------------------------------------------------------------------------------------------
  // No segment is lost
  // ---------------------------------------------------------------------------------------------

  /** Every assigned number is still held by the sender or already put in order by the receiver,
      no acknowledgement in flight runs ahead of the receiver, and the segment the receiver waits
      for is one the sender can still retransmit. */
  ghost predicate NothingLost(t: Sender, r: Receiver, acks: set<Packet>) {
    && (forall k: nat :: k < t.nextSend ==>
          || k in t.sendQueue
          || (t.inHand.Holding? && t.inHand.sn == k)
          || k in t.sendBuf
          || k < r.nextRecv)
    && (forall p :: p in acks && HasUnAck(p) ==> p.unAck <= r.nextRecv)
    && (r.nextRecv < Transmitted(t) ==> r.nextRecv in t.sendBuf)
  }

  lemma EveryRunLosesNothing(acts: seq<Action>)
    requires CanExecute(Initial(), acts)
    ensures var s := Execute(Initial(), acts);
      NothingLost(s.a.tx, s.b.rx, s.toA) && NothingLost(s.b.tx, s.a.rx, s.toB)
  {
    ReachableInv(acts);
  }

  // ---------------------------------------------------------------------------------------------
  // No buffer overflows and the input loop never waits for room
  // ---------------------------------------------------------------------------------------------

  lemma {:induction false} RangeSize(keys: set<nat>, lo: nat, hi: nat)
    requires lo <= hi && forall k :: k in keys ==> lo <= k < hi
    ensures |keys| <= hi - lo
    decreases hi - lo
  {
    if lo == hi {
      assert keys == {};
    } else {
      RangeSize(keys - {hi - 1}, lo, hi - 1);
      assert |keys - {hi - 1}| >= |keys| - 1;
    }
  }

  lemma {:induction false} HeldRangeSize<T>(tree: map<nat, T>, lo: nat, hi: nat)
    requires lo <= hi && HoldsRange(tree, lo, hi)
    ensures |tree| == hi - lo
    decreases hi - lo
  {
    if lo == hi {
      assert tree == map[];
    } else {
      assert IsMin(tree, lo);
      RemoveMin(tree, lo, hi, lo);
      HeldRangeSize(tree - {lo}, lo + 1, hi);
    }
  }

  /** recvBuf holds only segments after the one that the receiver waits for. */
  ghost predicate UpToDate(r: Receiver) {
    forall k :: k in r.recvBuf ==> k > r.nextRecv
  }

  /** sendBuf is one contiguous range with a slot to spare, and a receiver at rest that is up to
      date has at least two free slots for the next packet. */
  ghost predicate BuffersBounded(t: Sender, r: Receiver, data: set<Packet>) {
    && HoldsRange(t.sendBuf, t.acked, Transmitted(t))
    && |t.sendBuf| == Transmitted(t) - t.acked <= TREE_CAPACITY - 1
    && (UpToDate(r) ==> TREE_CAPACITY - |r.recvBuf| >= 2)
    && (r.phase.Idle? && UpToDate(r) ==> forall p :: p in data && HasSegment(p) ==> RxEnabled(r, Arrive(p), data))
  }

  lemma AgreeBounds(t: Sender, r: Receiver, data: set<Packet>, acks: set<Packet>)
    requires SenderOk(t) && ReceiverOk(r) && Agree(t, r, data, acks)
    ensures BuffersBounded(t, r, data)
  {
    HeldRangeSize(t.sendBuf, t.acked, Transmitted(t));
    if UpToDate(r) {
      assert forall k :: k in r.recvBuf ==> Authentic(r.recvBuf[k], t);
      RangeSize(r.recvBuf.Keys, r.nextRecv + 1, Max(r.nextRecv + 1, Transmitted(t)));
    }
  }

  lemma EveryRunBoundsBuffers(acts: seq<Action>)
    requires CanExecute(Initial(), acts)
    ensures var s := Execute(Initial(), acts);
      BuffersBounded(s.a.tx, s.b.rx, s.toB) && BuffersBounded(s.b.tx, s.a.rx, s.toA)
  {
    hide SenderOk, ReceiverOk, Agree, BuffersBounded, CanExecute, Execute;
    ReachableInv(acts);
    var s := Execute(Initial(), acts);
    AgreeBounds(s.a.tx, s.b.rx, s.toB, s.toA);
    AgreeBounds(s.b.tx, s.a.rx, s.toA, s.toB);
  }

  /** At every stop of an input loop in the run, recvQueue had two free slots. */
  ghost predicate NeverFull(s: System, acts: seq<Action>)
    requires CanExecute(s, acts)
    decreases |acts|
  {
    acts == [] || (
      var init, last := acts[..|acts| - 1], acts[|acts| - 1];
      && NeverFull(s, init)
      && (last.event == Rx(StopMoving) ==>
            var e := if last.atA then Execute(s, init).a else Execute(s, init).b;
            RECV_QUEUE_CAPACITY - |e.rx.recvQueue| > 1))
  }

  /** A receiver at rest falls behind only by stopping on a full recvQueue. */
  lemma BehindOnlyWhenFull(r: Receiver, ev: RxEvent, inbox: set<Packet>)
    requires RxEnabled(r, ev, inbox) && (r.phase.Idle? ==> UpToDate(r))
    requires ev.StopMoving? ==> RECV_QUEUE_CAPACITY - |r.recvQueue| > 1
    ensures var r' := RxApply(r, ev, inbox); r'.phase.Idle? ==> UpToDate(r')
  {
  }

  /** So in a run in which recvQueue never fills up, every input loop at rest is up to date and has
      room for whatever comes next: its wait for room in recvBuf never blocks. */
  lemma {:induction false} InputNeverWaits(acts: seq<Action>)
    requires CanExecute(Initial(), acts) && NeverFull(Initial(), acts)
    ensures var s := Execute(Initial(), acts);
      && (s.a.rx.phase.Idle? ==> UpToDate(s.a.rx) && TREE_CAPACITY - |s.a.rx.recvBuf| >= 2)
      && (s.b.rx.phase.Idle? ==> UpToDate(s.b.rx) && TREE_CAPACITY - |s.b.rx.recvBuf| >= 2)
    decreases |acts|
  {
    EveryRunBoundsBuffers(acts);
    if acts != [] {
      var init, last := acts[..|acts| - 1], acts[|acts| - 1];
      InputNeverWaits(init);
      var s := Execute(Initial(), init);
      var (e, inbox) := if last.atA then (s.a, s.toA) else (s.b, s.toB);
      if last.event.Rx? {
        BehindOnlyWhenFull(e.rx, last.event.rx, inbox);
      }
    }
  }

  // ---------------------------------------------------------------------------------------------
  // What is held was sent
  // ---------------------------------------------------------------------------------------------

  /** Every packet in recvBuf is one that the peer put on the network. */
  ghost predicate WereSent(r: Receiver, data: set<Packet>) {
    forall k :: k in r.recvBuf ==> r.recvBuf[k] in data
  }

  lemma StepKeepsSent(s: System, act: Action)
    requires CanStep(s, act) && WereSent(s.a.rx, s.toA) && WereSent(s.b.rx, s.toB)
    ensures var s' := Step(s, act); WereSent(s'.a.rx, s'.toA) && WereSent(s'.b.rx, s'.toB)
  {
    hide TxEnabled, TxApply, Emits, IsMin;
  }

  lemma {:induction false} HeldPacketsWereSent(acts: seq<Action>)
    requires CanExecute(Initial(), acts)
    ensures var s := Execute(Initial(), acts); WereSent(s.a.rx, s.toA) && WereSent(s.b.rx, s.toB)
    decreases |acts|
  {
    if acts != [] {
      var init := acts[..|acts| - 1];
      HeldPacketsWereSent(init);
      hide WereSent, CanStep, Step;
      StepKeepsSent(Execute(Initial(), init), acts[|acts| - 1]);
    }
  }

  /** Windows and counters of one sender. */
  ghost predicate SenderLimits(t: Sender) {
    && MIN_WINDOW <= t.congestionWindow <= MAX_WINDOW
    && |t.txLog| == t.nextSend
    && forall k :: 0 <= k < |t.txLog| ==> t.txLog[k] <= TX_COUNT_LIMIT
  }

  lemma EveryRunRespectsLimits(acts: seq<Action>)
    requires CanExecute(Initial(), acts)
    ensures var s := Execute(Initial(), acts);
      SenderLimits(s.a.tx) && SenderLimits(s.b.tx)
  {
    ReachableInv(acts);
  }

  function SenderOf(s: System, atA: bool): Sender {
    if atA then s.a.tx else s.b.tx
  }

  /** At some point of the run since a segment last left that side's queue, its congestion window was
      this one. */
  ghost predicate WasWindow(acts: seq<Action>, atA: bool, window: nat)
    requires CanExecute(Initial(), acts)
    decreases |acts|
  {
    || SenderOf(Execute(Initial(), acts), atA).congestionWindow == window
    || (acts != [] && !(acts[|acts| - 1].atA == atA && acts[|acts| - 1].event.Tx? && acts[|acts| - 1].event.tx.Dequeue?)
        && WasWindow(acts[..|acts| - 1], atA, window))
  }

  /** What one step does to the congestion window and the record of it. */
  lemma EventWindows(t: Sender, ev: TxEvent, inbox: set<Packet>)
    requires TxEnabled(t, ev, inbox)
    ensures var t' := TxApply(t, ev, inbox);
      if ev.Dequeue? then t'.windows == {t'.congestionWindow}
      else || t'.windows == t.windows + {t'.congestionWindow}
           || (t'.windows == t.windows && t'.congestionWindow == t.congestionWindow)
  {
    hide IsMin, Insert;
  }

  lemma StepWindows(s: System, act: Action, atA: bool)
    requires CanStep(s, act)
    ensures var t, t' := SenderOf(s, atA), SenderOf(Step(s, act), atA);
      if act.atA == atA && act.event.Tx? && act.event.tx.Dequeue? then t'.windows == {t'.congestionWindow}
      else || t'.windows == t.windows + {t'.congestionWindow}
           || (t'.windows == t.windows && t'.congestionWindow == t.congestionWindow)
  {
    hide RxEnabled, RxApply, TxEnabled, TxApply, Emits;
    if act.event.Tx? {
      var e, inbox := if act.atA then s.a else s.b, if act.atA then s.toA else s.toB;
      EventWindows(e.tx, act.event.tx, inbox);
    }
  }

  /** The record holds exactly those windows. */
  lemma {:induction false} WindowsRecorded(acts: seq<Action>, atA: bool, window: nat)
    requires CanExecute(Initial(), acts)
    ensures window in SenderOf(Execute(Initial(), acts), atA).windows <==> WasWindow(acts, atA, window)
    decreases |acts|
  {
    if acts != [] {
      var init, last := acts[..|acts| - 1], acts[|acts| - 1];
      WindowsRecorded(init, atA, window);
      ReachableInv(init);
      var s := Execute(Initial(), init);
      assert SenderOf(s, atA).congestionWindow in SenderOf(s, atA).windows;
      hide CanStep, Step, Inv;
      StepWindows(s, last, atA);
    }
  }

  lemma TxInsertSucceeds(t: Sender, ev: TxEvent, inbox: set<Packet>)
    requires SenderOk(t) && TxEnabled(t, ev, inbox)
    ensures var t' := TxApply(t, ev, inbox);
      && (t'.nextSend > t.nextSend ==> t.nextSend in t'.sendQueue)
      && (ev.Transmit? ==> t.inHand.sn in t'.sendBuf)
      && (ev.Dequeue? ==> |t.sendBuf| < ev.window && ev.window in t.windows)
  {
    TxKeepsSenderOk(t, ev, inbox);
  }

  lemma RxInsertSucceeds(r: Receiver, ev: RxEvent, inbox: set<Packet>)
    requires ReceiverOk(r) && RxEnabled(r, ev, inbox)
    ensures var r' := RxApply(r, ev, inbox);
      && (ev.Arrive? ==> ev.packet.sn in r'.recvBuf)
      && (ev.Enqueue? ==> r.nextRecv in r'.recvQueue)
  {
  }

  /** In every reachable state, no tree refuses the segment that an event puts in it, and a new
      segment leaves the queue only while fewer segments are in flight than the congestion window
      was at some point since the segment before it left. */
  lemma EveryInsertSucceeds(acts: seq<Action>, act: Action)
    requires CanExecute(Initial(), acts) && CanStep(Execute(Initial(), acts), act)
    ensures var s := Execute(Initial(), acts);
      var e := if act.atA then s.a else s.b;
      var e' := if act.atA then Step(s, act).a else Step(s, act).b;
      && (e'.tx.nextSend > e.tx.nextSend ==> e.tx.nextSend in e'.tx.sendQueue)
      && (act.event.Tx? && act.event.tx.Transmit? ==> e.tx.inHand.sn in e'.tx.sendBuf)
      && (act.event.Tx? && act.event.tx.Dequeue? ==>
            |e.tx.sendBuf| < act.event.tx.window && WasWindow(acts, act.atA, act.event.tx.window))
      && (act.event.Rx? && act.event.rx.Arrive? ==> act.event.rx.packet.sn in e'.rx.recvBuf)
      && (act.event == Rx(Enqueue) ==> e.rx.nextRecv in e'.rx.recvQueue)
  {
    ReachableInv(acts);
    var s := Execute(Initial(), acts);
    var (e, inbox) := if act.atA then (s.a, s.toA) else (s.b, s.toB);
    match act.event
    case Tx(tx) =>
      TxInsertSucceeds(e.tx, tx, inbox);
      if tx.Dequeue? {
        WindowsRecorded(acts, act.atA, tx.window);
      }
    case Rx(rx) => RxInsertSucceeds(e.rx, rx, inbox);
  }
}
