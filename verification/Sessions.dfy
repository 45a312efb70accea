/** The session object of a packet transport.  Every method is proved to be a run of the step
    system, so what every run keeps holds of the code; each also states its own effect. */
module Sessions {
  import opened Bytes
  import opened Arq
  import opened ArqSafety
  import opened Fragmentation
  import opened Congestion
  import opened Writing

  method MinKey<T>(tree: map<nat, T>) returns (k: nat)
    requires tree != map[]
    ensures IsMin(tree, k)
  {
    k :| k in tree;
    var rest := tree.Keys - {k};
    while rest != {}
      invariant k in tree && forall j :: j in tree && j !in rest ==> k <= j
      invariant rest <= tree.Keys
    {
      var j :| j in rest;
      rest := rest - {j};
      k := if j < k then j else k;
    }
  }

  /** Enough acknowledgements asked for the segment again after its first transmission. */
  predicate DueEarly(item: Sent) {
    item.ackCount >= 3 && item.txCount <= 1
  }

  /** Retransmission is due early or after a timeout. */
  predicate Due(item: Sent, timedOut: bool) {
    DueEarly(item) || timedOut
  }

  /** What a retransmission pass leaves of one segment. */
  function Resent(item: Sent, timedOut: bool): Sent {
    if Due(item, timedOut) then Sent(item.segment, item.txCount + 1, 0) else item
  }

  ghost predicate SubTree<T>(small: map<nat, T>, big: map<nat, T>) {
    forall k :: k in small ==> k in big && small[k] == big[k]
  }

  lemma SubTreeRemove<T>(small: map<nat, T>, big: map<nat, T>, k: nat)
    requires SubTree(small, big) && IsMin(small, k)
    ensures SubTree(small - {k}, big) && k in small && k in big && small[k] == big[k]
  {
  }

  /** What an acknowledgement leaves in flight. */
  function Unacked(tree: map<nat, Sent>, unAck: nat): map<nat, Sent> {
    map k | k in tree && k >= unAck :: tree[k]
  }

  /** What the congestion control goes by: slow start or not, the window, and the acknowledgements since the
      last loss. */
  datatype Control = Control(slow: bool, window: nat, acks: nat)

  /** The congestion control has reacted to one more acknowledgement, with the curve at this value. */
  predicate OneMoreAck(w: Control, w': Control, curve: nat) {
    && w'.slow == w.slow
    && if w.slow then w'.window == Min(w.window + 1, 4096) && w'.acks == w.acks
       else
         w'.acks == (w.acks + 1) % 0x1_0000_0000 && FollowsCurve(w', curve)
  }

  predicate IsGone(before: map<nat, Sent>, now: map<nat, Sent>, k: nat) {
    k in before && k !in now
  }

  /** The congestion control has reacted to every segment of `before` that is gone: in slow start the window
      has grown by one for each, and otherwise it follows the curve at the last of them. */
  ghost predicate Grown(before: map<nat, Sent>, now: map<nat, Sent>, w0: Control, w: Control, curve: nat -> nat) {
    var n := |before| - |now|;
    && w.slow == w0.slow && (n == 0 ==> w == w0)
    && (w.slow ==> w.window == Min(w0.window + n, 4096) && w.acks == w0.acks)
    && (!w.slow && w0.acks + n < 0x1_0000_0000 ==> w.acks == w0.acks + n)
    && (!w.slow && n > 0 ==> exists k :: LastGone(before, now, k) && FollowsCurve(w, curve(k)))
  }

  ghost predicate LastGone(before: map<nat, Sent>, now: map<nat, Sent>, k: nat) {
    IsGone(before, now, k) && forall j: nat :: IsGone(before, now, j) ==> j <= k
  }

  predicate FollowsCurve(w: Control, value: nat) {
    w.window == Max(16, Min(4096, (value + w.acks / 16) % 0x1_0000_0000))
  }

  /** Some of the acknowledged segments of `before` are gone, from the front. */
  ghost predicate DropState(before: map<nat, Sent>, now: map<nat, Sent>, unAck: nat) {
    && SubTree(now, before) && SubTree(Unacked(before, unAck), now) && |now| <= |before|
    && forall j: nat, k: nat :: IsGone(before, now, j) && k in now ==> j < k
  }

  lemma DropStart(tree: map<nat, Sent>, unAck: nat, w: Control, curve: nat -> nat)
    requires w.window <= 4096
    ensures DropState(tree, tree, unAck) && Grown(tree, tree, w, w, curve)
  {
  }

  lemma DropNext(before: map<nat, Sent>, now: map<nat, Sent>, unAck: nat, k: nat)
    requires DropState(before, now, unAck) && IsMin(now, k) && k < unAck
    ensures DropState(before, now - {k}, unAck) && |now - {k}| == |now| - 1 && LastGone(before, now - {k}, k)
  {
    assert (now - {k}).Keys == now.Keys - {k};
    assert forall j :: IsGone(before, now - {k}, j) ==> j == k || IsGone(before, now, j);
  }

  lemma GrowNext(before: map<nat, Sent>, now: map<nat, Sent>, now': map<nat, Sent>, w0: Control, w: Control,
                 w': Control, curve: nat -> nat, k: nat)
    requires Grown(before, now, w0, w, curve) && OneMoreAck(w, w', curve(k)) && w0.window <= 4096
    requires |now'| == |now| - 1 && |now| <= |before| && LastGone(before, now', k)
    ensures Grown(before, now', w0, w', curve)
  {
    hide LastGone;
    if !w'.slow {
      assert FollowsCurve(w', curve(k));
    }
  }

  lemma DropEnd(before: map<nat, Sent>, now: map<nat, Sent>, unAck: nat)
    requires DropState(before, now, unAck)
    requires now == map[] || exists k: nat :: IsMin(now, k) && k >= unAck
    ensures now == Unacked(before, unAck)
  {
  }

  /** Emptying recvQueue, whose first number was `lo`, has come to number `at`. */
  ghost predicate PopState(queue: map<nat, Packet>, queue0: map<nat, Packet>, lo: nat, at: nat, end: nat,
                           unread0: bytes, unread: bytes) {
    && lo <= at <= end && HoldsRange(queue, at, end) && SubTree(queue, queue0)
    && unread == unread0 + QueuedBytes(queue0, lo, at)
  }

  lemma PopBegins(r: Receiver)
    requires ReceiverOk(r)
    ensures PopState(r.recvQueue, r.recvQueue, r.popped, r.popped, InOrder(r), r.unread, r.unread)
  {
    assert QueuedBytes(r.recvQueue, r.popped, r.popped) == [];
  }

  lemma PopNext(queue: map<nat, Packet>, queue0: map<nat, Packet>, lo: nat, at: nat, end: nat,
                unread0: bytes, unread: bytes, k: nat)
    requires PopState(queue, queue0, lo, at, end, unread0, unread) && IsMin(queue, k)
    ensures k in queue && |queue - {k}| < |queue|
    ensures PopState(queue - {k}, queue0, lo, at + 1, end, unread0, unread + SegmentPayload(queue[k]))
  {
    RemoveMin(queue, at, end, k);
    SubTreeRemove(queue, queue0, k);
    var payload := SegmentPayload(queue[k]);
    assert (unread0 + QueuedBytes(queue0, lo, at)) + payload == unread0 + (QueuedBytes(queue0, lo, at) + payload);
  }

  lemma PopEnds(queue0: map<nat, Packet>, lo: nat, at: nat, end: nat, unread0: bytes, unread: bytes)
    requires PopState(map[], queue0, lo, at, end, unread0, unread)
    ensures at == end && unread == unread0 + QueuedBytes(queue0, lo, end)
  {
    EmptyRange<Packet>(map[], at, end);
  }

  /** Emptying recvQueue into unreadBuf keeps the received stream. */
  lemma PoppingKeepsStream(r: Receiver, r': Receiver)
    requires r'.read == r.read && r'.popped == InOrder(r') == InOrder(r)
    requires r'.unread == r.unread + QueuedBytes(r.recvQueue, r.popped, InOrder(r))
    ensures Received(r') == Received(r) == r'.read + r'.unread
  {
    assert QueuedBytes(r'.recvQueue, r'.popped, InOrder(r')) == [];
    var q := QueuedBytes(r.recvQueue, r.popped, InOrder(r));
    assert r.read + r.unread + q == r.read + (r.unread + q);
  }

  /** What a read can hand out at once: the bytes left over from the last one, or if there are none
      everything that is in order and not read yet. */
  function Offered(r: Receiver): bytes {
    if r.unread != [] then r.unread else Received(r)[|r.read|..]
  }

  lemma PoppingOffers(r: Receiver, r': Receiver)
    requires r.unread == [] && r'.read == r.read && Received(r') == Received(r) == r'.read + r'.unread
    ensures r'.unread == Offered(r)
  {
    assert r'.unread == (r'.read + r'.unread)[|r'.read|..];
  }

  lemma ConsumingKeepsStream(r: Receiver, r': Receiver, n: nat)
    requires n <= |r.unread| && r' == r.(read := r.read + r.unread[..n], unread := r.unread[n..])
    ensures Received(r') == Received(r)
  {
    assert r.read + r.unread == r'.read + r'.unread;
  }

  // ---------------------------------------------------------------------------------------------
  // What delivery does
  // ---------------------------------------------------------------------------------------------

  /** One segment has left recvBuf, and is in order if it was the one waited for. */
  ghost predicate OneDelivered(r: Receiver, w: nat, r': Receiver, w': nat, k: nat) {
    && k in r.recvBuf && r'.recvBuf == r.recvBuf - {k}
    && if k == r.nextRecv then
         && r'.nextRecv == k + 1 && r'.recvQueue == r.recvQueue[k := r.recvBuf[k]]
         && w' == if HasUnAck(r.recvBuf[k]) then r.recvBuf[k].window else w
       else r'.nextRecv == r.nextRecv && r'.recvQueue == r.recvQueue && w' == w
  }

  predicate PutInOrder(buf: map<nat, Packet>, queue: map<nat, Packet>, k: nat) {
    k in buf && k in queue && queue[k] == buf[k]
  }

  /** recvQueue has gained exactly the numbers of [first, next), from recvBuf. */
  ghost predicate QueueGained(buf: map<nat, Packet>, queue0: map<nat, Packet>, queue: map<nat, Packet>, first: nat,
                              next: nat) {
    && SubTree(queue0, queue)
    && (forall k: nat :: first <= k < next ==> PutInOrder(buf, queue, k))
    && (forall k: nat :: k in queue ==> k in queue0 || first <= k < next)
  }

  /** recvBuf has lost only what comes before `next`, from the front. */
  ghost predicate BufferLost(buf0: map<nat, Packet>, buf: map<nat, Packet>, next: nat) {
    && SubTree(buf, buf0)
    && (forall j :: j in buf0 && j !in buf ==> j < next && forall k :: k in buf ==> j < k)
  }

  /** The window that the last of the segments [first, next) told, or else `w`. */
  function LastWindow(buf: map<nat, Packet>, first: nat, next: nat, w: nat): nat {
    if next <= first then w
    else if next - 1 in buf && HasUnAck(buf[next - 1]) then buf[next - 1].window
    else LastWindow(buf, first, next - 1, w)
  }

  /** Segments have moved from recvBuf to recvQueue in order, each telling the peer's window. */
  ghost predicate Moved(r0: Receiver, w0: nat, r: Receiver, w: nat) {
    && r0.nextRecv <= r.nextRecv
    && QueueGained(r0.recvBuf, r0.recvQueue, r.recvQueue, r0.nextRecv, r.nextRecv)
    && BufferLost(r0.recvBuf, r.recvBuf, r.nextRecv)
    && w == LastWindow(r0.recvBuf, r0.nextRecv, r.nextRecv, w0)
  }

  /** Nothing more can move: recvQueue is full, or the segment waited for has not arrived. */
  ghost predicate NoMoreToMove(r: Receiver) {
    1024 * 1024 - |r.recvQueue| <= 1 || forall k :: k in r.recvBuf ==> k > r.nextRecv
  }

  lemma MovingStarts(r: Receiver, w: nat)
    ensures Moved(r, w, r, w)
  {
  }

  lemma OneMoreGained(buf: map<nat, Packet>, queue0: map<nat, Packet>, queue: map<nat, Packet>, queue': map<nat,
                      Packet>,
                      first: nat, k: nat)
    requires QueueGained(buf, queue0, queue, first, k) && first <= k && k in buf && k !in queue && queue' == queue[k := buf[k]]
    ensures QueueGained(buf, queue0, queue', first, k + 1)
  {
    forall j: nat | first <= j < k + 1 ensures PutInOrder(buf, queue', j) {
      assert j < k ==> PutInOrder(buf, queue, j);
    }
  }

  lemma OneMoreLost(buf0: map<nat, Packet>, buf: map<nat, Packet>, buf': map<nat, Packet>, next: nat, next': nat,
                    k: nat)
    requires BufferLost(buf0, buf, next) && IsMin(buf, k) && buf' == buf - {k} && k < next' && next <= next'
    ensures BufferLost(buf0, buf', next') && k in buf0 && buf0[k] == buf[k]
  {
  }

  lemma MovingGoesOn(r0: Receiver, w0: nat, r: Receiver, w: nat, r': Receiver, w': nat, k: nat)
    requires Moved(r0, w0, r, w) && OneDelivered(r, w, r', w', k) && IsMin(r.recvBuf, k) && k <= r.nextRecv
    requires r.nextRecv !in r.recvQueue
    ensures Moved(r0, w0, r', w')
  {
    hide QueueGained, BufferLost, IsMin;
    OneMoreLost(r0.recvBuf, r.recvBuf, r'.recvBuf, r.nextRecv, r'.nextRecv, k);
    if k == r.nextRecv {
      OneMoreGained(r0.recvBuf, r0.recvQueue, r.recvQueue, r'.recvQueue, r0.nextRecv, k);
    }
  }

  lemma ReceiverAtWork(r: Receiver, k: nat)
    requires ReceiverOk(r) && r.phase.Moving? && k in r.recvBuf
    ensures r.recvBuf[k].sn == k && r.nextRecv !in r.recvQueue
  {
  }

  lemma InsertSucceeds<T>(tree: map<nat, T>, capacity: nat, k: nat, item: T)
    requires |tree| < capacity
    ensures Insert(tree, capacity, k, item) == tree[k := item]
  {
  }

  /** The receiver with a packet that has just arrived. */
  function WithPacket(r: Receiver, p: Packet): Receiver {
    r.(recvBuf := r.recvBuf[p.sn := p])
  }

  /** The peer's window after a packet that may tell it. */
  function WindowTold(p: Packet, w: nat): nat {
    if HasUnAck(p) then p.window else w
  }

  lemma SamePhase(r1: Receiver, r: Receiver, w: nat, r': Receiver, r2: Receiver, w': nat)
    requires Moved(r, w, r', w') && r1 == r.(phase := r1.phase) && r2 == r'.(phase := r2.phase)
    ensures Moved(r1, w, r2, w')
  {
  }

  lemma Shrinks(r: Receiver, w: nat, r': Receiver, w': nat, k: nat)
    requires OneDelivered(r, w, r', w', k)
    ensures |r'.recvBuf| < |r.recvBuf|
  {
    SmallerAfterRemoval(r.recvBuf, k);
  }

  /** What a packet with a segment does: it tells the peer's window, and if recvBuf has room it is put there,
      everything that is then in order moves on, and a server answers its first open request. */
  ghost predicate DataOutcome(e0: Endpoint, e: Endpoint, p: Packet, delivered: bool) {
    var told := WindowTold(p, e0.tx.remoteWindow);
    var answer := if delivered then Answer(p, e0.tx) else [];
    && (if delivered then Moved(WithPacket(e0.rx, p), told, e.rx, e.tx.remoteWindow) && NoMoreToMove(e.rx)
        else e.rx == e0.rx && e.tx.remoteWindow == told)
    && e.tx.openQueued == (e0.tx.openQueued || answer != []) && e.tx.log == e0.tx.log + answer
  }

  /** What a server queues when an open request comes in: once, an open response. */
  function Answer(p: Packet, t: Sender): seq<Segment> {
    if p.OpenPacket? && !t.isClient && !t.openQueued then [Segment(true, [], 0, 0)] else []
  }

  lemma PacketDone(e0: Endpoint, e1: Endpoint, e: Endpoint, p: Packet)
    requires Moved(WithPacket(e0.rx, p), e0.tx.remoteWindow, e1.rx, e1.tx.remoteWindow) && NoMoreToMove(e1.rx)
    requires e0.tx.remoteWindow == WindowTold(p, e0.tx.remoteWindow)
    requires e1.tx.isClient == e0.tx.isClient && e1.tx.openQueued == e0.tx.openQueued && e1.tx.log == e0.tx.log
    requires e.rx == e1.rx && e.tx.remoteWindow == e1.tx.remoteWindow
    requires e.tx.openQueued == (e1.tx.openQueued || (p.OpenPacket? && !e1.tx.isClient))
    requires e.tx.log == e1.tx.log + Answer(p, e1.tx)
    ensures DataOutcome(e0, e, p, true)
  {
    hide Moved, NoMoreToMove;
  }

  lemma DataDone(e0: Endpoint, e1: Endpoint, e: Endpoint, p: Packet)
    requires DataOutcome(e1, e, p, true) && e1.rx == e0.rx && e1.tx.remoteWindow == WindowTold(p, e0.tx.remoteWindow)
    requires e1.tx.isClient == e0.tx.isClient && e1.tx.openQueued == e0.tx.openQueued && e1.tx.log == e0.tx.log
    ensures DataOutcome(e0, e, p, true)
  {
    hide Moved, NoMoreToMove;
  }

  lemma ArrivedIsKept(e0: Endpoint, e: Endpoint, p: Packet, delivered: bool)
    requires DataOutcome(e0, e, p, delivered)
    ensures delivered ==> p.sn in e.rx.recvBuf || p.sn < e.rx.nextRecv
  {
    assert p.sn in WithPacket(e0.rx, p).recvBuf;
  }

  lemma SmallerAfterRemoval<T>(tree: map<nat, T>, k: nat)
    requires k in tree
    ensures |tree - {k}| < |tree|
  {
    assert (tree - {k}).Keys == tree.Keys - {k};
  }

  /** The acknowledgement counter of one segment, a byte that wraps around, goes up. */
  function Counted(tree: map<nat, Sent>, k: nat): map<nat, Sent> {
    if k in tree then tree[k := tree[k].(ackCount := (tree[k].ackCount + 1) % 256)] else tree
  }

  /** An acknowledgement up to `unAck` has been handled: what is below has left, the segment asked for has been
      counted in its byte, and nothing else has changed. */
  ghost predicate AckOutcome(before: map<nat, Sent>, now: map<nat, Sent>, unAck: nat) {
    && (forall k :: k in now <==> k in before && unAck <= k)
    && (forall k :: k in now ==> now[k].segment == before[k].segment && now[k].txCount == before[k].txCount)
    && (forall k :: k in now && k != unAck ==> now[k].ackCount == before[k].ackCount)
    && (unAck in now ==> now[unAck].ackCount == if before[unAck].ackCount == 255 then 0 else before[unAck].ackCount + 1)
  }

  lemma CountedIsOutcome(tree: map<nat, Sent>, unAck: nat)
    ensures AckOutcome(tree, Counted(Unacked(tree, unAck), unAck), unAck)
  {
  }

  lemma GrownCounted(before: map<nat, Sent>, now: map<nat, Sent>, k: nat, w0: Control, w: Control, curve: nat -> nat)
    requires Grown(before, now, w0, w, curve)
    ensures Grown(before, Counted(now, k), w0, w, curve)
  {
    var now' := Counted(now, k);
    assert now'.Keys == now.Keys;
    assert forall j :: IsGone(before, now', j) <==> IsGone(before, now, j);
    assert forall j :: LastGone(before, now, j) ==> LastGone(before, now', j);
  }

  function PacketSet(packets: seq<Packet>): set<Packet> {
    set p | p in packets
  }

  lemma NoPackets(sent: set<Packet>)
    ensures sent == sent + PacketSet([])
  {
  }

  lemma OneMorePacket(sent: set<Packet>, packets: seq<Packet>, p: Packet)
    ensures (sent + PacketSet(packets)) + {p} == sent + PacketSet(packets + [p])
  {
  }

  lemma JoinPackets(packets: seq<Packet>, sent: seq<Packet>, more: seq<Packet>, ack: seq<Packet>)
    requires more == sent + ack
    ensures PacketSet(packets) + PacketSet(more) == PacketSet(packets + more) && packets + more == packets + sent + ack
  {
  }

  /** Both windows permit sending `n` more segments. */
  predicate MaySend(t: Sender, n: nat) {
    n == 0 || (n <= t.remoteWindow && |t.sendBuf| + n <= t.congestionWindow)
  }

  /** The packets are consecutive segments of the queue, from number `first` on. */
  ghost predicate SentInOrder(queue: map<nat, Segment>, first: nat, packets: seq<Packet>, unAck: nat) {
    forall i :: 0 <= i < |packets| ==> Carries(packets[i], queue, first + i, unAck)
  }

  /** The packet is segment `k` of the queue on its way. */
  predicate Carries(p: Packet, queue: map<nat, Segment>, k: nat, unAck: nat) {
    k in queue && IsCopy(p, k, queue[k], unAck)
  }

  /** The packet has the number, the payload and the kind of the segment, and if it is a data packet also the
      acknowledgement number of the moment and the segment's window and fragment number. */
  predicate IsCopy(p: Packet, k: nat, segment: Segment, unAck: nat) {
    && HasSegment(p) && p.sn == k && p.payload == segment.payload && p.OpenPacket? == segment.isOpen
    && (p.DataPacket? ==> p.unAck == unAck && p.window == segment.window && p.fragment == segment.fragment)
  }

  /** One more new segment may leave, after `n` of this turn that follow `already` retransmissions: one is
      queued, sendBuf keeps a free slot, and both windows have room. */
  predicate MaySendMore(queued: nat, inFlight: nat, already: nat, n: nat, window: nat, remote: nat) {
    && n < queued && inFlight + n < 4095
    && already + n < remote && already + n + inFlight + n < window
  }

  ghost predicate AllMaySend(queued: nat, inFlight: nat, already: nat, count: nat, window: nat, remote: nat) {
    forall n: nat :: n < count ==> MaySendMore(queued, inFlight, already, n, window, remote)
  }

  lemma OneMoreMaySend(queued: nat, inFlight: nat, already: nat, count: nat, window: nat, remote: nat)
    requires AllMaySend(queued, inFlight, already, count, window, remote)
    requires MaySendMore(queued, inFlight, already, count, window, remote)
    ensures AllMaySend(queued, inFlight, already, count + 1, window, remote)
  {
  }

  /** The queue has lost exactly what comes before number `next`. */
  ghost predicate Unsent(before: map<nat, Segment>, now: map<nat, Segment>, next: nat) {
    && (forall k :: k in now <==> k in before && k >= next)
    && (forall k :: k in now ==> now[k] == before[k])
  }

  predicate TransmittedOnce(tree: map<nat, Sent>, queue: map<nat, Segment>, k: nat) {
    k in queue && k in tree && tree[k] == Sent(queue[k], 1, 0)
  }

  /** sendBuf has gained exactly the numbers of [first, next), transmitted once. */
  ghost predicate Launched(before: map<nat, Sent>, now: map<nat, Sent>, queue: map<nat, Segment>, first: nat,
                           next: nat) {
    && SubTree(before, now)
    && (forall k: nat :: first <= k < next ==> TransmittedOnce(now, queue, k))
    && (forall k: nat :: k in now ==> k in before || first <= k < next)
  }

  /** The packets are the first segments of the queue, which have moved to sendBuf. */
  ghost predicate Sending(t0: Sender, t: Sender, packets: seq<Packet>, unAck: nat, already: nat) {
    && t.congestionWindow == t0.congestionWindow && t.remoteWindow == t0.remoteWindow
    && t.dequeued == t0.dequeued + |packets|
    && |t.sendQueue| == |t0.sendQueue| - |packets| && |t.sendBuf| == |t0.sendBuf| + |packets|
    && SentInOrder(t0.sendQueue, t0.dequeued, packets, unAck)
    && Unsent(t0.sendQueue, t.sendQueue, t.dequeued)
    && Launched(t0.sendBuf, t.sendBuf, t0.sendQueue, t0.dequeued, t.dequeued)
    && AllMaySend(|t0.sendQueue|, |t0.sendBuf|, already, |packets|, t0.congestionWindow, t0.remoteWindow)
  }

  lemma SendingStarts(t: Sender, unAck: nat, already: nat)
    requires SenderOk(t)
    ensures Sending(t, t, [], unAck, already)
  {
  }

  /** The sender after the next segment has gone out. */
  ghost predicate OneSent(t: Sender, t': Sender, p: Packet, unAck: nat) {
    var k := t.dequeued;
    && k in t.sendQueue && k !in t.sendBuf && p == Wire(k, t.sendQueue[k], unAck)
    && t'.dequeued == k + 1 && t'.sendQueue == t.sendQueue - {k}
    && t'.sendBuf == t.sendBuf[k := Sent(t.sendQueue[k], 1, 0)]
    && t'.congestionWindow == t.congestionWindow && t'.remoteWindow == t.remoteWindow
  }

  lemma OneMoreInOrder(queue: map<nat, Segment>, first: nat, packets: seq<Packet>, k: nat, p: Packet, unAck: nat)
    requires SentInOrder(queue, first, packets, unAck) && k == first + |packets| && Carries(p, queue, k, unAck)
    ensures SentInOrder(queue, first, packets + [p], unAck)
  {
  }

  lemma OneLessUnsent(before: map<nat, Segment>, now: map<nat, Segment>, now': map<nat, Segment>, k: nat)
    requires Unsent(before, now, k) && k in now && now' == now - {k}
    ensures Unsent(before, now', k + 1) && |now'| == |now| - 1 && k in before && before[k] == now[k]
  {
    assert (now - {k}).Keys == now.Keys - {k};
  }

  lemma OneMoreLaunched(before: map<nat, Sent>, now: map<nat, Sent>, now': map<nat, Sent>,
                        queue: map<nat, Segment>, first: nat, k: nat, segment: Segment)
    requires Launched(before, now, queue, first, k) && k !in now && k in queue && queue[k] == segment && first <= k
    requires now' == now[k := Sent(segment, 1, 0)]
    ensures Launched(before, now', queue, first, k + 1) && |now'| == |now| + 1
  {
    assert now'.Keys == now.Keys + {k};
    forall j: nat | first <= j < k + 1 ensures TransmittedOnce(now', queue, j) {
      assert j < k ==> TransmittedOnce(now, queue, j);
    }
  }

  lemma QueueAfter(queue: map<nat, Segment>, t: Sender, t': Sender, p: Packet, unAck: nat)
    requires Unsent(queue, t.sendQueue, t.dequeued) && OneSent(t, t', p, unAck)
    ensures Unsent(queue, t'.sendQueue, t'.dequeued) && |t'.sendQueue| == |t.sendQueue| - 1 >= 0
    ensures Carries(p, queue, t.dequeued, unAck) && t'.dequeued == t.dequeued + 1
  {
    OneLessUnsent(queue, t.sendQueue, t'.sendQueue, t.dequeued);
  }

  lemma BufferAfter(before: map<nat, Sent>, queue: map<nat, Segment>, first: nat, t: Sender, t': Sender, p: Packet,
                    unAck: nat)
    requires Launched(before, t.sendBuf, queue, first, t.dequeued) && first <= t.dequeued
    requires OneSent(t, t', p, unAck) && Carries(p, queue, t.dequeued, unAck)
    requires Unsent(queue, t.sendQueue, t.dequeued)
    ensures Launched(before, t'.sendBuf, queue, first, t'.dequeued) && |t'.sendBuf| == |t.sendBuf| + 1
    ensures t'.congestionWindow == t.congestionWindow && t'.remoteWindow == t.remoteWindow
  {
    hide Launched, Wire;
    OneMoreLaunched(before, t.sendBuf, t'.sendBuf, queue, first, t.dequeued, t.sendQueue[t.dequeued]);
  }

  lemma SendingGoesOn(t0: Sender, t: Sender, t': Sender, packets: seq<Packet>, p: Packet, unAck: nat, already: nat)
    requires Sending(t0, t, packets, unAck, already) && OneSent(t, t', p, unAck)
    requires TREE_CAPACITY - |t.sendBuf| > 1 && already + |packets| < SendWindow(t)
    ensures Sending(t0, t', packets + [p], unAck, already)
  {
    hide SentInOrder, Unsent, Launched, AllMaySend, OneSent, Carries;
    QueueAfter(t0.sendQueue, t, t', p, unAck);
    BufferAfter(t0.sendBuf, t0.sendQueue, t0.dequeued, t, t', p, unAck);
    OneMoreInOrder(t0.sendQueue, t0.dequeued, packets, t.dequeued, p, unAck);
    OneMoreMaySend(|t0.sendQueue|, |t0.sendBuf|, already, |packets|, t0.congestionWindow, t0.remoteWindow);
  }

  /** Sending stops only where it has to. */
  lemma SendingEnds(t0: Sender, t: Sender, packets: seq<Packet>, unAck: nat, already: nat)
    requires Sending(t0, t, packets, unAck, already)
    requires TREE_CAPACITY - |t.sendBuf| <= 1 || t.sendQueue == map[] || already + |packets| >= SendWindow(t)
    ensures !MaySendMore(|t0.sendQueue|, |t0.sendBuf|, already, |packets|, t0.congestionWindow, t0.remoteWindow)
    ensures packets != [] ==> |t.sendBuf| <= t.congestionWindow && already + |packets| <= t.remoteWindow
    ensures |t.sendBuf| <= Max(|t0.sendBuf|, t.congestionWindow)
  {
    if packets != [] {
      assert MaySendMore(|t0.sendQueue|, |t0.sendBuf|, already, |packets| - 1, t0.congestionWindow, t0.remoteWindow);
    }
  }

  /** The next segment to send is not in sendBuf. */
  lemma NextIsNotInFlight(t: Sender)
    requires SenderOk(t) && t.inHand.EmptyHand?
    ensures t.dequeued !in t.sendBuf
  {
  }

  lemma FirstToSend(run: Run, e: Endpoint, k: nat)
    requires SenderOk(run.start.tx) && ReceiverOk(run.start.rx) && Traced(run, e) && IsMin(e.tx.sendQueue, k)
    ensures k == e.tx.dequeued
  {
    hide Traced, ReceiverOk;
    TracedOk(run, e);
    RemoveMin(e.tx.sendQueue, e.tx.dequeued, e.tx.nextSend, k);
  }

  lemma MinIsIn<T>(tree: map<nat, T>, k: nat)
    requires IsMin(tree, k)
    ensures k in tree && |tree - {k}| < |tree|
  {
    SmallerAfterRemoval(tree, k);
  }

  /** A retransmission pass over `before` has reached the point where `left` is still to come. */
  ghost predicate PassState(before: map<nat, Sent>, now: map<nat, Sent>, left: map<nat, Sent>, timedOut: set<nat>) {
    && now.Keys == before.Keys && left.Keys <= now.Keys
    && (forall k :: k in left ==> left[k] == before[k] == now[k])
    && (forall j: nat, k: nat :: j in now && j !in left && k in left ==> j < k)
    && (forall k :: k in now && k !in left ==>
          before[k].txCount < TX_COUNT_LIMIT && now[k] == Resent(before[k], k in timedOut))
  }

  lemma PassStart(before: map<nat, Sent>, timedOut: set<nat>)
    ensures PassState(before, before, before, timedOut)
  {
  }

  lemma PassItem(before: map<nat, Sent>, now: map<nat, Sent>, left: map<nat, Sent>, timedOut: set<nat>, k: nat)
    requires PassState(before, now, left, timedOut) && IsMin(left, k)
    ensures k in left && k in before && k in now && left[k] == now[k] == before[k] && |left - {k}| < |left|
    ensures left[k].txCount < TX_COUNT_LIMIT && !Due(left[k], k in timedOut) ==>
      PassState(before, now, left - {k}, timedOut)
    ensures left[k].txCount < TX_COUNT_LIMIT && Due(left[k], k in timedOut) ==>
      PassState(before, now[k := Sent(now[k].segment, now[k].txCount + 1, 0)], left - {k}, timedOut)
  {
    SmallerAfterRemoval(left, k);
  }

  lemma PassEnd(before: map<nat, Sent>, now: map<nat, Sent>, left: map<nat, Sent>, timedOut: set<nat>)
    requires PassState(before, now, left, timedOut)
    requires left == map[] || exists k :: k in left && left[k].txCount >= TX_COUNT_LIMIT
    ensures now.Keys == before.Keys
    ensures left == map[] <==> forall k :: k in before ==> before[k].txCount < TX_COUNT_LIMIT
    ensures left == map[] ==> forall k :: k in now ==> now[k] == Resent(before[k], k in timedOut)
  {
  }

  ghost predicate AnyEarly(tree: map<nat, Sent>) {
    exists k :: k in tree && DueEarly(tree[k])
  }

  ghost predicate AnyTimeout(tree: map<nat, Sent>, timedOut: set<nat>) {
    exists k :: k in tree && k in timedOut && !DueEarly(tree[k])
  }

  /** The congestion window after a turn: a timeout counts for more than an early detected loss. */
  ghost function WindowAfter(window: nat, tree: map<nat, Sent>, retransmit: bool, timedOut: set<nat>,
                             reduced: nat): nat {
    if retransmit && AnyTimeout(tree, timedOut) then 16
    else if retransmit && AnyEarly(tree) then Max(16, reduced)
    else window
  }

  /** A timeout starts slow start, and an early detected loss ends it. */
  ghost predicate SlowStartAfter(slow: bool, tree: map<nat, Sent>, retransmit: bool, timedOut: set<nat>) {
    (retransmit && AnyTimeout(tree, timedOut)) || (slow && !(retransmit && AnyEarly(tree)))
  }

  /** The packets are, in ascending order, exactly those of the segments that are due. */
  ghost predicate Repeats(tree: map<nat, Sent>, timedOut: set<nat>, unAck: nat, packets: seq<Packet>) {
    && (forall i, j :: 0 <= i < j < |packets| ==> packets[i].sn < packets[j].sn)
    && (forall p :: p in packets ==> IsRepeat(p, tree, timedOut, unAck))
    && (forall k :: k in tree && Due(tree[k], k in timedOut) ==> exists p :: p in packets && p.sn == k)
  }

  predicate IsRepeat(p: Packet, tree: map<nat, Sent>, timedOut: set<nat>, unAck: nat) {
    p.sn in tree && Due(tree[p.sn], p.sn in timedOut) && IsCopy(p, p.sn, tree[p.sn].segment, unAck)
  }

  ghost predicate AllBelow(packets: seq<Packet>, tree: map<nat, Sent>) {
    forall p, k :: p in packets && k in tree ==> p.sn < k
  }

  /** What a pass has put out and found, before `left` is looked at. */
  ghost predicate PassOutput(before: map<nat, Sent>, left: map<nat, Sent>, timedOut: set<nat>, unAck: nat,
                             packets: seq<Packet>, loss: bool, timeout: bool) {
    var done := before - left.Keys;
    && Repeats(done, timedOut, unAck, packets) && AllBelow(packets, left)
    && loss == AnyEarly(done) && timeout == AnyTimeout(done, timedOut)
  }

  lemma OutputStart(before: map<nat, Sent>, timedOut: set<nat>, unAck: nat)
    ensures PassOutput(before, before, timedOut, unAck, [], false, false)
  {
  }

  lemma OutputItem(before: map<nat, Sent>, left: map<nat, Sent>, timedOut: set<nat>, unAck: nat,
                   packets: seq<Packet>, loss: bool, timeout: bool, k: nat)
    requires PassOutput(before, left, timedOut, unAck, packets, loss, timeout) && IsMin(left, k) && k in before
    ensures !Due(before[k], k in timedOut) ==> PassOutput(before, left - {k}, timedOut, unAck, packets, loss, timeout)
    ensures Due(before[k], k in timedOut) ==>
      PassOutput(before, left - {k}, timedOut, unAck, packets + [Wire(k, before[k].segment, unAck)],
                 loss || DueEarly(before[k]), timeout || !DueEarly(before[k]))
  {
    hide Repeats, AnyEarly, AnyTimeout, Wire, DueEarly, AllBelow, IsMin;
    var done := before - left.Keys;
    OneMoreDone(before, left, k);
    StillBelow(packets, left, k, Wire(k, before[k].segment, unAck));
    DoneItem(done, timedOut, k, before[k]);
    RepeatItem(done, timedOut, unAck, packets, k, before[k]);
  }

  lemma OneMoreDone(before: map<nat, Sent>, left: map<nat, Sent>, k: nat)
    requires k in before && IsMin(left, k)
    ensures before - (left - {k}).Keys == (before - left.Keys)[k := before[k]] && k !in before - left.Keys
  {
    assert (before - (left - {k}).Keys).Keys == (before - left.Keys).Keys + {k};
  }

  lemma StillBelow(packets: seq<Packet>, left: map<nat, Sent>, k: nat, p: Packet)
    requires AllBelow(packets, left) && IsMin(left, k)
    ensures AllBelow(packets, left - {k}) && forall q :: q in packets ==> q.sn < k
    ensures p.sn == k ==> AllBelow(packets + [p], left - {k})
  {
  }

  lemma RepeatItem(done: map<nat, Sent>, timedOut: set<nat>, unAck: nat, packets: seq<Packet>, k: nat, item: Sent)
    requires Repeats(done, timedOut, unAck, packets) && k !in done && forall p :: p in packets ==> p.sn < k
    ensures var p := Wire(k, item.segment, unAck);
      && p.sn == k
      && Repeats(done[k := item], timedOut, unAck, if Due(item, k in timedOut) then packets + [p] else packets)
  {
    var more, p := done[k := item], Wire(k, item.segment, unAck);
    var packets' := if Due(item, k in timedOut) then packets + [p] else packets;
    assert forall j :: j in done ==> j in more && more[j] == done[j];
    forall q | q in packets' ensures IsRepeat(q, more, timedOut, unAck) {
      assert q in packets ==> IsRepeat(q, done, timedOut, unAck);
    }
    forall i, j | 0 <= i < j < |packets'| ensures packets'[i].sn < packets'[j].sn {
      assert packets'[i] in packets;
    }
    forall j | j in more && Due(more[j], j in timedOut) ensures exists q :: q in packets' && q.sn == j {
      if j == k {
        assert packets'[|packets|] == p;
      } else {
        var q :| q in packets && q.sn == j;
        assert q in packets';
      }
    }
  }

  lemma DoneItem(done: map<nat, Sent>, timedOut: set<nat>, k: nat, item: Sent)
    requires k !in done
    ensures var more := done[k := item];
      && AnyEarly(more) == (AnyEarly(done) || DueEarly(item))
      && AnyTimeout(more, timedOut) == (AnyTimeout(done, timedOut) || (k in timedOut && !DueEarly(item)))
  {
    var more := done[k := item];
    assert forall j :: j in done ==> j in more && more[j] == done[j];
    assert k in more && more[k] == item;
  }

  lemma OutputEnd(before: map<nat, Sent>, timedOut: set<nat>, unAck: nat, packets: seq<Packet>, loss: bool,
                  timeout: bool)
    requires PassOutput(before, map[], timedOut, unAck, packets, loss, timeout)
    ensures Repeats(before, timedOut, unAck, packets)
    ensures loss == AnyEarly(before) && timeout == AnyTimeout(before, timedOut)
  {
    var none: map<nat, Sent> := map[];
    assert before - none.Keys == before;
  }

  function Before(tree: map<nat, Sent>, k: nat): map<nat, Sent> {
    map j | j in tree && j < k :: tree[j]
  }

  /** Segment `k` is the first that has reached the limit, and what is due before it has been repeated. */
  ghost predicate StopsAt(tree: map<nat, Sent>, timedOut: set<nat>, unAck: nat, packets: seq<Packet>, k: nat) {
    && k in tree && tree[k].txCount >= 20 && (forall j :: j in tree && j < k ==> tree[j].txCount < 20)
    && Repeats(Before(tree, k), timedOut, unAck, packets)
  }

  /** How a pass ends.  It stops at the first segment that has reached the limit. */
  ghost predicate PassResult(before: map<nat, Sent>, now: map<nat, Sent>, timedOut: set<nat>, unAck: nat,
                             packets: seq<Packet>, healthy: bool, loss: bool, timeout: bool) {
    && (healthy <==> forall k :: k in before ==> before[k].txCount < TX_COUNT_LIMIT)
    && (!healthy ==> exists k :: StopsAt(before, timedOut, unAck, packets, k))
    && now.Keys == before.Keys
    && (healthy ==>
          && (forall k :: k in now ==> now[k] == Resent(before[k], k in timedOut))
          && Repeats(before, timedOut, unAck, packets)
          && loss == AnyEarly(before) && timeout == AnyTimeout(before, timedOut))
  }

  /** A pass over `before` has reached the point where `left` is still to come. */
  ghost predicate InPass(before: map<nat, Sent>, now: map<nat, Sent>, left: map<nat, Sent>, timedOut: set<nat>,
                         unAck: nat,
                         packets: seq<Packet>, loss: bool, timeout: bool) {
    PassState(before, now, left, timedOut) && PassOutput(before, left, timedOut, unAck, packets, loss, timeout)
  }

  lemma PassBegins(before: map<nat, Sent>, timedOut: set<nat>, unAck: nat)
    ensures InPass(before, before, before, timedOut, unAck, [], false, false)
  {
    PassStart(before, timedOut);
    OutputStart(before, timedOut, unAck);
  }

  /** What becomes of the pass at its next segment: the pass fails if that has reached the limit, and goes on
      behind it otherwise, with one packet more if it is due. */
  lemma InPassAt(before: map<nat, Sent>, now: map<nat, Sent>, left: map<nat, Sent>, timedOut: set<nat>, unAck: nat,
                 packets: seq<Packet>, loss: bool, timeout: bool, k: nat)
    requires InPass(before, now, left, timedOut, unAck, packets, loss, timeout) && IsMin(left, k)
    ensures k in left && k in now && left[k] == now[k] && |left - {k}| < |left|
    ensures left[k].txCount >= TX_COUNT_LIMIT ==>
      PassResult(before, now, timedOut, unAck, packets, false, loss, timeout)
    ensures var item := left[k]; var early := item.ackCount >= 3 && item.txCount <= 1;
      item.txCount < TX_COUNT_LIMIT ==>
        if early || k in timedOut then
          InPass(before, now[k := Sent(item.segment, item.txCount + 1, 0)], left - {k}, timedOut, unAck,
                 packets + [Wire(k, item.segment, unAck)], loss || early, timeout || !early)
        else InPass(before, now, left - {k}, timedOut, unAck, packets, loss, timeout)
  {
    hide PassState, PassOutput, PassResult, IsMin, Wire;
    PassItem(before, now, left, timedOut, k);
    if left[k].txCount >= TX_COUNT_LIMIT {
      PassFails(before, now, left, timedOut, unAck, packets, loss, timeout, k);
    } else {
      OutputItem(before, left, timedOut, unAck, packets, loss, timeout, k);
    }
  }

  lemma PassFails(before: map<nat, Sent>, now: map<nat, Sent>, left: map<nat, Sent>, timedOut: set<nat>, unAck: nat,
                  packets: seq<Packet>, loss: bool, timeout: bool, k: nat)
    requires PassState(before, now, left, timedOut) && IsMin(left, k) && left[k].txCount >= TX_COUNT_LIMIT
    requires PassOutput(before, left, timedOut, unAck, packets, loss, timeout)
    ensures PassResult(before, now, timedOut, unAck, packets, false, loss, timeout)
  {
    hide Repeats;
    assert before - left.Keys == Before(before, k);
    assert StopsAt(before, timedOut, unAck, packets, k);
    PassEnd(before, now, left, timedOut);
  }

  lemma PassSucceeds(before: map<nat, Sent>, now: map<nat, Sent>, timedOut: set<nat>, unAck: nat,
                     packets: seq<Packet>, loss: bool, timeout: bool)
    requires InPass(before, now, map[], timedOut, unAck, packets, loss, timeout)
    ensures PassResult(before, now, timedOut, unAck, packets, true, loss, timeout)
  {
    PassEnd(before, now, map[], timedOut);
    OutputEnd(before, timedOut, unAck, packets, loss, timeout);
  }

  /** The acknowledgement of the moment, if one is due. */
  function Acknowledgement(e: Endpoint, due: bool): seq<Packet> {
    if due then [AckPacket(Max(0, e.tx.nextSend - 1), e.rx.nextRecv, Max(0, e.tx.congestionWindow - |e.rx.recvBuf|))] else []
  }

  /** What a turn's retransmission pass leaves, if there is one. */
  ghost predicate AfterPass(before: map<nat, Sent>, now: map<nat, Sent>, retransmit: bool, timedOut: set<nat>,
                            unAck: nat, packets: seq<Packet>) {
    if retransmit then
      && Repeats(before, timedOut, unAck, packets) && now.Keys == before.Keys
      && forall k :: k in now ==> now[k] == Resent(before[k], k in timedOut)
    else packets == [] && now == before
  }

  /** What becomes of a segment in flight: if it is due, one transmission more and no acknowledgements counted. */
  predicate Repeated(item: Sent, item': Sent, due: bool) {
    if due then item'.segment == item.segment && item'.txCount == item.txCount + 1 && item'.ackCount == 0
    else item' == item
  }

  lemma ResentIsRepeated(item: Sent, timedOut: bool)
    ensures Repeated(item, Resent(item, timedOut), (item.ackCount >= 3 && item.txCount <= 1) || timedOut)
  {
  }

  /** What a healthy turn does: `resent` are exactly the segments that are due, and `sent` are the first of the
      queue, as many as sendBuf and both windows permit and no fewer.  They move to sendBuf, and everything else
      stays where it is. */
  ghost predicate TurnOutcome(e0: Endpoint, e: Endpoint, retransmit: bool, timedOut: set<nat>,
                              resent: seq<Packet>, sent: seq<Packet>) {
    var t0, t, unAck := e0.tx, e.tx, e.rx.nextRecv;
    && (if retransmit then Repeats(t0.sendBuf, timedOut, unAck, resent) else resent == [])
    && t.dequeued == t0.dequeued + |sent| && SentInOrder(t0.sendQueue, t0.dequeued, sent, unAck)
    && Unsent(t0.sendQueue, t.sendQueue, t.dequeued)
    && AllMaySend(|t0.sendQueue|, |t0.sendBuf|, |resent|, |sent|, t.congestionWindow, t.remoteWindow)
    && !MaySendMore(|t0.sendQueue|, |t0.sendBuf|, |resent|, |sent|, t.congestionWindow, t.remoteWindow)
    && (forall k: nat :: t0.dequeued <= k < t.dequeued ==> TransmittedOnce(t.sendBuf, t0.sendQueue, k))
    && t0.sendBuf.Keys <= t.sendBuf.Keys
    && (forall k :: k in t0.sendBuf ==>
          var item := t0.sendBuf[k];
          Repeated(item, t.sendBuf[k], retransmit && ((item.ackCount >= 3 && item.txCount <= 1) || k in timedOut)))
    && (forall k: nat :: k in t.sendBuf ==> k in t0.sendBuf || t0.dequeued <= k < t.dequeued)
  }

  lemma TurnEnds(e0: Endpoint, e1: Endpoint, e: Endpoint, retransmit: bool, timedOut: set<nat>,
                 resent: seq<Packet>, sent: seq<Packet>)
    requires AfterPass(e0.tx.sendBuf, e1.tx.sendBuf, retransmit, timedOut, e.rx.nextRecv, resent)
    requires e1.tx.sendQueue == e0.tx.sendQueue && e1.tx.dequeued == e0.tx.dequeued
    requires |e1.tx.sendBuf| == |e0.tx.sendBuf|
    requires Sending(e1.tx, e.tx, sent, e.rx.nextRecv, |resent|)
    requires !MaySendMore(|e0.tx.sendQueue|, |e0.tx.sendBuf|, |resent|, |sent|, e.tx.congestionWindow, e.tx.remoteWindow)
    ensures TurnOutcome(e0, e, retransmit, timedOut, resent, sent)
  {
    hide Repeats, SentInOrder, Unsent, AllMaySend, MaySendMore, Resent, TransmittedOnce;
    forall k | retransmit && k in e0.tx.sendBuf
      ensures Repeated(e0.tx.sendBuf[k], Resent(e0.tx.sendBuf[k], k in timedOut),
                       (e0.tx.sendBuf[k].ackCount >= 3 && e0.tx.sendBuf[k].txCount <= 1) || k in timedOut)
    {
      ResentIsRepeated(e0.tx.sendBuf[k], k in timedOut);
    }
  }

  /** So a turn with an open window sends the first queued segment. */
  lemma OpenWindowSends(e0: Endpoint, e: Endpoint, retransmit: bool, timedOut: set<nat>,
                        resent: seq<Packet>, sent: seq<Packet>)
    requires TurnOutcome(e0, e, retransmit, timedOut, resent, sent) && SenderOk(e0.tx)
    requires e0.tx.inHand.EmptyHand? && e0.tx.sendQueue != map[] && |e0.tx.sendBuf| < 4095
    requires |resent| < e.tx.remoteWindow && |resent| + |e0.tx.sendBuf| < e.tx.congestionWindow
    ensures var k := e0.tx.dequeued;
      k in e0.tx.sendQueue && sent != [] && IsCopy(sent[0], k, e0.tx.sendQueue[k], e.rx.nextRecv)
  {
    assert MaySendMore(|e0.tx.sendQueue|, |e0.tx.sendBuf|, |resent|, 0, e.tx.congestionWindow, e.tx.remoteWindow);
    assert Carries(sent[0], e0.tx.sendQueue, e0.tx.dequeued + 0, e.rx.nextRecv);
  }

  lemma EmptyRange<T>(tree: map<nat, T>, lo: nat, hi: nat)
    requires HoldsRange(tree, lo, hi) && tree == map[] && lo <= hi
    ensures lo == hi
  {
    assert lo < hi ==> lo in tree;
  }

  /** Where a run leads, the endpoint's own part of the invariant still holds. */
  lemma TracedOk(run: Run, e: Endpoint)
    requires SenderOk(run.start.tx) && ReceiverOk(run.start.rx) && Traced(run, e)
    ensures SenderOk(e.tx) && ReceiverOk(e.rx)
  {
    hide SenderOk, ReceiverOk;
    RunKeepsEndpointOk(run.start, run.events, run.inbox);
  }

  /** So sendQueue holds as many segments as were queued and have not left it. */
  lemma QueueLength(run: Run, e: Endpoint)
    requires SenderOk(run.start.tx) && ReceiverOk(run.start.rx) && Traced(run, e)
    ensures |e.tx.sendQueue| == |e.tx.log| - e.tx.dequeued
  {
    hide Traced, ReceiverOk;
    TracedOk(run, e);
    HeldRangeSize(e.tx.sendQueue, e.tx.dequeued, e.tx.nextSend);
  }

  // ---------------------------------------------------------------------------------------------
  // What each event does to an endpoint
  // ---------------------------------------------------------------------------------------------

  ghost predicate Effect(e: Endpoint, ev: Event, inbox: set<Packet>, e': Endpoint, sends: set<Packet>) {
    Enabled(e, ev, inbox) && Apply(e, ev, inbox) == e' && Sends(e, ev) == sends
  }

  lemma CountEffect(e: Endpoint, p: Packet, inbox: set<Packet>)
    requires p in inbox && p.AckPacket?
    ensures Effect(e, Tx(CountAck(p)), inbox, e.(tx := e.tx.(sendBuf := Counted(e.tx.sendBuf, p.unAck))), {})
  {
  }

  lemma DequeueEffect(e: Endpoint, k: nat, inbox: set<Packet>)
    requires e.tx.inHand.EmptyHand? && TREE_CAPACITY - |e.tx.sendBuf| > 1 && IsMin(e.tx.sendQueue, k) && SendWindow(e.tx) > 0
    requires e.tx.congestionWindow in e.tx.windows
    ensures k in e.tx.sendQueue
    ensures Effect(e, Tx(Dequeue(k, e.tx.congestionWindow)), inbox,
                   e.(tx := e.tx.(inHand := Holding(k, e.tx.sendQueue[k]), sendQueue := e.tx.sendQueue - {k},
                                  dequeued := e.tx.dequeued + 1, windows := {e.tx.congestionWindow})), {})
  {
  }

  lemma FragmentEffect(e: Endpoint, part: bytes, window: nat, fragment: byte, inbox: set<Packet>)
    requires e.tx.reserved > 0 && window == ReceiveWindow(e)
    ensures Effect(e, Tx(QueueFragment(part, window, fragment)), inbox,
                   e.(tx := QueueSegment(e.tx, Segment(false, part, window, fragment)).(reserved := e.tx.reserved - 1)), {})
  {
  }

  lemma WindowEffect(e: Endpoint, p: Packet, inbox: set<Packet>)
    requires HasUnAck(p) && (p in inbox || e.rx.latest == Some(p))
    ensures Effect(e, Tx(StoreWindow(p)), inbox, e.(tx := e.tx.(remoteWindow := p.window)), {})
  {
  }

  lemma RetransmitEffect(e: Endpoint, k: nat, inbox: set<Packet>)
    requires k in e.tx.sendBuf && e.tx.sendBuf[k].txCount < TX_COUNT_LIMIT
    ensures var item := e.tx.sendBuf[k];
      Effect(e, Tx(Retransmit(k, e.rx.nextRecv)), inbox,
             e.(tx := e.tx.(sendBuf := e.tx.sendBuf[k := Sent(item.segment, item.txCount + 1, 0)],
                            txLog := CountTransmission(e.tx.txLog, k))),
             {Wire(k, item.segment, e.rx.nextRecv)})
  {
  }

  lemma DropEffect(e: Endpoint, k: nat, p: Packet, inbox: set<Packet>)
    requires p in inbox && HasUnAck(p) && IsMin(e.tx.sendBuf, k) && k < p.unAck
    ensures Effect(e, Tx(DropAcked(k, p)), inbox,
                   e.(tx := e.tx.(sendBuf := e.tx.sendBuf - {k}, acked := e.tx.acked + 1)), {})
  {
  }

  lemma OpenRequestEffect(e: Endpoint, payload: bytes, inbox: set<Packet>)
    requires e.tx.isClient && !e.tx.openQueued && |payload| <= MAX_OPEN_PAYLOAD
    ensures Effect(e, Tx(QueueOpenRequest(payload)), inbox,
                   e.(tx := QueueSegment(e.tx, Segment(true, payload, 0, 0)).(openQueued := true)), {})
  {
  }

  lemma OpenResponseEffect(e: Endpoint, inbox: set<Packet>)
    requires !e.tx.isClient && !e.tx.openQueued && exists p :: p in inbox && p.OpenPacket?
    ensures Effect(e, Tx(QueueOpenResponse), inbox,
                   e.(tx := QueueSegment(e.tx, Segment(true, [], 0, 0)).(openQueued := true)), {})
  {
  }

  lemma TransmitEffect(e: Endpoint, unAck: nat, inbox: set<Packet>)
    requires e.tx.inHand.Holding? && unAck <= e.rx.nextRecv && |e.tx.sendBuf| < TREE_CAPACITY
    ensures var k := e.tx.inHand.sn; var segment := e.tx.inHand.segment;
      Effect(e, Tx(Transmit(unAck)), inbox,
             e.(tx := e.tx.(inHand := EmptyHand, sendBuf := e.tx.sendBuf[k := Sent(segment, 1, 0)],
                            txLog := CountTransmission(e.tx.txLog, k))),
             {Wire(k, segment, unAck)})
  {
  }

  lemma ArriveEffect(e: Endpoint, p: Packet, inbox: set<Packet>)
    requires p in inbox && HasSegment(p) && e.rx.phase.Idle? && TREE_CAPACITY - |e.rx.recvBuf| > 1
    ensures Effect(e, Rx(Arrive(p)), inbox, e.(rx := e.rx.(recvBuf := e.rx.recvBuf[p.sn := p], phase := Moving)), {})
  {
  }

  lemma TakeEffect(e: Endpoint, k: nat, inbox: set<Packet>)
    requires e.rx.phase.Moving? && RECV_QUEUE_CAPACITY - |e.rx.recvQueue| > 1
    requires IsMin(e.rx.recvBuf, k) && k <= e.rx.nextRecv
    ensures k in e.rx.recvBuf
    ensures Effect(e, Rx(Take(k)), inbox,
                   e.(rx := e.rx.(recvBuf := e.rx.recvBuf - {k},
                                  phase := if k == e.rx.nextRecv then Taken(e.rx.recvBuf[k]) else Moving)), {})
  {
  }

  lemma EnqueueEffect(e: Endpoint, inbox: set<Packet>)
    requires e.rx.phase.Taken?
    ensures var p := e.rx.phase.packet;
      Effect(e, Rx(Enqueue), inbox,
             e.(rx := e.rx.(recvQueue := Insert(e.rx.recvQueue, RECV_QUEUE_CAPACITY, p.sn, p), phase := Queued,
                            latest := Some(p))), {})
  {
  }

  lemma AdvanceEffect(e: Endpoint, inbox: set<Packet>)
    requires e.rx.phase.Queued?
    ensures Effect(e, Rx(Advance), inbox, e.(rx := e.rx.(nextRecv := e.rx.nextRecv + 1, phase := Moving)), {})
  {
  }

  lemma PopEffect(e: Endpoint, k: nat, inbox: set<Packet>)
    requires IsMin(e.rx.recvQueue, k)
    ensures k in e.rx.recvQueue
    ensures Effect(e, Rx(Pop(k)), inbox,
                   e.(rx := e.rx.(recvQueue := e.rx.recvQueue - {k}, popped := e.rx.popped + 1,
                                  unread := e.rx.unread + SegmentPayload(e.rx.recvQueue[k]))), {})
  {
  }

  lemma ConsumeEffect(e: Endpoint, n: nat, inbox: set<Packet>)
    requires n <= |e.rx.unread|
    ensures Effect(e, Rx(Arq.Consume(n)), inbox,
                   e.(rx := e.rx.(read := e.rx.read + e.rx.unread[..n], unread := e.rx.unread[n..])), {})
  {
  }

  class Session {
    const isClient: bool
    const mtu: int
    const cubic: Cubic

    var openSent: bool
    var sendQueue: map<nat, Segment>
    var sendBuf: map<nat, Sent>
    var recvBuf: map<nat, Packet>
    var recvQueue: map<nat, Packet>
    var nextSend: nat
    var nextRecv: nat
    var unreadBuf: bytes
    var remoteWindow: nat
    var ackOnDataRecv: bool

    // where the loops stand, what happened so far, and the run of the current call
    ghost var reserved: nat
    ghost var inHand: Hand
    ghost var phase: Phase
    ghost var log: seq<Segment>
    ghost var txLog: seq<nat>
    ghost var dequeued: nat
    ghost var acked: nat
    ghost var windows: set<nat>
    ghost var popped: nat
    ghost var readLog: bytes
    ghost var latest: Option<Packet>
    ghost var run: Run

    ghost function View(): Endpoint
      reads this, cubic
    {
      Endpoint(
        Sender(isClient, openSent, sendQueue, reserved, inHand, sendBuf, nextSend, cubic.window, remoteWindow,
               log, txLog, dequeued, acked, windows),
        Receiver(recvBuf, recvQueue, phase, nextRecv, unreadBuf, popped, readLog, latest))
    }

    ghost predicate Shape()
      reads this, cubic
    {
      && mtu > PACKET_OVERHEAD && cubic.Valid() && cubic.minWindow == MIN_WINDOW && cubic.maxWindow == MAX_WINDOW
      && cubic.window in windows
    }

    ghost predicate Valid()
      reads this, cubic
    {
      && Shape()
      && reserved == 0 && inHand.EmptyHand? && phase.Idle?
      && SenderOk(View().tx) && ReceiverOk(View().rx)
    }

    /** The session is where its current run has led. */
    ghost predicate OnRun()
      reads this, cubic
    {
      Traced(run, View())
    }

    /** The current run began in state `e` of this session, with these packets sent by the peer. */
    ghost predicate RunFrom(e: Endpoint, inbox: set<Packet>)
      reads this, cubic
    {
      OnRun() && run.start == e && run.inbox == inbox
    }

    /** The current run goes on from where it was. */
    twostate predicate Continues()
      reads this, cubic
    {
      OnRun() && run.start == old(run.start) && run.inbox == old(run.inbox)
    }

    /** The same, and nothing more was sent. */
    twostate predicate Quietly()
      reads this, cubic
    {
      Continues() && run.sent == old(run.sent)
    }

    constructor (isClient: bool, mtu: int)
      requires mtu > PACKET_OVERHEAD
      ensures Valid() && fresh(cubic)
      ensures View() == Fresh(isClient)
      ensures cubic.window == remoteWindow == 16 && cubic.slowStart && nextSend == nextRecv == 0 && !ackOnDataRecv
      ensures sendQueue == map[] && sendBuf == map[] && recvQueue == map[] && recvBuf == map[] && unreadBuf == [] && !openSent
    {
      this.isClient, this.mtu := isClient, mtu;
      cubic := new Cubic(MIN_WINDOW, MAX_WINDOW);
      openSent, sendQueue, sendBuf, recvBuf, recvQueue := false, map[], map[], map[], map[];
      nextSend, nextRecv, unreadBuf, remoteWindow, ackOnDataRecv := 0, 0, [], MIN_WINDOW, false;
      reserved, inHand, phase, log, txLog, dequeued, acked := 0, EmptyHand, Idle, [], [], 0, 0;
      windows, popped, readLog, latest := {MIN_WINDOW}, 0, [], None;
    }

    ghost method Begin(inbox: set<Packet>)
      modifies this`run
      ensures RunFrom(View(), inbox) && run.sent == {} && run.events == []
    {
      TraceStart(View(), inbox);
      run := Run(View(), [], inbox, {});
    }

    /** Adds to the run an event that is about to happen. */
    ghost method Note(ev: Event)
      requires OnRun() && Enabled(View(), ev, run.inbox)
      modifies this`run
      ensures run.start == old(run.start) && run.inbox == old(run.inbox)
      ensures run.sent == if Sends(View(), ev) == {} then old(run.sent) else old(run.sent) + Sends(View(), ev)
      ensures Traced(run, Apply(View(), ev, run.inbox))
    {
      hide Traced, Enabled, Apply;
      Extend(run, View(), ev);
      run := Then(run, View(), ev);
    }

    /** Adds to the run an event that has just happened in state `e`. */
    ghost method NoteAfter(e: Endpoint, ev: Event)
      requires Traced(run, e) && Enabled(e, ev, run.inbox) && View() == Apply(e, ev, run.inbox)
      modifies this`run
      ensures Continues()
      ensures run.sent == if Sends(e, ev) == {} then old(run.sent) else old(run.sent) + Sends(e, ev)
    {
      hide Traced, Enabled, Apply;
      Extend(run, e, ev);
      run := Then(run, e, ev);
    }

    // -------------------------------------------------------------------------------------------
    // Writing
    // -------------------------------------------------------------------------------------------

    /** Gives the next number to a segment and queues it. */
    method Queue(segment: Segment)
      modifies this`sendQueue, this`nextSend, this`log, this`txLog
      ensures View() == old(View()).(tx := QueueSegment(old(View()).tx, segment))
    {
      if |sendQueue| < TREE_CAPACITY {
        sendQueue := sendQueue[nextSend := segment];
      }
      nextSend := nextSend + 1;
      log, txLog := log + [segment], txLog + [0];
    }

    /** Queues one fragment of a chunk that room was found for. */
    method QueueOneFragment(part: bytes, window: nat, fragment: byte)
      requires OnRun() && reserved > 0 && window == ReceiveWindow(View())
      modifies this`sendQueue, this`nextSend, this`log, this`txLog, this`reserved, this`run
      ensures Quietly()
      ensures reserved == old(reserved) - 1
      ensures log == old(log) + [Segment(false, part, window, fragment)]
    {
      hide Traced;
      FragmentEffect(View(), part, window, fragment, run.inbox);
      hide Enabled, Apply, Sends, QueueSegment;
      Note(Tx(QueueFragment(part, window, fragment)));
      Queue(Segment(false, part, window, fragment));
      reserved := reserved - 1;
    }

    /** Queues the next fragment, number `j` from the front, and gives what is left to cut. */
    method QueueNext(ptr: bytes, size: nat, window: nat, i: nat, ghost pieces: seq<bytes>, ghost j: nat)
      returns (rest: bytes)
      requires size > 0 && j + i + 1 == |pieces| && Pieces(ptr, size) == pieces[j..]
      requires OnRun() && reserved > 0 && window == ReceiveWindow(View())
      modifies this`sendQueue, this`nextSend, this`log, this`txLog, this`reserved, this`run
      ensures Quietly() && reserved == old(reserved) - 1
      ensures i > 0 ==> Pieces(rest, size) == pieces[j + 1..]
      ensures log == old(log) + [Segment(false, pieces[j], window, i % 256)]
    {
      hide Traced, Pieces;
      NextPiece(pieces, ptr, size, j);
      var part := ptr[..Min(size, |ptr|)];
      QueueOneFragment(part, window, i % 256);
      rest := ptr[|part|..];
    }

    /** Cuts the chunk from the front and numbers the fragments down to 0.  Before each fragment
        the writer looks for a close or its deadline; `patience` is how often it sees none. */
    method QueueFragments(b: bytes, size: nat, count: nat, window: nat, patience: nat, ghost pieces: seq<bytes>)
      requires size > 0 && pieces == Pieces(b, size) && count == |pieces|
      requires OnRun() && reserved == count && window == ReceiveWindow(View())
      modifies this`sendQueue, this`nextSend, this`log, this`txLog, this`reserved, this`run
      ensures Quietly() && reserved == 0
      ensures log == old(log) + FragmentSegments(pieces[..Min(patience, count)], count, window)
    {
      hide Traced, Pieces, FragmentSegments;
      var ptr := b;
      var i := count;
      NoSegments(pieces, count, window);
      while i > 0 && patience > count - i
        invariant 0 <= i <= count && reserved == i && count - i <= patience && Quietly()
        invariant i > 0 ==> Pieces(ptr, size) == pieces[count - i..]
        invariant log == old(log) + FragmentSegments(pieces[..count - i], count, window)
      {
        i := i - 1;
        NextSegment(pieces, count - i - 1, window);
        ptr := QueueNext(ptr, size, window, i, pieces, count - i - 1);
      }
      GiveUp();
    }

    ghost method GiveUp()
      requires OnRun()
      modifies this`reserved, this`run
      ensures Quietly() && reserved == 0
    {
      hide Traced;
      Note(Tx(Abandon));
      reserved := 0;
    }

    ghost method FindRoom(count: nat)
      requires OnRun() && (isClient ==> openSent) && reserved == 0 && TREE_CAPACITY - |sendQueue| > count
      modifies this`reserved, this`run
      ensures Quietly() && reserved == count
    {
      hide Traced;
      Note(Tx(Reserve(count)));
      reserved := count;
    }

    /** Queues one chunk as fragments and reports all of it, or reports nothing.  When the deadline
        or a close is noticed between two fragments, the first ones stay queued although nothing
        was reported: what is queued is what is reported if and only if that did not happen. */
    method WriteChunk(b: bytes, patience: nat) returns (n: nat, ghost m: nat)
      requires Shape() && OnRun() && b != [] && |b| <= MAX_PDU && (isClient ==> openSent) && reserved == 0
      modifies this`sendQueue, this`nextSend, this`log, this`txLog, this`reserved, this`run
      ensures Quietly() && reserved == 0
      ensures n <= m <= |b| && Payloads(log) == Payloads(old(log)) + b[..m]
      ensures var count := FragmentCount(|b|, MaxFragmentSize(mtu, false));
        var room := TREE_CAPACITY - |old(sendQueue)| > count;
        && n == (if room && patience >= count then |b| else 0)
        && (m == n <==> !(room && 0 < patience < count))
      ensures var segments := ChunkSegments(b, MaxFragmentSize(mtu, false), ReceiveWindow(old(View())));
        old(log) <= log <= old(log) + segments && (n > 0 ==> log == old(log) + segments)
      ensures var count := FragmentCount(|b|, MaxFragmentSize(mtu, false));
        |log| == |old(log)| + if TREE_CAPACITY - |old(sendQueue)| > count then Min(patience, count) else 0
    {
      hide Traced, Payloads, Pieces, FragmentSegments;
      var size := MaxFragmentSize(mtu, false);
      var count := FragmentCount(|b|, size);
      PiecesCount(b, size);
      if TREE_CAPACITY - |sendQueue| <= count {
        return 0, 0;   // the writer waits for room until its deadline
      }
      var window := Max(0, cubic.window - |recvBuf|);
      FindRoom(count);
      QueueFragments(b, size, count, window, patience, Pieces(b, size));
      FirstSegmentsArePrefix(Pieces(b, size), Min(patience, count), window);
      m := FirstFragments(old(log), b, size, Min(patience, count), window);
      n := if patience >= count then |b| else 0;
    }

    /** Queues the open request, with the buffer as its payload if that is short enough. */
    method QueueOpen(payload: bytes)
      requires OnRun() && isClient && !openSent && |payload| <= MAX_OPEN_PAYLOAD
      modifies this`sendQueue, this`nextSend, this`log, this`txLog, this`openSent, this`run
      ensures Quietly()
      ensures openSent && log == old(log) + [Segment(true, payload, 0, 0)]
    {
      hide Traced;
      OpenRequestEffect(View(), payload, run.inbox);
      hide Enabled, Apply, Sends, QueueSegment;
      Note(Tx(QueueOpenRequest(payload)));
      openSent := true;
      Queue(Segment(true, payload, 0, 0));
    }

    /** Where the current run began, the invariant held. */
    ghost predicate SoundStart()
      reads this
    {
      SenderOk(run.start.tx) && ReceiverOk(run.start.rx)
    }

    /** The same for a session whose queue length is known. */
    method WriteNextChunk(b: bytes, patience: nat, ghost size: nat, ghost window: nat) returns (n: nat, ghost m: nat)
      requires Shape() && OnRun() && SoundStart() && b != [] && |b| <= MAX_PDU && (isClient ==> openSent) && reserved == 0
      requires size == MaxFragmentSize(mtu, false) && window == ReceiveWindow(View())
      modifies this`sendQueue, this`nextSend, this`log, this`txLog, this`reserved, this`run
      ensures Quietly() && reserved == 0 && window == ReceiveWindow(View())
      ensures ChunkOutcome(b, n, m, size, window, patience, old(log), log, |old(sendQueue)|, |sendQueue|)
    {
      hide Traced, Payloads, ChunkSegments, FragmentCount, SenderOk, ReceiverOk;
      QueueLength(run, View());
      ChunkLength(b, size, window);
      n, m := WriteChunk(b, patience);
      QueueLength(run, View());
    }

    /** Cuts the buffer into chunks and stops at the first that is not queued in full. */
    method WriteChunks(b: bytes, patience: nat) returns (n: nat, ghost m: nat)
      requires Shape() && OnRun() && SoundStart() && (isClient ==> openSent) && reserved == 0
      modifies this`sendQueue, this`nextSend, this`log, this`txLog, this`reserved, this`run
      ensures Quietly() && reserved == 0
      ensures Outcome(b, n, m, MaxFragmentSize(mtu, false), ReceiveWindow(old(View())), patience,
                      old(log), log, |old(sendQueue)|)
    {
      hide Traced, Progress, Outcome, ChunkOutcome, FragmentCount, ReceiveWindow, SenderOk, ReceiverOk;
      ghost var size, window := MaxFragmentSize(mtu, false), ReceiveWindow(View());
      var rest, left: nat := b, patience;
      n := 0;
      ProgressStarts(b, size, window, patience, log, |sendQueue|);
      while rest != []
        invariant Quietly() && reserved == 0 && window == ReceiveWindow(View())
        invariant Progress(b, n, rest, size, window, patience, left, old(log), log, |old(sendQueue)|, |sendQueue|)
        decreases |rest|
      {
        var length := Min(|rest|, MAX_PDU);
        var count := FragmentCount(length, MaxFragmentSize(mtu, false));
        ghost var log0, queued, more: nat := log, |sendQueue|, 0;
        var sent;
        sent, more := WriteNextChunk(rest[..length], left, size, window);
        if sent == 0 {
          ProgressStops(b, n, rest, size, window, patience, left, old(log), log0, log,
                        |old(sendQueue)|, queued, |sendQueue|, more);
          return n, n + more;
        }
        ProgressGoesOn(b, n, rest, size, window, patience, left, old(log), log0, log,
                       |old(sendQueue)|, queued, |sendQueue|, sent, more);
        n, rest, left := n + length, rest[length..], left - count;
      }
      ProgressEnds(b, n, size, window, patience, left, old(log), log, |old(sendQueue)|, |sendQueue|);
      m := n;
    }

    /** Before the first write, a client queues an open request, which carries the buffer if it is
        short enough. */
    method OpenFirst(b: bytes) returns (n: nat)
      requires OnRun()
      modifies this`sendQueue, this`nextSend, this`log, this`txLog, this`openSent, this`run
      ensures Quietly() && ReceiveWindow(View()) == ReceiveWindow(old(View()))
      ensures isClient ==> openSent
      ensures n == if isClient && !old(openSent) && |b| <= MAX_OPEN_PAYLOAD then |b| else 0
      ensures log == old(log) + if isClient && !old(openSent) then [Segment(true, b[..n], 0, 0)] else []
      ensures Payloads(log) == Payloads(old(log)) + b[..n]
    {
      hide Traced;
      n := 0;
      if isClient && !openSent {
        var payload := if |b| <= MAX_OPEN_PAYLOAD then b else [];
        QueueOpen(payload);
        PayloadsSnoc(log, |log| - 1);
        assert log[..|log|] == log && log[..|log| - 1] == old(log);
        n := |payload|;
        assert b[..n] == payload;
      }
    }

    method WriteOnRun(b: bytes, patience: nat) returns (n: nat, ghost m: nat)
      requires Shape() && OnRun() && SoundStart() && reserved == 0
      modifies this`sendQueue, this`nextSend, this`log, this`txLog, this`reserved, this`openSent, this`run
      ensures Quietly() && reserved == 0 && (isClient ==> openSent)
      ensures WriteOutcome(b, isClient && !old(openSent), n, m, MaxFragmentSize(mtu, false), ReceiveWindow(old(View())),
                           patience, old(log), log, |old(sendQueue)|)
    {
      hide Traced, Payloads, Outcome, WriteOutcome, SenderOk, ReceiverOk, Concat, ReceiveWindow;
      ghost var opening, size, window := isClient && !openSent, MaxFragmentSize(mtu, false), ReceiveWindow(View());
      QueueLength(run, View());
      n := OpenFirst(b);
      m := n;
      if n == 0 {
        QueueLength(run, View());
        ghost var afterOpen := log;
        assert Payloads(afterOpen) == Payloads(old(log)) by { assert Payloads(old(log)) + b[..0] == Payloads(old(log)); }
        n, m := WriteChunks(b, patience);
        ChunksAfterOpening(b, opening, n, m, size, window, patience, old(log), afterOpen, log, |old(sendQueue)|);
      } else {
        assert b[..n] == b;
        OpeningCarriesAll(b, size, window, patience, old(log), log, |old(sendQueue)|);
      }
    }

    /** Accepts the first `n` bytes of the buffer.  The outgoing stream grows by the first `m` bytes,
        which is more than was accepted if and only if the writer was stopped inside a chunk. */
    method Write(b: bytes, patience: nat, ghost inbox: set<Packet>) returns (n: nat, ghost m: nat)
      requires Valid()
      modifies this`sendQueue, this`nextSend, this`log, this`txLog, this`reserved, this`openSent, this`run
      ensures Valid() && RunFrom(old(View()), inbox) && run.sent == {}
      ensures WriteOutcome(b, isClient && !old(openSent), n, m, MaxFragmentSize(mtu, false), ReceiveWindow(old(View())),
                           patience, old(log), log, |old(sendQueue)|)
      ensures isClient ==> openSent
      ensures var first := if isClient && !old(openSent) then 1 else 0;
        if isClient && !old(openSent) && |b| <= 1024 then n == |b| && |log| == |old(log)| + 1
        else
          && Longest(b, n, mtu - 88, patience, |old(sendQueue)| + first)
          && |log| == |old(log)| + first + SegmentsQueued(b, n, mtu - 88, patience, |old(sendQueue)| + first)
    {
      hide Traced, SenderOk, ReceiverOk, WriteOutcome, Longest, SegmentsQueued;
      Begin(inbox);
      ghost var opening := isClient && !openSent;
      n, m := WriteOnRun(b, patience);
      ReportedIsLongest(b, opening, n, m, mtu - 88, ReceiveWindow(old(View())), patience, old(log), log, |old(sendQueue)|);
      TracedOk(run, View());
    }

    // -------------------------------------------------------------------------------------------
    // Reading
    // -------------------------------------------------------------------------------------------

    method MoveToUnread(k: nat)
      requires k in recvQueue
      modifies this`recvQueue, this`unreadBuf, this`popped
      ensures View() == var e := old(View());
        e.(rx := e.rx.(recvQueue := e.rx.recvQueue - {k}, popped := e.rx.popped + 1,
                       unread := e.rx.unread + SegmentPayload(e.rx.recvQueue[k])))
    {
      unreadBuf := unreadBuf + SegmentPayload(recvQueue[k]);
      recvQueue, popped := recvQueue - {k}, popped + 1;
    }

    /** Moves the first waiting segment's payload to unreadBuf. */
    method PopOne(k: nat)
      requires OnRun() && IsMin(recvQueue, k)
      modifies this`recvQueue, this`unreadBuf, this`popped, this`run
      ensures Quietly()
      ensures k in old(recvQueue) && recvQueue == old(recvQueue) - {k} && popped == old(popped) + 1
      ensures unreadBuf == old(unreadBuf) + SegmentPayload(old(recvQueue)[k])
    {
      hide Traced;
      PopEffect(View(), k, run.inbox);
      hide Enabled, Apply, Sends, IsMin, SegmentPayload;
      Note(Rx(Pop(k)));
      MoveToUnread(k);
    }

    /** Moves every waiting segment's payload to unreadBuf, in order. */
    method PopAll()
      requires OnRun() && ReceiverOk(View().rx)
      modifies this`recvQueue, this`unreadBuf, this`popped, this`run
      ensures Quietly()
      ensures recvQueue == map[] && popped == InOrder(View().rx)
      ensures unreadBuf == old(unreadBuf) + QueuedBytes(old(recvQueue), old(popped), InOrder(old(View().rx)))
    {
      hide Traced, ReceiverOk, PopState, IsMin, QueuedBytes, SegmentPayload;
      ghost var end := InOrder(View().rx);
      PopBegins(View().rx);
      while recvQueue != map[]
        invariant Quietly()
        invariant PopState(recvQueue, old(recvQueue), old(popped), popped, end, old(unreadBuf), unreadBuf)
        decreases |recvQueue|
      {
        var k := MinKey(recvQueue);
        PopNext(recvQueue, old(recvQueue), old(popped), popped, end, old(unreadBuf), unreadBuf, k);
        PopOne(k);
      }
      PopEnds(old(recvQueue), old(popped), popped, end, old(unreadBuf), unreadBuf);
    }

    method Consume(n: nat) returns (out: bytes)
      requires OnRun() && n <= |unreadBuf|
      modifies this`unreadBuf, this`readLog, this`run
      ensures Quietly()
      ensures out == old(unreadBuf)[..n] && unreadBuf == old(unreadBuf)[n..] && readLog == old(readLog) + out
      ensures Received(View().rx) == Received(old(View().rx))
    {
      hide Traced, Received;
      ConsumeEffect(View(), n, run.inbox);
      hide Enabled, Apply, Sends;
      Note(Rx(Arq.Consume(n)));
      ghost var r := View().rx;
      out, unreadBuf := unreadBuf[..n], unreadBuf[n..];
      readLog := readLog + out;
      ConsumingKeepsStream(r, View().rx, n);
    }

    /** Makes sure that unreadBuf is empty only when no byte has arrived. */
    method Refill()
      requires OnRun() && ReceiverOk(View().rx)
      modifies this`recvQueue, this`unreadBuf, this`popped, this`run
      ensures Quietly()
      ensures Received(View().rx) == Received(old(View().rx))
      ensures unreadBuf == [] <==> Received(View().rx) == readLog
      ensures unreadBuf == Offered(old(View().rx))
    {
      hide Traced, ReceiverOk, QueuedBytes;
      if unreadBuf == [] {
        ghost var r := View().rx;
        PopAll();
        PoppingKeepsStream(r, View().rx);
        PoppingOffers(r, View().rx);
      } else {
        assert |Received(View().rx)| > |readLog|;
      }
    }

    /** Gives the application the next bytes, at most `capacity`.  Nothing that was received is
        dropped, repeated or put out of order, and the call waits only when no byte has arrived. */
    method Read(capacity: nat, ghost inbox: set<Packet>) returns (out: bytes, waits: bool)
      requires Valid()
      modifies this`recvQueue, this`unreadBuf, this`popped, this`readLog, this`run
      ensures Valid() && RunFrom(old(View()), inbox) && run.sent == {}
      ensures var offered := Offered(old(View().rx));
        out == (if |offered| <= capacity then offered else offered[..capacity]) && readLog == old(readLog) + out
      ensures Received(View().rx) == Received(old(View().rx))
      ensures waits <==> Received(old(View().rx)) == old(readLog)
      ensures !waits && capacity > 0 ==> out != []
    {
      hide Traced, SenderOk, ReceiverOk, Received, Offered;
      Begin(inbox);
      Refill();
      waits := unreadBuf == [];
      out := Consume(Min(capacity, |unreadBuf|));
      TracedOk(run, View());
    }

    // -------------------------------------------------------------------------------------------
    // Receiving
    // -------------------------------------------------------------------------------------------

    /** Removes one acknowledged segment. */
    method RemoveOne(k: nat, p: Packet)
      requires OnRun() && p in run.inbox && HasUnAck(p) && IsMin(sendBuf, k) && k < p.unAck
      modifies this`sendBuf, this`acked, this`run
      ensures Quietly()
      ensures sendBuf == old(sendBuf) - {k}
    {
      hide Traced;
      DropEffect(View(), k, p, run.inbox);
      hide Enabled, Apply, Sends, IsMin;
      Note(Tx(DropAcked(k, p)));
      sendBuf := sendBuf - {k};
      acked := acked + 1;
    }

    function CubicState(): Control
      reads this, cubic
    {
      Control(cubic.slowStart, cubic.window, cubic.accumulatedAcks)
    }

    /** Lets the congestion window react; `curve` is the value of the CUBIC curve at that moment. */
    method GrowWindow(curve: nat)
      requires Shape() && OnRun() && curve < UINT32
      modifies this`windows, this`run, cubic
      ensures Shape() && Quietly() && OneMoreAck(old(CubicState()), CubicState(), curve)
    {
      hide Traced;
      ghost var e := View();
      cubic.OnAck(curve);
      windows := windows + {cubic.window};
      NoteAfter(e, Tx(SetCongestionWindow(cubic.window)));
    }

    method DropOne(k: nat, p: Packet, curve: nat)
      requires Shape() && OnRun() && p in run.inbox && HasUnAck(p) && IsMin(sendBuf, k) && k < p.unAck
      requires curve < UINT32
      modifies this`sendBuf, this`acked, this`windows, this`run, cubic
      ensures Shape() && Quietly() && OneMoreAck(old(CubicState()), CubicState(), curve)
      ensures sendBuf == old(sendBuf) - {k}
    {
      hide Traced, IsMin, OneMoreAck;
      RemoveOne(k, p);
      GrowWindow(curve);
    }

    /** Removes every segment that the packet acknowledges, and no other, and lets the congestion window react
        to each. */
    method DropAckedSegments(p: Packet, curve: nat -> nat)
      requires Shape() && OnRun() && p in run.inbox && HasUnAck(p)
      requires forall k :: curve(k) < UINT32
      modifies this`sendBuf, this`acked, this`windows, this`run, cubic
      ensures Shape() && Quietly()
      ensures sendBuf == Unacked(old(sendBuf), p.unAck)
      ensures Grown(old(sendBuf), sendBuf, old(CubicState()), CubicState(), curve)
    {
      hide Traced, IsMin, DropState, Unacked, Grown, OneMoreAck, LastGone;
      ghost var w := CubicState();
      DropStart(sendBuf, p.unAck, w, curve);
      while sendBuf != map[]
        invariant Shape() && Quietly() && |sendBuf| <= |old(sendBuf)|
        invariant DropState(old(sendBuf), sendBuf, p.unAck) && Grown(old(sendBuf), sendBuf, w, CubicState(), curve)
        decreases |sendBuf|
      {
        var k := MinKey(sendBuf);
        if k >= p.unAck {
          break;
        }
        ghost var now, w1 := sendBuf, CubicState();
        DropNext(old(sendBuf), now, p.unAck, k);
        DropOne(k, p, curve(k));
        GrowNext(old(sendBuf), now, sendBuf, w, w1, CubicState(), curve, k);
      }
      DropEnd(old(sendBuf), sendBuf, p.unAck);
    }

    method StoreRemoteWindow(p: Packet)
      requires OnRun() && HasUnAck(p) && (p in run.inbox || latest == Some(p))
      modifies this`remoteWindow, this`run
      ensures Quietly()
      ensures remoteWindow == p.window
    {
      hide Traced;
      WindowEffect(View(), p, run.inbox);
      hide Enabled, Apply, Sends;
      Note(Tx(StoreWindow(p)));
      remoteWindow := p.window;
    }

    /** Counts the acknowledgement for the one segment that it asks for. */
    method CountAcknowledgement(p: Packet)
      requires OnRun() && p in run.inbox && p.AckPacket?
      modifies this`sendBuf, this`run
      ensures Quietly()
      ensures sendBuf == Counted(old(sendBuf), p.unAck)
    {
      hide Traced;
      CountEffect(View(), p, run.inbox);
      hide Enabled, Apply, Sends;
      Note(Tx(CountAck(p)));
      if p.unAck in sendBuf {
        var item := sendBuf[p.unAck];
        sendBuf := sendBuf[p.unAck := item.(ackCount := (item.ackCount + 1) % 256)];
      }
    }

    /** Handles an acknowledgement. */
    method InputAck(p: Packet, curve: nat -> nat, ghost inbox: set<Packet>)
      requires Valid() && p in inbox && p.AckPacket?
      requires forall k :: curve(k) < UINT32
      modifies this`sendBuf, this`acked, this`remoteWindow, this`windows, this`run, cubic
      ensures Valid() && RunFrom(old(View()), inbox) && run.sent == {}
      ensures sendBuf == Counted(Unacked(old(sendBuf), p.unAck), p.unAck)
      ensures AckOutcome(old(sendBuf), sendBuf, p.unAck) && remoteWindow == p.window
      ensures Grown(old(sendBuf), sendBuf, old(CubicState()), CubicState(), curve)
    {
      hide Traced, SenderOk, ReceiverOk, Counted, Unacked, Grown, AckOutcome;
      Begin(inbox);
      CountedIsOutcome(sendBuf, p.unAck);
      ProcessAck(p, curve);
      TracedOk(run, View());
    }

    method ProcessAck(p: Packet, curve: nat -> nat)
      requires Shape() && OnRun() && p in run.inbox && p.AckPacket?
      requires forall k :: curve(k) < UINT32
      modifies this`sendBuf, this`acked, this`remoteWindow, this`windows, this`run, cubic
      ensures Shape() && Quietly()
      ensures sendBuf == Counted(Unacked(old(sendBuf), p.unAck), p.unAck)
      ensures remoteWindow == p.window
      ensures Grown(old(sendBuf), sendBuf, old(CubicState()), CubicState(), curve)
    {
      hide Traced, Counted, Unacked, Grown;
      DropAckedSegments(p, curve);
      StoreRemoteWindow(p);
      GrownCounted(old(sendBuf), sendBuf, p.unAck, old(CubicState()), CubicState(), curve);
      CountAcknowledgement(p);
    }

    method AcceptArrival(p: Packet)
      requires OnRun() && p in run.inbox && HasSegment(p) && phase.Idle? && TREE_CAPACITY - |recvBuf| > 1
      modifies this`recvBuf, this`phase, this`run
      ensures Quietly()
      ensures recvBuf == old(recvBuf)[p.sn := p] && phase.Moving?
    {
      hide Traced;
      ArriveEffect(View(), p, run.inbox);
      hide Enabled, Apply, Sends;
      Note(Rx(Arrive(p)));
      recvBuf, phase := recvBuf[p.sn := p], Moving;
    }

    method RemoveFromRecvBuf(k: nat) returns (p: Packet)
      requires k in recvBuf
      modifies this`recvBuf, this`phase
      ensures p == old(recvBuf[k])
      ensures View() == var e := old(View());
        e.(rx := e.rx.(recvBuf := e.rx.recvBuf - {k}, phase := if k == e.rx.nextRecv then Taken(p) else Moving))
    {
      p := recvBuf[k];
      recvBuf := recvBuf - {k};
      phase := if k == nextRecv then Taken(p) else Moving;
    }

    /** Removes the first segment of recvBuf, which is not later than the one waited for. */
    method TakeFirst(k: nat) returns (p: Packet)
      requires OnRun() && phase.Moving? && RECV_QUEUE_CAPACITY - |recvQueue| > 1
      requires IsMin(recvBuf, k) && k <= nextRecv
      modifies this`recvBuf, this`phase, this`run
      ensures Quietly()
      ensures k in old(recvBuf) && p == old(recvBuf)[k] && recvBuf == old(recvBuf) - {k}
      ensures phase == if k == nextRecv then Taken(p) else Moving
    {
      hide Traced;
      TakeEffect(View(), k, run.inbox);
      hide Enabled, Apply, Sends, IsMin;
      Note(Rx(Take(k)));
      p := RemoveFromRecvBuf(k);
    }

    method EnqueueTaken(p: Packet)
      requires OnRun() && phase == Taken(p)
      modifies this`recvQueue, this`phase, this`latest, this`run
      ensures Quietly()
      ensures phase.Queued? && latest == Some(p)
      ensures recvQueue == Insert(old(recvQueue), RECV_QUEUE_CAPACITY, p.sn, p)
    {
      hide Traced, Insert;
      ghost var e := View();
      EnqueueEffect(e, run.inbox);
      hide Enabled, Apply, Sends;
      recvQueue := Insert(recvQueue, RECV_QUEUE_CAPACITY, p.sn, p);
      phase, latest := Queued, Some(p);
      NoteAfter(e, Rx(Enqueue));
    }

    method AdvanceNextRecv()
      requires OnRun() && phase.Queued?
      modifies this`nextRecv, this`phase, this`run
      ensures Quietly()
      ensures nextRecv == old(nextRecv) + 1 && phase.Moving?
    {
      hide Traced;
      AdvanceEffect(View(), run.inbox);
      hide Enabled, Apply, Sends;
      Note(Rx(Advance));
      nextRecv, phase := nextRecv + 1, Moving;
    }

    ghost method StopDelivery()
      requires OnRun() && phase.Moving?
      requires RECV_QUEUE_CAPACITY - |recvQueue| <= 1 || forall k :: k in recvBuf ==> k > nextRecv
      modifies this`phase, this`run
      ensures Quietly()
      ensures phase.Idle?
    {
      hide Traced;
      Note(Rx(StopMoving));
      phase := Idle;
    }

    /** One round of delivery: takes a segment that is not later than the one waited for, and puts
        it in order if it is that one. */
    method DeliverOne(k: nat)
      requires OnRun() && phase.Moving? && RECV_QUEUE_CAPACITY - |recvQueue| > 1
      requires IsMin(recvBuf, k) && k <= nextRecv && recvBuf[k].sn == k
      modifies this`recvBuf, this`recvQueue, this`nextRecv, this`phase, this`latest, this`remoteWindow, this`run
      ensures Quietly() && phase.Moving?
      ensures OneDelivered(old(View().rx), old(remoteWindow), View().rx, remoteWindow, k)
    {
      hide Traced, Insert;
      ghost var queue := recvQueue;
      var p := TakeFirst(k);
      if k == nextRecv {
        EnqueueTaken(p);
        InsertSucceeds(queue, RECV_QUEUE_CAPACITY, k, p);
        AdvanceNextRecv();
        if HasUnAck(p) {
          StoreRemoteWindow(p);
        }
      }
    }

    method DeliverNext(k: nat, ghost r0: Receiver, ghost w0: nat)
      requires OnRun() && SoundStart() && phase.Moving? && RECV_QUEUE_CAPACITY - |recvQueue| > 1
      requires IsMin(recvBuf, k) && k <= nextRecv && Moved(r0, w0, View().rx, remoteWindow)
      modifies this`recvBuf, this`recvQueue, this`nextRecv, this`phase, this`latest, this`remoteWindow, this`run
      ensures Quietly() && phase.Moving? && |recvBuf| < |old(recvBuf)|
      ensures Moved(r0, w0, View().rx, remoteWindow)
    {
      hide Traced, SenderOk, ReceiverOk, Moved, OneDelivered;
      ghost var r, w := View().rx, remoteWindow;
      TracedOk(run, View());
      ReceiverAtWork(r, k);
      DeliverOne(k);
      Shrinks(r, w, View().rx, remoteWindow, k);
      MovingGoesOn(r0, w0, r, w, View().rx, remoteWindow, k);
    }

    /** Moves segments from recvBuf to recvQueue as long as they are the next in order and there is
        room, and drops those that were put in order before. */
    method DeliverInOrder()
      requires OnRun() && SoundStart() && phase.Moving?
      modifies this`recvBuf, this`recvQueue, this`nextRecv, this`phase, this`latest, this`remoteWindow, this`run
      ensures Quietly() && phase.Idle?
      ensures Moved(old(View().rx), old(remoteWindow), View().rx, remoteWindow) && NoMoreToMove(View().rx)
    {
      hide Traced, SenderOk, ReceiverOk, Moved;
      ghost var r0, w0 := View().rx, remoteWindow;
      MovingStarts(r0, w0);
      while RECV_QUEUE_CAPACITY - |recvQueue| > 1 && recvBuf != map[]
        invariant Quietly() && phase.Moving? && Moved(r0, w0, View().rx, remoteWindow)
        decreases |recvBuf|
      {
        var k := MinKey(recvBuf);
        if k > nextRecv {
          break;
        }
        DeliverNext(k, r0, w0);
      }
      ghost var r := View().rx;
      StopDelivery();
      SamePhase(r0, r0, w0, r, View().rx, remoteWindow);
    }

    /** Queues the answer to the first open request. */
    method AnswerOpen()
      requires OnRun() && !isClient && !openSent && exists p :: p in run.inbox && p.OpenPacket?
      modifies this`sendQueue, this`nextSend, this`log, this`txLog, this`openSent, this`run
      ensures Quietly()
      ensures openSent && log == old(log) + [Segment(true, [], 0, 0)]
    {
      hide Traced;
      OpenResponseEffect(View(), run.inbox);
      hide Enabled, Apply, Sends, QueueSegment;
      Note(Tx(QueueOpenResponse));
      openSent := true;
      Queue(Segment(true, [], 0, 0));
    }

    method AnswerIfOpening(p: Packet)
      requires OnRun() && p in run.inbox
      modifies this`sendQueue, this`nextSend, this`log, this`txLog, this`openSent, this`run
      ensures Quietly()
      ensures openSent == (old(openSent) || (p.OpenPacket? && !isClient))
      ensures log == old(log) + Answer(p, old(View().tx))
    {
      hide Traced;
      if !isClient && p.OpenPacket? && !openSent {
        AnswerOpen();
      }
    }

    /** Handles the acknowledgement that a data packet carries. */
    method InputPiggyback(p: Packet, curve: nat -> nat)
      requires Shape() && OnRun() && p in run.inbox
      requires forall k :: curve(k) < UINT32
      modifies this`sendBuf, this`acked, this`remoteWindow, this`windows, this`run, cubic
      ensures Shape() && Quietly()
      ensures sendBuf == if HasUnAck(p) then Unacked(old(sendBuf), p.unAck) else old(sendBuf)
      ensures remoteWindow == if HasUnAck(p) then p.window else old(remoteWindow)
      ensures Grown(old(sendBuf), sendBuf, old(CubicState()), CubicState(), curve)
    {
      hide Traced;
      if HasUnAck(p) {
        DropAckedSegments(p, curve);
        StoreRemoteWindow(p);
      }
    }

    method ReceivePacket(p: Packet)
      requires OnRun() && SoundStart() && p in run.inbox && HasSegment(p) && phase.Idle? && TREE_CAPACITY - |recvBuf| > 1
      modifies this`recvBuf, this`recvQueue, this`nextRecv, this`phase, this`latest, this`remoteWindow, this`run
      ensures Quietly() && phase.Idle?
      ensures Moved(WithPacket(old(View().rx), p), old(remoteWindow), View().rx, remoteWindow) && NoMoreToMove(View().rx)
    {
      hide Traced, SenderOk, ReceiverOk, Moved, NoMoreToMove;
      AcceptArrival(p);
      ghost var r, w := View().rx, remoteWindow;
      DeliverInOrder();
      SamePhase(WithPacket(old(View().rx), p), r, w, View().rx, View().rx, remoteWindow);
    }

    /** Puts the packet in recvBuf, delivers what is in order, and answers an open request. */
    method DeliverPacket(p: Packet)
      requires OnRun() && SoundStart() && p in run.inbox && HasSegment(p) && phase.Idle? && TREE_CAPACITY - |recvBuf| > 1
      modifies this`recvBuf, this`recvQueue, this`nextRecv, this`phase, this`latest, this`remoteWindow, this`run
      requires remoteWindow == WindowTold(p, remoteWindow)
      modifies this`sendQueue, this`nextSend, this`log, this`txLog, this`openSent, this`ackOnDataRecv
      ensures Quietly() && phase.Idle? && ackOnDataRecv && DataOutcome(old(View()), View(), p, true)
    {
      hide Traced, SenderOk, ReceiverOk, Moved, NoMoreToMove, DataOutcome, Answer, WindowTold, WithPacket;
      ghost var e := View();
      ReceivePacket(p);
      ghost var e1 := View();
      ackOnDataRecv := true;
      AnswerIfOpening(p);
      PacketDone(e, e1, View(), p);
    }

    method ProcessData(p: Packet, curve: nat -> nat) returns (delivered: bool)
      requires Shape() && OnRun() && SoundStart() && p in run.inbox && HasSegment(p) && phase.Idle?
      requires forall k :: curve(k) < UINT32
      modifies this`recvBuf, this`recvQueue, this`nextRecv, this`phase, this`latest, this`remoteWindow, this`run
      modifies this`sendQueue, this`nextSend, this`log, this`txLog, this`openSent, this`ackOnDataRecv
      modifies this`sendBuf, this`acked, this`windows, cubic
      ensures Shape() && Quietly() && phase.Idle?
      ensures delivered <==> 4096 - |old(recvBuf)| > 1
      ensures sendBuf == if HasUnAck(p) then Unacked(old(sendBuf), p.unAck) else old(sendBuf)
      ensures Grown(old(sendBuf), sendBuf, old(CubicState()), CubicState(), curve)
      ensures DataOutcome(old(View()), View(), p, delivered) && ackOnDataRecv == (delivered || old(ackOnDataRecv))
    {
      hide Traced, SenderOk, ReceiverOk, Unacked, Grown, Answer;
      ghost var e := View();
      InputPiggyback(p, curve);
      delivered := TREE_CAPACITY - |recvBuf| > 1;
      if delivered {
        hide DataOutcome;
        ghost var e1 := View();
        DeliverPacket(p);
        DataDone(e, e1, View(), p);
      }
    }

    /** Handles an open request, an open response or a data packet.  The packet is either kept for
        later or already in order, unless recvBuf has no room, in which case the input loop waits. */
    method InputData(p: Packet, curve: nat -> nat, ghost inbox: set<Packet>) returns (delivered: bool)
      requires Valid() && p in inbox && HasSegment(p)
      requires forall k :: curve(k) < UINT32
      modifies this`recvBuf, this`recvQueue, this`nextRecv, this`phase, this`latest, this`remoteWindow, this`run
      modifies this`sendQueue, this`nextSend, this`log, this`txLog, this`openSent, this`ackOnDataRecv
      modifies this`sendBuf, this`acked, this`windows, cubic
      ensures Valid() && RunFrom(old(View()), inbox) && run.sent == {}
      ensures delivered <==> 4096 - |old(recvBuf)| > 1
      ensures sendBuf == if HasUnAck(p) then Unacked(old(sendBuf), p.unAck) else old(sendBuf)
      ensures Grown(old(sendBuf), sendBuf, old(CubicState()), CubicState(), curve)
      ensures DataOutcome(old(View()), View(), p, delivered) && ackOnDataRecv == (delivered || old(ackOnDataRecv))
      ensures delivered ==> p.sn in recvBuf || p.sn < nextRecv
    {
      hide Traced, SenderOk, ReceiverOk, Unacked, DataOutcome, Grown;
      Begin(inbox);
      ghost var e := View();
      delivered := ProcessData(p, curve);
      ArrivedIsKept(e, View(), p, delivered);
      TracedOk(run, View());
    }

    // -------------------------------------------------------------------------------------------
    // The output loop
    // -------------------------------------------------------------------------------------------

    method RetransmitOne(k: nat) returns (p: Packet)
      requires OnRun() && k in sendBuf && sendBuf[k].txCount < TX_COUNT_LIMIT
      modifies this`sendBuf, this`txLog, this`run
      ensures Continues() && run.sent == old(run.sent) + {p}
      ensures sendBuf == old(sendBuf)[k := Sent(old(sendBuf)[k].segment, old(sendBuf)[k].txCount + 1, 0)]
      ensures p == Wire(k, old(sendBuf)[k].segment, nextRecv)
    {
      hide Traced;
      RetransmitEffect(View(), k, run.inbox);
      hide Enabled, Apply, Sends, Wire, CountTransmission;
      Note(Tx(Retransmit(k, nextRecv)));
      p := Wire(k, sendBuf[k].segment, nextRecv);
      sendBuf := sendBuf[k := Sent(sendBuf[k].segment, sendBuf[k].txCount + 1, 0)];
      txLog := CountTransmission(txLog, k);
    }

    /** Goes through sendBuf in order and retransmits exactly what is due; `timedOut` are the segments
        whose timeout has passed.  A segment transmitted too often stops the pass and ends the
        session. */
    method RetransmitPass(timedOut: set<nat>) returns (packets: seq<Packet>, healthy: bool, loss: bool, timeout: bool)
      requires OnRun()
      modifies this`sendBuf, this`txLog, this`run
      ensures Continues() && run.sent == old(run.sent) + PacketSet(packets)
      ensures healthy <==> forall k :: k in old(sendBuf) ==> old(sendBuf)[k].txCount < TX_COUNT_LIMIT
      ensures sendBuf.Keys == old(sendBuf).Keys
      ensures !healthy ==> exists k :: StopsAt(old(sendBuf), timedOut, nextRecv, packets, k)
      ensures healthy ==> forall k :: k in sendBuf ==> sendBuf[k] == Resent(old(sendBuf)[k], k in timedOut)
      ensures healthy ==> Repeats(old(sendBuf), timedOut, nextRecv, packets)
      ensures healthy ==> loss == AnyEarly(old(sendBuf)) && timeout == AnyTimeout(old(sendBuf), timedOut)
    {
      hide Traced, PacketSet, Repeats, AnyEarly, AnyTimeout, Resent, StopsAt;
      packets, healthy, loss, timeout := RetransmitEach(timedOut);
    }

    method RetransmitEach(timedOut: set<nat>) returns (packets: seq<Packet>, healthy: bool, loss: bool, timeout: bool)
      requires OnRun()
      modifies this`sendBuf, this`txLog, this`run
      ensures Continues() && run.sent == old(run.sent) + PacketSet(packets)
      ensures PassResult(old(sendBuf), sendBuf, timedOut, nextRecv, packets, healthy, loss, timeout)
    {
      hide Traced, InPass, PassResult, PacketSet, IsMin, Wire;
      packets, healthy, loss, timeout := [], true, false, false;
      var left := sendBuf;
      PassBegins(sendBuf, timedOut, nextRecv);
      NoPackets(run.sent);
      while left != map[]
        invariant Continues() && run.sent == old(run.sent) + PacketSet(packets)
        invariant InPass(old(sendBuf), sendBuf, left, timedOut, nextRecv, packets, loss, timeout)
        decreases |left|
      {
        var k := MinKey(left);
        InPassAt(old(sendBuf), sendBuf, left, timedOut, nextRecv, packets, loss, timeout, k);
        var item := left[k];
        if item.txCount >= TX_COUNT_LIMIT {
          healthy := false;
          return;
        }
        var early := item.ackCount >= EARLY_RETRANSMISSION && item.txCount <= EARLY_RETRANSMISSION_LIMIT;
        left := left - {k};
        if early || k in timedOut {
          if early {
            loss := true;
          } else {
            timeout := true;
          }
          var p := RetransmitOne(k);
          OneMorePacket(old(run.sent), packets, p);
          packets := packets + [p];
        }
      }
      PassSucceeds(old(sendBuf), sendBuf, timedOut, nextRecv, packets, loss, timeout);
    }

    method TakeInHand(k: nat) returns (segment: Segment)
      requires k in sendQueue
      modifies this`sendQueue, this`inHand, this`dequeued, this`windows
      ensures segment == old(sendQueue[k])
      ensures View() == var e := old(View());
        e.(tx := e.tx.(inHand := Holding(k, segment), sendQueue := e.tx.sendQueue - {k}, dequeued := e.tx.dequeued + 1,
                       windows := {e.tx.congestionWindow}))
    {
      segment := sendQueue[k];
      inHand, dequeued, windows, sendQueue := Holding(k, segment), dequeued + 1, {cubic.window}, sendQueue - {k};
    }

    /** Takes the first segment of sendQueue. */
    method DequeueFirst(k: nat) returns (segment: Segment)
      requires Shape() && OnRun() && inHand.EmptyHand? && TREE_CAPACITY - |sendBuf| > 1 && IsMin(sendQueue, k)
      requires SendWindow(View().tx) > 0
      modifies this`sendQueue, this`inHand, this`dequeued, this`windows, this`run
      ensures Quietly()
      ensures k in old(sendQueue) && segment == old(sendQueue)[k] && sendQueue == old(sendQueue) - {k}
      ensures inHand == Holding(k, segment) && dequeued == old(dequeued) + 1 && Shape()
    {
      hide Traced;
      DequeueEffect(View(), k, run.inbox);
      hide Enabled, Apply, Sends, IsMin, SendWindow;
      Note(Tx(Dequeue(k, cubic.window)));
      segment := TakeInHand(k);
    }

    method PutInSendBuf(k: nat, segment: Segment)
      modifies this`sendBuf, this`inHand, this`txLog
      ensures View() == var e := old(View());
        e.(tx := e.tx.(inHand := EmptyHand, sendBuf := e.tx.sendBuf[k := Sent(segment, 1, 0)],
                       txLog := CountTransmission(e.tx.txLog, k)))
    {
      sendBuf := sendBuf[k := Sent(segment, 1, 0)];
      inHand, txLog := EmptyHand, CountTransmission(txLog, k);
    }

    /** Puts the segment in sendBuf and on the network. */
    method TransmitFirst(k: nat, segment: Segment) returns (p: Packet)
      requires OnRun() && inHand == Holding(k, segment) && |sendBuf| < TREE_CAPACITY
      modifies this`sendBuf, this`inHand, this`txLog, this`run
      ensures Continues() && run.sent == old(run.sent) + {p}
      ensures sendBuf == old(sendBuf)[k := Sent(segment, 1, 0)] && inHand.EmptyHand?
      ensures p == Wire(k, segment, nextRecv)
    {
      hide Traced, Wire, CountTransmission;
      p := Wire(k, segment, nextRecv);
      TransmitEffect(View(), nextRecv, run.inbox);
      hide Enabled, Apply, Sends;
      Note(Tx(Transmit(nextRecv)));
      PutInSendBuf(k, segment);
    }

    /** How many more segments may be sent now: the largest number that both windows permit. */
    method CurrentSendWindow() returns (window: nat)
      ensures MaySend(View().tx, window) && !MaySend(View().tx, window + 1)
      ensures window <= remoteWindow && (window > 0 ==> |sendBuf| < cubic.window)
      ensures window == SendWindow(View().tx)
    {
      window := Max(0, Min(cubic.window - |sendBuf|, remoteWindow));
    }

    method SendFirst() returns (p: Packet)
      requires Shape() && OnRun() && inHand.EmptyHand? && TREE_CAPACITY - |sendBuf| > 1 && sendQueue != map[]
      requires SendWindow(View().tx) > 0
      modifies this`sendQueue, this`sendBuf, this`inHand, this`dequeued, this`windows, this`txLog, this`run
      ensures Continues() && run.sent == old(run.sent) + {p}
      ensures Shape() && inHand.EmptyHand? && dequeued == old(dequeued) + 1 && |sendQueue| < |old(sendQueue)|
      ensures IsMin(old(sendQueue), p.sn) && p.sn in old(sendQueue) && sendQueue == old(sendQueue) - {p.sn}
      ensures p == Wire(p.sn, old(sendQueue)[p.sn], nextRecv)
      ensures sendBuf == old(sendBuf)[p.sn := Sent(old(sendQueue)[p.sn], 1, 0)]
    {
      hide Traced, IsMin, SendWindow;
      var k := MinKey(sendQueue);
      MinIsIn(sendQueue, k);
      var segment := DequeueFirst(k);
      p := TransmitFirst(k, segment);
    }

    /** Sends queued segments in order while sendBuf has room and the window, less the `already`
        transmitted ones of this round, allows it. */
    method SendNew(already: nat) returns (packets: seq<Packet>)
      requires Shape() && OnRun() && SoundStart() && inHand.EmptyHand?
      modifies this`sendQueue, this`sendBuf, this`inHand, this`dequeued, this`windows, this`txLog, this`run
      ensures Continues() && run.sent == old(run.sent) + PacketSet(packets) && Shape() && inHand.EmptyHand?
      ensures Sending(old(View().tx), View().tx, packets, nextRecv, already)
      ensures !MaySendMore(|old(sendQueue)|, |old(sendBuf)|, already, |packets|, cubic.window, remoteWindow)
      ensures packets != [] ==> |sendBuf| <= cubic.window && already + |packets| <= remoteWindow
      ensures |sendBuf| <= Max(|old(sendBuf)|, cubic.window)
    {
      hide Traced, PacketSet, SendWindow, MaySend, MaySendMore, OneSent, Wire, SenderOk, ReceiverOk, Sending;
      ghost var t0, unAck := View().tx, nextRecv;
      packets := [];
      TracedOk(run, View());
      SendingStarts(t0, unAck, already);
      NoPackets(run.sent);
      var window := CurrentSendWindow();
      while TREE_CAPACITY - |sendBuf| > 1 && sendQueue != map[] && already + |packets| < window
        invariant Continues() && run.sent == old(run.sent) + PacketSet(packets)
        invariant Shape() && inHand.EmptyHand? && window == SendWindow(View().tx)
        invariant Sending(t0, View().tx, packets, unAck, already)
        decreases |sendQueue|
      {
        ghost var t := View().tx;
        var p := SendNext();
        SendingGoesOn(t0, t, View().tx, packets, p, unAck, already);
        OneMorePacket(old(run.sent), packets, p);
        packets := packets + [p];
        window := CurrentSendWindow();
      }
      SendingEnds(t0, View().tx, packets, unAck, already);
    }

    /** Sends the segment whose turn it is. */
    method SendNext() returns (p: Packet)
      requires Shape() && OnRun() && SoundStart() && inHand.EmptyHand? && TREE_CAPACITY - |sendBuf| > 1
      requires sendQueue != map[]
      requires SendWindow(View().tx) > 0
      modifies this`sendQueue, this`sendBuf, this`inHand, this`dequeued, this`windows, this`txLog, this`run
      ensures Continues() && run.sent == old(run.sent) + {p}
      ensures Shape() && inHand.EmptyHand? && |sendQueue| < |old(sendQueue)|
      ensures OneSent(old(View().tx), View().tx, p, nextRecv)
    {
      hide Traced, IsMin, Wire, SendWindow, SenderOk, ReceiverOk;
      ghost var run0, e := run, View();
      TracedOk(run, e);
      NextIsNotInFlight(e.tx);
      p := SendFirst();
      FirstToSend(run0, e, p.sn);
    }

    /** Sends an acknowledgement, which also tells the peer how much more may come. */
    method SendAcknowledgement() returns (p: Packet)
      requires OnRun()
      modifies this`ackOnDataRecv, this`run
      ensures Continues() && run.sent == old(run.sent) + {p}
      ensures p == AckPacket(Max(0, nextSend - 1), nextRecv, ReceiveWindow(View())) && !ackOnDataRecv
    {
      hide Traced;
      p := AckPacket(Max(0, nextSend - 1), nextRecv, Max(0, cubic.window - |recvBuf|));
      Note(Tx(SendAck(nextRecv, p.window)));
      ackOnDataRecv := false;
    }

    /** Lets the congestion window react to a timeout or to an early detected loss. */
    method ShrinkWindow(loss: bool, timeout: bool, reduced: nat)
      requires Shape() && OnRun() && reduced <= cubic.window
      modifies this`windows, this`run, cubic
      ensures Shape() && Quietly()
      ensures cubic.window == if timeout then MIN_WINDOW else if loss then Max(MIN_WINDOW, reduced) else old(cubic.window)
      ensures cubic.slowStart == (timeout || (!loss && old(cubic.slowStart)))
    {
      hide Traced;
      ghost var e := View();
      if timeout {
        cubic.OnTimeout();
      } else if loss {
        cubic.OnLoss(reduced);
      }
      windows := windows + {cubic.window};
      NoteAfter(e, Tx(SetCongestionWindow(cubic.window)));
    }

    /** One turn of the output loop: retransmit if it is time to, then send new segments, then
        acknowledge.  `timedOut`, `reduced` and `heartbeat` are what the clock and the CUBIC
        arithmetic say; a session that is not healthy goes on to close. */
    method RunOutputOnce(retransmit: bool, timedOut: set<nat>, reduced: nat, heartbeat: bool, ghost inbox: set<Packet>)
      returns (packets: seq<Packet>, healthy: bool, ghost resent: seq<Packet>, ghost sent: seq<Packet>)
      requires Valid() && reduced <= cubic.window
      modifies this`sendQueue, this`sendBuf, this`inHand, this`dequeued, this`windows, this`txLog
      modifies this`ackOnDataRecv, this`run, cubic
      ensures Valid() && RunFrom(old(View()), inbox) && run.sent == PacketSet(packets)
      ensures healthy <==> !retransmit || forall k :: k in old(sendBuf) ==> old(sendBuf)[k].txCount < 20
      ensures healthy ==> TurnOutcome(old(View()), View(), retransmit, timedOut, resent, sent)
      ensures !healthy ==> exists k :: StopsAt(old(sendBuf), timedOut, nextRecv, packets, k)
      ensures healthy ==> cubic.window == WindowAfter(old(cubic.window), old(sendBuf), retransmit, timedOut, reduced)
      ensures healthy ==> cubic.slowStart == SlowStartAfter(old(cubic.slowStart), old(sendBuf), retransmit, timedOut)
      ensures healthy ==> |sendBuf| <= Max(|old(sendBuf)|, cubic.window)
      ensures healthy ==>
        !ackOnDataRecv && packets == resent + sent + Acknowledgement(View(), old(ackOnDataRecv) || heartbeat)
    {
      hide Traced, SenderOk, ReceiverOk, PacketSet, TurnOutcome, WindowAfter, SlowStartAfter, StopsAt;
      Begin(inbox);
      packets, healthy, resent, sent := OutputTurn(retransmit, timedOut, reduced, heartbeat);
      TracedOk(run, View());
    }

    method OutputTurn(retransmit: bool, timedOut: set<nat>, reduced: nat, heartbeat: bool)
      returns (packets: seq<Packet>, healthy: bool, ghost resent: seq<Packet>, ghost sent: seq<Packet>)
      requires Shape() && OnRun() && SoundStart() && run.sent == {} && inHand.EmptyHand? && reduced <= cubic.window
      modifies this`sendQueue, this`sendBuf, this`inHand, this`dequeued, this`windows, this`txLog
      modifies this`ackOnDataRecv, this`run, cubic
      ensures Shape() && Continues() && run.sent == PacketSet(packets) && inHand.EmptyHand?
      ensures healthy <==> !retransmit || forall k :: k in old(sendBuf) ==> old(sendBuf)[k].txCount < 20
      ensures healthy ==> TurnOutcome(old(View()), View(), retransmit, timedOut, resent, sent)
      ensures !healthy ==> exists k :: StopsAt(old(sendBuf), timedOut, nextRecv, packets, k)
      ensures healthy ==> cubic.window == WindowAfter(old(cubic.window), old(sendBuf), retransmit, timedOut, reduced)
      ensures healthy ==> cubic.slowStart == SlowStartAfter(old(cubic.slowStart), old(sendBuf), retransmit, timedOut)
      ensures healthy ==> |sendBuf| <= Max(|old(sendBuf)|, cubic.window)
      ensures healthy ==>
        !ackOnDataRecv && packets == resent + sent + Acknowledgement(View(), old(ackOnDataRecv) || heartbeat)
    {
      hide Traced, SenderOk, ReceiverOk, PacketSet, WindowAfter, SlowStartAfter, AfterPass, Sending, MaySendMore, TurnOutcome;
      hide Acknowledgement, StopsAt;
      ghost var e0 := View();
      packets, healthy := RetransmitTurn(retransmit, timedOut, reduced);
      resent, sent := packets, [];
      if healthy {
        ghost var e1 := View();
        var more;
        more, sent := SendAndAcknowledge(|packets|, heartbeat);
        TurnEnds(e0, e1, View(), retransmit, timedOut, resent, sent);
        JoinPackets(resent, sent, more, Acknowledgement(View(), old(ackOnDataRecv) || heartbeat));
        packets := packets + more;
      }
    }

    method RetransmitTurn(retransmit: bool, timedOut: set<nat>, reduced: nat)
      returns (packets: seq<Packet>, healthy: bool)
      requires Shape() && OnRun() && run.sent == {} && reduced <= cubic.window
      modifies this`sendBuf, this`txLog, this`windows, this`run, cubic
      ensures Shape() && Continues() && run.sent == PacketSet(packets)
      ensures |sendBuf| == |old(sendBuf)|
      ensures healthy <==> !retransmit || forall k :: k in old(sendBuf) ==> old(sendBuf)[k].txCount < 20
      ensures healthy ==> AfterPass(old(sendBuf), sendBuf, retransmit, timedOut, nextRecv, packets)
      ensures !healthy ==> exists k :: StopsAt(old(sendBuf), timedOut, nextRecv, packets, k)
      ensures healthy ==> cubic.window == WindowAfter(old(cubic.window), old(sendBuf), retransmit, timedOut, reduced)
      ensures healthy ==> cubic.slowStart == SlowStartAfter(old(cubic.slowStart), old(sendBuf), retransmit, timedOut)
    {
      hide Traced, PacketSet, Repeats, Resent, AnyEarly, AnyTimeout, StopsAt;
      packets, healthy := [], true;
      NoPackets({});
      if retransmit {
        var loss, timeout;
        packets, healthy, loss, timeout := RetransmitPass(timedOut);
        if healthy {
          ShrinkWindow(loss, timeout, reduced);
        }
      }
    }

    method SendAndAcknowledge(already: nat, heartbeat: bool) returns (packets: seq<Packet>, ghost sent: seq<Packet>)
      requires Shape() && OnRun() && SoundStart() && inHand.EmptyHand?
      modifies this`sendQueue, this`sendBuf, this`inHand, this`dequeued, this`windows, this`txLog
      modifies this`ackOnDataRecv, this`run
      ensures Shape() && Continues() && run.sent == old(run.sent) + PacketSet(packets)
      ensures inHand.EmptyHand? && |sendBuf| <= Max(|old(sendBuf)|, cubic.window)
      ensures Sending(old(View().tx), View().tx, sent, nextRecv, already)
      ensures !MaySendMore(|old(sendQueue)|, |old(sendBuf)|, already, |sent|, cubic.window, remoteWindow)
      ensures !ackOnDataRecv && packets == sent + Acknowledgement(View(), old(ackOnDataRecv) || heartbeat)
    {
      hide Traced, PacketSet, Sending, MaySendMore;
      packets := SendNew(already);
      sent := packets;
      packets := AcknowledgeIfDue(packets, heartbeat, old(run.sent));
    }

    method AcknowledgeIfDue(packets: seq<Packet>, heartbeat: bool,
                            ghost before: set<Packet>) returns (more: seq<Packet>)
      requires OnRun() && run.sent == before + PacketSet(packets)
      modifies this`ackOnDataRecv, this`run
      ensures Continues() && run.sent == before + PacketSet(more)
      ensures !ackOnDataRecv && more == packets + Acknowledgement(View(), old(ackOnDataRecv) || heartbeat)
    {
      hide Traced, PacketSet;
      more := packets;
      if ackOnDataRecv || heartbeat {
        var p := SendAcknowledgement();
        OneMorePacket(before, packets, p);
        more := packets + [p];
      }
    }
  }
}
