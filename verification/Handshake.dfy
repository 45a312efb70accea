/** A session opens: A's open request goes to B and is acknowledged, and B's response goes to A and is
    acknowledged.  Further rounds of one segment each follow the same steps. */
module Handshake {
  import opened Bytes
  import opened Fragmentation
  import opened Arq
  import opened ArqSafety
  import opened ArqProgress
  import opened HonestRuns
  import opened Mirror
  import opened Writing

  const FULL: nat := RECV_QUEUE_CAPACITY - 1

  // ---------------------------------------------------------------------------------------------
  // The writer at A
  // ---------------------------------------------------------------------------------------------

  /** An event of A's writer: nothing leaves A, and only its queue and log change. */
  ghost predicate OnlyQueued(s: System, s': System, segments: seq<Segment>) {
    && s'.b == s.b && s'.toA == s.toA && s'.toB == s.toB && s'.a.rx == s.a.rx
    && s'.a.tx.log == s.a.tx.log + segments && Transmitted(s'.a.tx) == Transmitted(s.a.tx)
    && s'.a.tx.congestionWindow == s.a.tx.congestionWindow && s'.a.tx.remoteWindow == s.a.tx.remoteWindow
    && s'.a.tx.inHand == s.a.tx.inHand && s'.a.tx.acked == s.a.tx.acked && s'.a.tx.isClient == s.a.tx.isClient
  }

  lemma WriterEvent(s: System, ev: TxEvent)
    requires Enabled(s.a, Tx(ev), s.toA) && (ev.QueueOpenRequest? || ev.Reserve? || ev.QueueFragment?)
    requires ev.QueueFragment? ==> ev.window == ReceiveWindow(s.a)
    ensures Honest(s, Action(true, Tx(ev)))
    ensures OnlyQueued(s, StepA(s, Tx(ev)), SegmentOf(Tx(ev)))
    ensures var t, t' := s.a.tx, StepA(s, Tx(ev)).a.tx;
      && t'.openQueued == (t.openQueued || ev.QueueOpenRequest?)
      && t'.reserved == (if ev.Reserve? then ev.n else if ev.QueueFragment? then t.reserved - 1 else t.reserved)
  {
    assert s.toB + {} == s.toB;
  }

  lemma WriterStep(s0: System, s: System, ev: TxEvent) returns (s': System)
    requires Leads(s0, s) && Inv(s) && Enabled(s.a, Tx(ev), s.toA)
    requires ev.QueueOpenRequest? || ev.Reserve? || ev.QueueFragment?
    requires ev.QueueFragment? ==> ev.window == ReceiveWindow(s.a)
    ensures Leads(s0, s') && Inv(s') && OnlyQueued(s, s', SegmentOf(Tx(ev)))
    ensures s'.a.tx.openQueued == (s.a.tx.openQueued || ev.QueueOpenRequest?)
    ensures s'.a.tx.reserved ==
      if ev.Reserve? then ev.n else if ev.QueueFragment? then s.a.tx.reserved - 1 else s.a.tx.reserved
  {
    hide Leads, Inv, Enabled, Apply, Sends, SegmentOf, Honest;
    WriterEvent(s, ev);
    s' := LeadsStep(s0, s, Action(true, Tx(ev)));
  }

  lemma CanReserve(s: System, n: nat)
    requires s.a.tx.openQueued && s.a.tx.reserved == 0 && s.a.tx.sendQueue == map[] && n <= 28
    ensures Enabled(s.a, Tx(Reserve(n)), s.toA) && SegmentOf(Tx(Reserve(n))) == []
    ensures s.a.tx.log + [] == s.a.tx.log
  {
  }

  // ---------------------------------------------------------------------------------------------
  // Single steps
  // ---------------------------------------------------------------------------------------------

  lemma PromptStep(s0: System, s: System, act: Action) returns (s': System)
    requires Reaches(s0, s) && Inv(s) && CanStep(s, act) && Prompt(s, act)
    ensures Reaches(s0, s') && Inv(s') && s' == Step(s, act)
  {
    hide Reaches, CanStep, Step, Inv, Prompt;
    ReachesStep(s0, s, act);
    StepKeepsInv(s, act);
    s' := Step(s, act);
  }

  lemma PromptRx(s0: System, s: System, ev: RxEvent) returns (s': System)
    requires Reaches(s0, s) && Inv(s) && RxEnabled(s.b.rx, ev, s.toB)
    ensures Reaches(s0, s') && Inv(s') && s' == s.(b := s.b.(rx := RxApply(s.b.rx, ev, s.toB)))
  {
    hide Reaches, Inv, RxEnabled, RxApply, CanStep, Step, Prompt;
    RxStepEffect(s, ev);
    s' := PromptStep(s0, s, Action(false, Rx(ev)));
  }

  lemma PromptTx(s0: System, s: System, ev: TxEvent) returns (s': System)
    requires Reaches(s0, s) && Inv(s) && Enabled(s.a, Tx(ev), s.toA) && Prompt(s, Action(true, Tx(ev)))
    ensures Reaches(s0, s') && Inv(s') && s' == StepA(s, Tx(ev))
  {
    hide Reaches, Inv, TxEnabled, Apply, Emits, Prompt;
    s' := PromptStep(s0, s, Action(true, Tx(ev)));
  }

  lemma PromptAck(s0: System, s: System) returns (s': System, p: Packet)
    requires Reaches(s0, s) && Inv(s)
    ensures Reaches(s0, s') && Inv(s') && s' == s.(toA := s.toA + {p})
    ensures p.AckPacket? && p.unAck == s.b.rx.nextRecv && p.window == ReceiveWindow(s.b)
  {
    hide Reaches, Inv;
    var ev := SendAck(s.b.rx.nextRecv, ReceiveWindow(s.b));
    p := AckPacket(Max(0, s.b.tx.nextSend - 1), s.b.rx.nextRecv, ReceiveWindow(s.b));
    assert Emits(s.b.tx, ev) == {p};
    s' := PromptStep(s0, s, Action(false, Tx(ev)));
  }

  // ---------------------------------------------------------------------------------------------
  // One segment at a time
  // ---------------------------------------------------------------------------------------------

  /** The sender has queued `queued` segments and transmitted `sent` of them, of which `acked` are
      acknowledged. */
  ghost predicate SenderAt(t: Sender, queued: nat, sent: nat, acked: nat) {
    && t.inHand.EmptyHand? && t.reserved == 0 && (t.openQueued <==> queued > 0)
    && |t.log| == queued && t.dequeued == sent && t.acked == acked
    && t.congestionWindow == t.remoteWindow == MIN_WINDOW
  }

  /** The receiver has put `n` segments in order, and its application has read none of them. */
  ghost predicate ReceiverAt(r: Receiver, n: nat) {
    r.phase.Idle? && r.recvBuf == map[] && r.nextRecv == n && r.popped == 0
  }

  ghost predicate AllCarried(data: set<Packet>, n: nat) {
    forall k: nat :: k < n ==> Carries(data, k)
  }

  /** The segment that was put in order last is number `n - 1`. */
  ghost predicate LatestCarried(r: Receiver, data: set<Packet>, n: nat) {
    if n == 0 then r.latest.None?
    else r.latest.Some? && r.latest.value in data && HasSegment(r.latest.value) && r.latest.value.sn == n - 1
  }

  ghost predicate At(s: System, queued: nat, sent: nat, acked: nat, received: nat) {
    && Inv(s) && SenderAt(s.a.tx, queued, sent, acked) && ReceiverAt(s.b.rx, received)
    && AllCarried(s.toB, sent) && LatestCarried(s.b.rx, s.toB, received)
  }

  /** Only what carries segments from A to B has changed. */
  ghost predicate OneWay(s: System, s': System) {
    && s'.a.rx == s.a.rx && s'.b.tx == s.b.tx && s.toB <= s'.toB && s.toA <= s'.toA
    && SameWriter(s.a.tx, s'.a.tx) && s'.a.tx.isClient == s.a.tx.isClient
  }

  lemma DequeueOne(t: Sender, n: nat, inbox: set<Packet>)
    requires SenderOk(t) && SenderAt(t, n + 1, n, n)
    ensures var ev := Dequeue(n, MIN_WINDOW);
      && TxEnabled(t, ev, inbox) && Emits(t, ev) == {}
      && n in t.sendQueue
      && TxApply(t, ev, inbox) ==
         t.(inHand := Holding(n, t.sendQueue[n]), sendQueue := t.sendQueue - {n}, dequeued := n + 1,
             windows := {MIN_WINDOW})
  {
    assert t.sendBuf == map[] by { assert forall k :: k !in t.sendBuf; }
    assert IsMin(t.sendQueue, n);
  }

  lemma TransmitOne(t: Sender, n: nat, unAck: nat, inbox: set<Packet>)
    requires SenderOk(t) && SenderAt(t.(inHand := EmptyHand), n + 1, n + 1, n) && t.inHand.Holding?
    ensures var ev, p := Transmit(unAck), Wire(n, t.inHand.segment, unAck);
      && TxEnabled(t, ev, inbox) && Emits(t, ev) == {p} && HasSegment(p) && p.sn == n
      && SenderAt(TxApply(t, ev, inbox), n + 1, n + 1, n)
      && SameWriter(t, TxApply(t, ev, inbox)) && TxApply(t, ev, inbox).isClient == t.isClient
  {
  }

  lemma SendOne(s0: System, s: System, n: nat) returns (s': System)
    requires Reaches(s0, s) && At(s, n + 1, n, n, n)
    ensures Reaches(s0, s') && At(s', n + 1, n + 1, n, n) && OneWay(s, s')
  {
    hide Reaches, SenderOk, ReceiverOk, Agree, AllCarried, LatestCarried, TxEnabled, TxApply, Emits;
    DequeueOne(s.a.tx, n, s.toA);
    var s1 := PromptTx(s0, s, Dequeue(n, MIN_WINDOW));
    assert s.toB + {} == s.toB;
    TransmitOne(s1.a.tx, n, s1.a.rx.nextRecv, s1.toA);
    s' := PromptTx(s0, s1, Transmit(s1.a.rx.nextRecv));
    CarriedAfter(s.toB, Wire(n, s1.a.tx.inHand.segment, s1.a.rx.nextRecv), n);
    LatestStays(s.b.rx, s.toB, s'.toB, n);
  }

  lemma CarriedAfter(data: set<Packet>, p: Packet, n: nat)
    requires AllCarried(data, n) && HasSegment(p) && p.sn == n
    ensures AllCarried(data + {p}, n + 1)
  {
    assert p in data + {p};
    forall k: nat | k < n ensures Carries(data + {p}, k) {
      assert Carries(data, k);
      var q :| q in data && HasSegment(q) && q.sn == k;
      assert q in data + {p};
    }
  }

  lemma LatestStays(r: Receiver, data: set<Packet>, data': set<Packet>, n: nat)
    requires LatestCarried(r, data, n) && data <= data'
    ensures LatestCarried(r, data', n)
  {
  }

  lemma ReceiveSteps(r: Receiver, p: Packet, n: nat, data: set<Packet>)
    requires ReceiverAt(r, n) && |r.recvQueue| == n < FULL && p in data && HasSegment(p) && p.sn == n
    ensures RxEnabled(r, Arrive(p), data)
    ensures var r1 := RxApply(r, Arrive(p), data); RxEnabled(r1, Take(n), data)
    ensures var r1 := RxApply(r, Arrive(p), data); var r2 := RxApply(r1, Take(n), data);
      r2 == r.(phase := Taken(p))
  {
    var r1 := RxApply(r, Arrive(p), data);
    assert r1.recvBuf == map[n := p];
    assert IsMin(r1.recvBuf, n);
    assert r1.recvBuf - {n} == map[];
  }

  lemma EnqueueSteps(r: Receiver, p: Packet, n: nat, data: set<Packet>)
    requires ReceiverAt(r.(phase := Idle), n) && r.phase == Taken(p)
    ensures RxEnabled(r, Enqueue, data)
    ensures var r1 := RxApply(r, Enqueue, data); RxEnabled(r1, Advance, data)
    ensures var r1 := RxApply(r, Enqueue, data); var r2 := RxApply(r1, Advance, data);
      && RxEnabled(r2, StopMoving, data) && ReceiverAt(RxApply(r2, StopMoving, data), n + 1)
      && RxApply(r2, StopMoving, data).latest == Some(p)
  {
  }

  lemma NextArrives(s: System, n: nat) returns (p: Packet)
    requires At(s, n + 1, n + 1, n, n)
    ensures p in s.toB && HasSegment(p) && p.sn == n && |s.b.rx.recvQueue| == n
  {
    HeldRangeSize(s.b.rx.recvQueue, 0, n);
    assert Carries(s.toB, n);
    p :| p in s.toB && HasSegment(p) && p.sn == n;
  }

  lemma LatestNow(r: Receiver, data: set<Packet>, p: Packet)
    requires r.latest == Some(p) && p in data && HasSegment(p)
    ensures LatestCarried(r, data, p.sn + 1)
  {
  }

  lemma ReceiveOne(s0: System, s: System, n: nat) returns (s': System)
    requires Reaches(s0, s) && At(s, n + 1, n + 1, n, n) && n < FULL
    ensures Reaches(s0, s') && At(s', n + 1, n + 1, n, n + 1) && OneWay(s, s')
  {
    hide Reaches, Inv, AllCarried, LatestCarried, SenderAt, RxEnabled, RxApply;
    var p := NextArrives(s, n);
    ReceiveSteps(s.b.rx, p, n, s.toB);
    var s1 := PromptRx(s0, s, Arrive(p));
    var s2 := PromptRx(s0, s1, Take(n));
    EnqueueSteps(s2.b.rx, p, n, s.toB);
    var s3 := PromptRx(s0, s2, Enqueue);
    var s4 := PromptRx(s0, s3, Advance);
    s' := PromptRx(s0, s4, StopMoving);
    LatestNow(s'.b.rx, s.toB, p);
  }

  lemma DropOne(t: Sender, n: nat, p: Packet, inbox: set<Packet>)
    requires SenderOk(t) && SenderAt(t, n + 1, n + 1, n) && p in inbox && p.AckPacket? && p.unAck == n + 1
    ensures var ev := DropAcked(n, p);
      && TxEnabled(t, ev, inbox) && Emits(t, ev) == {}
      && SenderAt(TxApply(t, ev, inbox), n + 1, n + 1, n + 1)
      && SameWriter(t, TxApply(t, ev, inbox)) && TxApply(t, ev, inbox).isClient == t.isClient
  {
    assert IsMin(t.sendBuf, n);
  }

  lemma AcknowledgeOne(s0: System, s: System, n: nat) returns (s': System)
    requires Reaches(s0, s) && At(s, n + 1, n + 1, n, n + 1)
    ensures Reaches(s0, s') && At(s', n + 1, n + 1, n + 1, n + 1) && OneWay(s, s')
  {
    hide Reaches, SenderOk, ReceiverOk, Agree, AllCarried, LatestCarried, TxEnabled, TxApply, Emits, SenderAt;
    var s1, p := PromptAck(s0, s);
    DropOne(s1.a.tx, n, p, s1.toA);
    s' := PromptTx(s0, s1, DropAcked(n, p));
    assert s.toB + {} == s.toB;
  }

  /** One segment more makes its way from A to B and is acknowledged. */
  lemma Round(s: System, n: nat) returns (s': System)
    requires At(s, n + 1, n, n, n) && n < FULL
    ensures Reaches(s, s') && At(s', n + 1, n + 1, n + 1, n + 1) && OneWay(s, s')
  {
    ReachesSelf(s);
    hide Reaches, At;
    var s1 := SendOne(s, s, n);
    var s2 := ReceiveOne(s, s1, n);
    s' := AcknowledgeOne(s, s2, n);
  }

  // ---------------------------------------------------------------------------------------------
  // The open request and its response
  // ---------------------------------------------------------------------------------------------

  /** The response is in order at A and acknowledged, and A holds nothing else. */
  ghost predicate Answered(s: System) {
    SenderAt(s.b.tx, 1, 1, 1) && ReceiverAt(s.a.rx, 1) && NoWindowHeld(s.a.rx)
  }

  lemma CanAnswer(s: System)
    requires At(s, 1, 1, 1, 1) && s.a.tx.log[0].isOpen && SenderAt(s.b.tx, 0, 0, 0) && !s.b.tx.isClient
    ensures Enabled(s.b, Tx(QueueOpenResponse), s.toB)
    ensures var t := TxApply(s.b.tx, QueueOpenResponse, s.toB); SenderAt(t, 1, 0, 0) && t.log == [Segment(true, [], 0, 0)]
  {
    assert Carries(s.toB, 0);
    var p :| p in s.toB && HasSegment(p) && p.sn == 0;
    assert Authentic(p, s.a.tx);
  }

  lemma LatestIsOpen(s: System)
    requires At(s, 1, 1, 1, 1) && s.a.tx.log[0].isOpen
    ensures NoWindowHeld(s.b.rx)
  {
    assert Authentic(s.b.rx.latest.value, s.a.tx);
  }

  lemma CarriedStays(data: set<Packet>, data': set<Packet>, n: nat)
    requires AllCarried(data, n) && data <= data'
    ensures AllCarried(data', n)
  {
    forall k: nat | k < n ensures Carries(data', k) {
      assert Carries(data, k);
      var p :| p in data && HasSegment(p) && p.sn == k;
      assert p in data';
    }
  }

  lemma OpenRequest(payload: bytes) returns (s: System)
    requires |payload| <= MAX_OPEN_PAYLOAD
    ensures Leads(Initial(), s) && At(s, 1, 1, 1, 1) && s.a.rx == Fresh(true).rx && s.b.tx == Fresh(false).tx
    ensures s.a.tx.log == [Segment(true, payload, 0, 0)] && s.a.tx.isClient
  {
    InitialInv();
    LeadsSelf(Initial());
    hide Leads, Reaches, Inv;
    var s1 := WriterStep(Initial(), Initial(), QueueOpenRequest(payload));
    s := Round(s1, 0);
    ReachesLeads(s1, s);
    LeadsOn(Initial(), s1, s);
  }

  lemma QueueResponse(s0: System, s: System) returns (s': System)
    requires Leads(s0, s) && At(s, 1, 1, 1, 1) && s.a.tx.log[0].isOpen
    requires s.a.rx == Fresh(true).rx && s.b.tx == Fresh(false).tx
    ensures Leads(s0, s') && At(Swap(s'), 1, 0, 0, 0) && s'.b.tx.log == [Segment(true, [], 0, 0)]
    ensures s'.a == s.a && s'.b.rx == s.b.rx && s'.toB == s.toB && s'.toA == s.toA
  {
    hide Leads, SenderOk, ReceiverOk, Agree, AllCarried;
    CanAnswer(s);
    hide TxEnabled, TxApply;
    s' := LeadsStep(s0, s, Action(false, Tx(QueueOpenResponse)));
    assert s.toA + {} == s.toA;
    NothingCarried(s'.toA);
  }

  lemma NothingCarried(data: set<Packet>)
    ensures AllCarried(data, 0)
  {
  }

  /** B answers, and its answer makes its way to A. */
  lemma Answer(s0: System, s: System) returns (s': System)
    requires Leads(s0, s) && At(s, 1, 1, 1, 1) && s.a.tx.log[0].isOpen
    requires s.a.rx == Fresh(true).rx && s.b.tx == Fresh(false).tx
    ensures Leads(s0, s') && At(s', 1, 1, 1, 1) && Answered(s') && s'.a.tx == s.a.tx && s'.b.rx == s.b.rx
  {
    hide Leads, Reaches, Inv, AllCarried, LatestCarried, NoWindowHeld;
    var s1 := QueueResponse(s0, s);
    var s2 := Round(Swap(s1), 0);
    LatestIsOpen(s2);
    s' := Swap(s2);
    FlippedReaches(s1, s2);
    ReachesLeads(s1, s');
    LeadsOn(s0, s1, s');
    SwapKeepsInv(s2);
    CarriedStays(s.toB, s'.toB, 1);
    LatestStays(s.b.rx, s.toB, s'.toB, 1);
  }

  /** Two fresh sessions can open: the request is in order at B, the response at A, and both are
      acknowledged. */
  lemma Open(payload: bytes) returns (s: System)
    requires |payload| <= MAX_OPEN_PAYLOAD
    ensures Leads(Initial(), s) && At(s, 1, 1, 1, 1) && Answered(s)
    ensures s.a.tx.log == [Segment(true, payload, 0, 0)] && s.a.tx.isClient
  {
    hide Leads, At, Answered;
    var s1 := OpenRequest(payload);
    s := Answer(Initial(), s1);
  }
}
