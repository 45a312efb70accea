/** The protocol does not wait for itself: from every reachable state, but for two kinds that are spelled
    out, a run leads to one in which the receiving application has read everything the sending
    application queued. */
module ArqProgress {
  import opened Bytes
  import opened Arq
  import opened ArqSafety

  // ---------------------------------------------------------------------------------------------
  // Prompt runs
  // ---------------------------------------------------------------------------------------------

  /** A retransmission pass ends well: it goes up all of sendBuf, and closes the session at the first
      segment that was transmitted too often, due or not. */
  ghost predicate PassEndsWell(t: Sender) {
    forall j :: j in t.sendBuf ==> t.sendBuf[j].txCount < TX_COUNT_LIMIT
  }

  /** A step in which nothing is left to chance: packets carry the acknowledgement number and the
      window of the moment, a retransmission is part of a pass that ends well, a segment leaves the
      queue only when both windows are open, no congestion window changes by itself, and nothing
      new is queued. */
  ghost predicate Prompt(s: System, act: Action) {
    var e := if act.atA then s.a else s.b;
    act.event.Tx? ==>
      match act.event.tx
      case Transmit(unAck) => unAck == e.rx.nextRecv
      case Retransmit(_, unAck) => unAck == e.rx.nextRecv && PassEndsWell(e.tx)
      case SendAck(unAck, window) => unAck == e.rx.nextRecv && window == ReceiveWindow(e)
      case Dequeue(_, window) => window == e.tx.congestionWindow && e.tx.remoteWindow > 0
      case DropAcked(_, _) => true
      case StoreWindow(_) => true
      case CountAck(_) => true
      case _ => false
  }

  ghost predicate PromptRun(s: System, acts: seq<Action>)
    decreases |acts|
  {
    && CanExecute(s, acts)
    && (acts == [] || (PromptRun(s, acts[..|acts| - 1]) && Prompt(Execute(s, acts[..|acts| - 1]), acts[|acts| - 1])))
  }

  ghost predicate Reaches(s: System, s': System) {
    exists acts :: PromptRun(s, acts) && Execute(s, acts) == s'
  }

  lemma ReachesSelf(s: System)
    ensures Reaches(s, s)
  {
    assert PromptRun(s, []) && Execute(s, []) == s;
  }

  lemma ReachesStep(s0: System, s: System, act: Action)
    requires Reaches(s0, s) && CanStep(s, act) && Prompt(s, act)
    ensures Reaches(s0, Step(s, act))
  {
    hide CanStep, Step, CanExecute, Execute, Prompt;
    var acts :| PromptRun(s0, acts) && Execute(s0, acts) == s;
    ExecuteLast(s0, acts, act);
    assert (acts + [act])[..|acts|] == acts;
    assert PromptRun(s0, acts + [act]);
  }

  // ---------------------------------------------------------------------------------------------
  // The states from which everything can arrive
  // ---------------------------------------------------------------------------------------------

  ghost predicate Carries(data: set<Packet>, k: nat) {
    exists p :: p in data && HasSegment(p) && p.sn == k
  }

  /** The segment is in recvBuf, or the input loop has taken it and not put it in order yet. */
  predicate Held(r: Receiver, k: nat) {
    k in r.recvBuf || (k == r.nextRecv && r.phase.Taken?)
  }

  /** The receiver has the segment and does not need another packet to get to it. */
  predicate Deliverable(r: Receiver, k: nat) {
    Held(r, k) && !(r.phase.Idle? && k == r.nextRecv)
  }

  /** Neither segment `k` nor one transmitted after it has reached the limit, so once the segments before
      it are acknowledged a pass can transmit it once more. */
  ghost predicate Repeatable(t: Sender, k: nat) {
    forall j: nat :: k <= j < Transmitted(t) && j < |t.txLog| ==> t.txLog[j] < TX_COUNT_LIMIT
  }

  /** Every segment that is not in order yet may be transmitted once more, is on its way, or has
      arrived. */
  ghost predicate Recoverable(t: Sender, r: Receiver, data: set<Packet>) {
    forall k: nat :: InOrder(r) <= k < Transmitted(t) && k < |t.txLog| ==>
      Repeatable(t, k) || Carries(data, k) || Deliverable(r, k)
  }

  /** The input loop is at rest and there is no room in recvBuf for the packet that would wake it. */
  predicate Trapped(r: Receiver) {
    r.phase.Idle? && TREE_CAPACITY - |r.recvBuf| <= 1
  }

  /** B is at rest, everything transmitted is in order and more is queued, but nothing that is left can
      wake B or open A's window. */
  ghost predicate Starved(s: System) {
    && s.b.rx.phase.Idle? && s.b.rx.nextRecv == Transmitted(s.a.tx)
    && s.a.tx.inHand.EmptyHand? && s.a.tx.dequeued < |s.a.tx.log|
    && !CanGoOn(s)
  }

  /** B has delivered all it could, a window is open at either end, or a segment is on its way to B or may
      be transmitted once more, which wakes B. */
  ghost predicate CanGoOn(s: System) {
    || UpToDate(s.b.rx) || ReceiveWindow(s.b) > 0 || s.a.tx.remoteWindow > 0
    || (exists k :: Carries(s.toB, k)) || CanRepeat(s.a.tx)
  }

  ghost predicate CanRepeat(t: Sender) {
    exists k :: k in t.sendBuf && Repeatable(t, k)
  }

  /** What the writer and the congestion window are to the sender has not changed. */
  ghost predicate SameWriter(t: Sender, t': Sender) {
    && t'.log == t.log && t'.openQueued == t.openQueued && t'.reserved == t.reserved
    && t'.congestionWindow == t.congestionWindow
  }

  /** A state on the way from `s0`. */
  ghost predicate OnTheWay(s0: System, s: System) {
    && Reaches(s0, s) && Inv(s) && SameWriter(s0.a.tx, s.a.tx) && s.a.rx == s0.a.rx && s.b.tx == s0.b.tx
    && Recoverable(s.a.tx, s.b.rx, s.toB) && !Trapped(s.b.rx)
  }

  // ---------------------------------------------------------------------------------------------
  // Single steps
  // ---------------------------------------------------------------------------------------------

  lemma RxStepEffect(s: System, ev: RxEvent)
    requires RxEnabled(s.b.rx, ev, s.toB)
    ensures CanStep(s, Action(false, Rx(ev))) && Prompt(s, Action(false, Rx(ev)))
    ensures Step(s, Action(false, Rx(ev))) == s.(b := s.b.(rx := RxApply(s.b.rx, ev, s.toB)))
  {
    assert s.toA + {} == s.toA;
  }

  lemma RxKeepsRecoverable(t: Sender, r: Receiver, ev: RxEvent, data: set<Packet>)
    requires Recoverable(t, r, data) && RxEnabled(r, ev, data) && (ev.StopMoving? ==> UpToDate(r))
    ensures Recoverable(t, RxApply(r, ev, data), data)
  {
    var r' := RxApply(r, ev, data);
    assert forall k: nat :: InOrder(r') <= k && Deliverable(r, k) ==> InOrder(r) <= k && Deliverable(r', k);
  }

  lemma RxAvoidsTrap(r: Receiver, ev: RxEvent, data: set<Packet>)
    requires RxEnabled(r, ev, data) && !Trapped(r)
    requires ev.StopMoving? ==> TREE_CAPACITY - |r.recvBuf| >= 2
    ensures !Trapped(RxApply(r, ev, data))
  {
  }

  lemma RxStep(s0: System, s: System, ev: RxEvent) returns (s': System)
    requires OnTheWay(s0, s) && RxEnabled(s.b.rx, ev, s.toB) && (ev.StopMoving? ==> UpToDate(s.b.rx))
    ensures OnTheWay(s0, s') && s' == s.(b := s.b.(rx := RxApply(s.b.rx, ev, s.toB)))
  {
    if ev.StopMoving? {
      AgreeBounds(s.a.tx, s.b.rx, s.toB, s.toA);
    }
    hide Inv, RxEnabled, RxApply, CanStep, Step, Reaches, Recoverable, Prompt;
    var act := Action(false, Rx(ev));
    RxStepEffect(s, ev);
    RxKeepsRecoverable(s.a.tx, s.b.rx, ev, s.toB);
    RxAvoidsTrap(s.b.rx, ev, s.toB);
    s' := Step(s, act);
    ReachesStep(s0, s, act);
    StepKeepsInv(s, act);
  }

  lemma TxStep(s0: System, s: System, ev: TxEvent) returns (s': System)
    requires OnTheWay(s0, s) && Enabled(s.a, Tx(ev), s.toA) && Prompt(s, Action(true, Tx(ev)))
    requires var t := TxApply(s.a.tx, ev, s.toA);
      SameWriter(s.a.tx, t) && Recoverable(t, s.b.rx, s.toB + Emits(s.a.tx, ev))
    ensures OnTheWay(s0, s') && s' == StepA(s, Tx(ev))
  {
    hide Inv, TxEnabled, TxApply, Emits, Reaches, Recoverable, Prompt;
    var act := Action(true, Tx(ev));
    s' := Step(s, act);
    ReachesStep(s0, s, act);
    StepKeepsInv(s, act);
  }

  /** B acknowledges what it has and offers its window. */
  lemma AckStep(s0: System, s: System) returns (s': System, p: Packet)
    requires OnTheWay(s0, s)
    ensures OnTheWay(s0, s') && s' == s.(toA := s.toA + {p})
    ensures p.AckPacket? && p.unAck == s.b.rx.nextRecv && p.window == ReceiveWindow(s.b)
  {
    hide Inv, Reaches, Recoverable;
    var ev := SendAck(s.b.rx.nextRecv, ReceiveWindow(s.b));
    var act := Action(false, Tx(ev));
    p := AckPacket(Max(0, s.b.tx.nextSend - 1), s.b.rx.nextRecv, ReceiveWindow(s.b));
    assert Emits(s.b.tx, ev) == {p};
    s' := Step(s, act);
    ReachesStep(s0, s, act);
    StepKeepsInv(s, act);
  }

  // ---------------------------------------------------------------------------------------------
  // The application at B reads everything that is in order
  // ---------------------------------------------------------------------------------------------

  /** Nothing changed but what B's application has read. */
  ghost predicate OnlyRead(s: System, s': System) {
    && s'.a == s.a && s'.toA == s.toA && s'.toB == s.toB && s'.b.tx == s.b.tx
    && s'.b.rx.recvBuf == s.b.rx.recvBuf && s'.b.rx.phase == s.b.rx.phase && s'.b.rx.nextRecv == s.b.rx.nextRecv
  }

  lemma FirstUnread(r: Receiver)
    requires ReceiverOk(r) && r.popped < InOrder(r)
    ensures IsMin(r.recvQueue, r.popped)
  {
  }

  lemma {:induction false} PopQueue(s0: System, s: System) returns (s': System)
    requires OnTheWay(s0, s)
    ensures OnTheWay(s0, s') && OnlyRead(s, s')
    ensures s'.b.rx.popped == InOrder(s.b.rx)
    decreases InOrder(s.b.rx) - s.b.rx.popped
  {
    hide SenderOk, Agree, Reaches, Recoverable;
    var r := s.b.rx;
    if r.popped == InOrder(r) {
      s' := s;
    } else {
      FirstUnread(r);
      var s1 := RxStep(s0, s, Pop(r.popped));
      s' := PopQueue(s0, s1);
    }
  }

  lemma ReadEverything(s0: System, s: System) returns (s': System)
    requires OnTheWay(s0, s)
    ensures OnTheWay(s0, s') && OnlyRead(s, s')
    ensures s'.b.rx.popped == InOrder(s.b.rx) && s'.b.rx.recvQueue == map[] && s'.b.rx.unread == []
  {
    hide SenderOk, Agree, Reaches, Recoverable;
    var s1 := PopQueue(s0, s);
    s' := RxStep(s0, s1, Consume(|s1.b.rx.unread|));
    assert forall k :: k !in s1.b.rx.recvQueue;
  }

  // ---------------------------------------------------------------------------------------------
  // The input loop at B comes to rest
  // ---------------------------------------------------------------------------------------------

  /** Only B's receiving half moved, and it let go of no segment without putting it in order. */
  ghost predicate OnlyReceived(s: System, s': System) {
    && s'.a == s.a && s'.toA == s.toA && s'.toB == s.toB && s'.b.tx == s.b.tx
    && InOrder(s.b.rx) <= InOrder(s'.b.rx)
    && forall k: nat :: Held(s.b.rx, k) ==> k < InOrder(s'.b.rx) || Held(s'.b.rx, k)
  }

  function Rank(phase: Phase): nat {
    match phase
    case Taken(_) => 3
    case Queued => 2
    case Moving => 1
    case Idle => 0
  }

  lemma {:induction false} Settle(s0: System, s: System) returns (s': System)
    requires OnTheWay(s0, s)
    ensures OnTheWay(s0, s') && OnlyReceived(s, s') && s'.b.rx.phase.Idle?
    ensures s' == s || UpToDate(s'.b.rx)
    decreases |s.b.rx.recvBuf|, Rank(s.b.rx.phase)
  {
    hide OnTheWay;
    if s.b.rx.phase.Idle? {
      s' := s;
    } else {
      var s1 := SettleStep(s0, s);
      s' := Settle(s0, s1);
    }
  }

  lemma SettleStep(s0: System, s: System) returns (s': System)
    requires OnTheWay(s0, s) && !s.b.rx.phase.Idle?
    ensures OnTheWay(s0, s') && OnlyReceived(s, s') && (s'.b.rx.phase.Idle? ==> UpToDate(s'.b.rx))
    ensures
      || |s'.b.rx.recvBuf| < |s.b.rx.recvBuf|
      || (|s'.b.rx.recvBuf| == |s.b.rx.recvBuf| && Rank(s'.b.rx.phase) < Rank(s.b.rx.phase))
  {
    hide OnTheWay;
    if s.b.rx.phase.Taken? {
      s' := RxStep(s0, s, Enqueue);
    } else if s.b.rx.phase.Queued? {
      s' := RxStep(s0, s, Advance);
    } else {
      var s1 := ReadEverything(s0, s);
      s' := MoveStep(s0, s1);
    }
  }

  lemma {:induction false} SomeMin<T>(tree: map<nat, T>, k: nat) returns (m: nat)
    requires k in tree
    ensures IsMin(tree, m) && m <= k
    decreases k
  {
    if j :| j in tree && j < k {
      m := SomeMin(tree, j);
    } else {
      m := k;
    }
  }

  lemma MoveStep(s0: System, s: System) returns (s': System)
    requires OnTheWay(s0, s) && s.b.rx.phase.Moving? && s.b.rx.recvQueue == map[]
    ensures OnTheWay(s0, s') && OnlyReceived(s, s') && (s'.b.rx.phase.Idle? ==> UpToDate(s'.b.rx))
    ensures |s'.b.rx.recvBuf| < |s.b.rx.recvBuf| || (s'.b.rx.recvBuf == s.b.rx.recvBuf && s'.b.rx.phase.Idle?)
  {
    hide OnTheWay;
    var r := s.b.rx;
    if j :| j in r.recvBuf && j <= r.nextRecv {
      var k := SomeMin(r.recvBuf, j);
      s' := RxStep(s0, s, Take(k));
      assert (r.recvBuf - {k}).Keys == r.recvBuf.Keys - {k};
    } else {
      s' := RxStep(s0, s, StopMoving);
    }
  }

  // ---------------------------------------------------------------------------------------------
  // One more transmission puts a missing segment in order
  // ---------------------------------------------------------------------------------------------

  /** What retransmissions leave alone at the sender. */
  ghost predicate SameNumbering(t: Sender, t': Sender) {
    t'.dequeued == t.dequeued && t'.inHand == t.inHand && t'.nextSend == t.nextSend
  }

  lemma RetransmitEffect(t: Sender, r: Receiver, data: set<Packet>, k: nat, unAck: nat, inbox: set<Packet>)
    requires SenderOk(t) && Recoverable(t, r, data) && k in t.sendBuf && t.txLog[k] < TX_COUNT_LIMIT && k <= InOrder(r)
    ensures var ev, p := Retransmit(k, unAck), Wire(k, t.log[k], unAck);
      && TxEnabled(t, ev, inbox) && Emits(t, ev) == {p}
      && var t' := TxApply(t, ev, inbox);
         SameWriter(t, t') && SameNumbering(t, t') && Recoverable(t', r, data + {p})
  {
    var p := Wire(k, t.log[k], unAck);
    assert p in data + {p} && HasSegment(p) && p.sn == k;
    forall j: nat | j != k && Carries(data, j) ensures Carries(data + {p}, j) {
      var q :| q in data && HasSegment(q) && q.sn == j;
      assert q in data + {p};
    }
    var t' := TxApply(t, Retransmit(k, unAck), inbox);
    assert forall j: nat :: j > k && Repeatable(t, j) ==> Repeatable(t', j);
  }

  lemma PassReaches(t: Sender)
    requires SenderOk(t) && t.acked < Transmitted(t) && Repeatable(t, t.acked)
    ensures t.acked in t.sendBuf && t.txLog[t.acked] < TX_COUNT_LIMIT && PassEndsWell(t)
  {
  }

  lemma Repeat(s0: System, s: System, k: nat) returns (s': System)
    requires OnTheWay(s0, s) && s.a.tx.acked == k < Transmitted(s.a.tx) && Repeatable(s.a.tx, k) && k <= InOrder(s.b.rx)
    ensures OnTheWay(s0, s') && s'.b == s.b && SameNumbering(s.a.tx, s'.a.tx) && Carries(s'.toB, k)
  {
    PassReaches(s.a.tx);
    hide Reaches, TxEnabled, TxApply, Emits, ReceiverOk, Repeatable, PassEndsWell;
    var p := Wire(k, s.a.tx.log[k], s.a.rx.nextRecv);
    RetransmitEffect(s.a.tx, s.b.rx, s.toB, k, s.a.rx.nextRecv, s.toA);
    s' := TxStep(s0, s, Retransmit(k, s.a.rx.nextRecv));
    assert p in s'.toB && HasSegment(p) && p.sn == k;
  }

  /** A copy of the segment B waits for gets on its way.  B acknowledges what came before, which may have
      reached the limit. */
  lemma SendMissing(s0: System, s: System) returns (s': System)
    requires OnTheWay(s0, s) && s.b.rx.phase.Idle? && s.b.rx.nextRecv < Transmitted(s.a.tx)
    ensures OnTheWay(s0, s') && s'.b == s.b && SameNumbering(s.a.tx, s'.a.tx)
    ensures Carries(s'.toB, s.b.rx.nextRecv)
  {
    var k := s.b.rx.nextRecv;
    if Carries(s.toB, k) {
      s' := s;
    } else {
      var s1 := AcknowledgeUpTo(s0, s, k);
      MissingIsRepeatable(s1);
      hide OnTheWay;
      s' := Repeat(s0, s1, k);
    }
  }

  /** B acknowledges its position, and A drops what comes before segment `k`. */
  lemma AcknowledgeUpTo(s0: System, s: System, k: nat) returns (s': System)
    requires OnTheWay(s0, s) && s.a.tx.acked <= k <= s.b.rx.nextRecv
    ensures OnTheWay(s0, s') && s'.b == s.b && s'.toB == s.toB && SameNumbering(s.a.tx, s'.a.tx)
    ensures s'.a.tx.acked == k && s'.a.tx.remoteWindow == s.a.tx.remoteWindow && s'.a.tx.txLog == s.a.tx.txLog
  {
    hide Reaches, SenderOk, ReceiverOk, Recoverable;
    var s1, p := AckStep(s0, s);
    s' := DropUpTo(s0, s1, p, k);
  }

  lemma MissingIsRepeatable(s: System)
    requires Inv(s) && Recoverable(s.a.tx, s.b.rx, s.toB) && s.b.rx.phase.Idle?
    requires s.b.rx.nextRecv < Transmitted(s.a.tx) && !Carries(s.toB, s.b.rx.nextRecv)
    ensures Repeatable(s.a.tx, s.b.rx.nextRecv)
  {
    hide Repeatable;
  }

  /** A packet that arrives wakes the input loop, which then delivers all it can. */
  lemma Wake(s0: System, s: System, k: nat) returns (s': System)
    requires OnTheWay(s0, s) && s.b.rx.phase.Idle? && Carries(s.toB, k)
    ensures OnTheWay(s0, s') && s'.b.rx.phase.Idle? && UpToDate(s'.b.rx) && s'.a == s.a
    ensures s.b.rx.nextRecv <= s'.b.rx.nextRecv && (k == s.b.rx.nextRecv ==> k < s'.b.rx.nextRecv)
  {
    hide Reaches, Inv, Recoverable;
    var p :| p in s.toB && HasSegment(p) && p.sn == k;
    var s1 := RxStep(s0, s, Arrive(p));
    assert Held(s1.b.rx, k);
    s' := Settle(s0, s1);
  }

  lemma RecoverOne(s0: System, s: System) returns (s': System)
    requires OnTheWay(s0, s) && s.b.rx.phase.Idle? && s.b.rx.nextRecv < Transmitted(s.a.tx)
    ensures OnTheWay(s0, s') && s'.b.rx.phase.Idle? && UpToDate(s'.b.rx) && SameNumbering(s.a.tx, s'.a.tx)
    ensures s.b.rx.nextRecv < s'.b.rx.nextRecv
  {
    hide OnTheWay;
    var s1 := SendMissing(s0, s);
    s' := Wake(s0, s1, s.b.rx.nextRecv);
  }

  /** Every transmitted segment can be put in order. */
  lemma {:induction false} RecoverAll(s0: System, s: System) returns (s': System)
    requires OnTheWay(s0, s)
    ensures OnTheWay(s0, s') && s'.b.rx.phase.Idle? && SameNumbering(s.a.tx, s'.a.tx)
    ensures s'.b.rx.nextRecv == Transmitted(s'.a.tx) && (s' == s || UpToDate(s'.b.rx))
    decreases Transmitted(s.a.tx) - InOrder(s.b.rx)
  {
    hide Reaches, SenderOk, ReceiverOk, Recoverable;
    var s1 := Settle(s0, s);
    if s1.b.rx.nextRecv == Transmitted(s1.a.tx) {
      s' := s1;
    } else {
      var s2 := RecoverOne(s0, s1);
      s' := RecoverAll(s0, s2);
    }
  }

  // ---------------------------------------------------------------------------------------------
  // The window opens again and the next segment leaves the queue
  // ---------------------------------------------------------------------------------------------

  /** An event that transmits nothing leaves everything recoverable. */
  lemma StillRecoverable(t: Sender, t': Sender, r: Receiver, data: set<Packet>)
    requires Recoverable(t, r, data) && Transmitted(t') == Transmitted(t) && t'.txLog == t.txLog
    ensures Recoverable(t', r, data + {})
  {
    assert data + {} == data;
    assert forall k: nat :: Repeatable(t, k) ==> Repeatable(t', k);
  }

  lemma DropEffect(t: Sender, p: Packet, inbox: set<Packet>)
    requires SenderOk(t) && p in inbox && p.AckPacket? && t.acked < p.unAck <= Transmitted(t)
    ensures var ev := DropAcked(t.acked, p);
      && TxEnabled(t, ev, inbox) && Emits(t, ev) == {}
      && TxApply(t, ev, inbox) == t.(sendBuf := t.sendBuf - {t.acked}, acked := t.acked + 1)
  {
    assert IsMin(t.sendBuf, t.acked);
  }

  /** The acknowledgement of B's position empties sendBuf up to it, one segment at a time. */
  lemma {:induction false} DropUpTo(s0: System, s: System, p: Packet, k: nat) returns (s': System)
    requires OnTheWay(s0, s) && p in s.toA && p.AckPacket? && p.unAck == s.b.rx.nextRecv && s.a.tx.acked <= k <= p.unAck
    ensures OnTheWay(s0, s') && s'.b == s.b && s'.toA == s.toA && s'.toB == s.toB
    ensures s'.a.tx.acked == k && SameNumbering(s.a.tx, s'.a.tx)
    ensures s'.a.tx.remoteWindow == s.a.tx.remoteWindow && s'.a.tx.txLog == s.a.tx.txLog
    decreases k - s.a.tx.acked
  {
    hide Reaches, SenderOk, ReceiverOk, Recoverable, TxEnabled, TxApply, Emits;
    var t := s.a.tx;
    if t.acked == k {
      s' := s;
    } else {
      DropEffect(t, p, s.toA);
      StillRecoverable(t, TxApply(t, DropAcked(t.acked, p), s.toA), s.b.rx, s.toB);
      assert s.toB + {} == s.toB;
      var s1 := TxStep(s0, s, DropAcked(t.acked, p));
      s' := DropUpTo(s0, s1, p, k);
    }
  }

  /** At rest and up to date, with everything in order, recvBuf is empty, so the window is open. */
  lemma WindowOpen(s: System)
    requires Inv(s) && UpToDate(s.b.rx) && s.b.rx.nextRecv == Transmitted(s.a.tx)
    ensures ReceiveWindow(s.b) > 0
  {
    assert forall k :: k in s.b.rx.recvBuf ==> Authentic(s.b.rx.recvBuf[k], s.a.tx);
    assert s.b.rx.recvBuf == map[];
  }

  /** B acknowledges everything, and A stores the window if that is open. */
  lemma StoreEffect(t: Sender, p: Packet, inbox: set<Packet>)
    requires HasUnAck(p)
    ensures TxEnabled(t, StoreWindow(p), inbox) && Emits(t, StoreWindow(p)) == {}
    ensures TxApply(t, StoreWindow(p), inbox) == t.(remoteWindow := p.window)
  {
  }

  lemma Acknowledge(s0: System, s: System) returns (s': System)
    requires OnTheWay(s0, s) && s.b.rx.nextRecv == Transmitted(s.a.tx)
    ensures OnTheWay(s0, s') && s'.b == s.b && s'.a.tx.acked == Transmitted(s'.a.tx)
    ensures ReceiveWindow(s.b) > 0 || s.a.tx.remoteWindow > 0 ==> s'.a.tx.remoteWindow > 0
    ensures s'.a.tx.dequeued == s.a.tx.dequeued && s'.a.tx.inHand == s.a.tx.inHand
  {
    hide Reaches, SenderOk, ReceiverOk, Recoverable, TxEnabled, TxApply, Emits;
    var s1, p := AckStep(s0, s);
    var s2 := DropUpTo(s0, s1, p, p.unAck);
    assert Transmitted(s2.a.tx) == Transmitted(s.a.tx);
    if ReceiveWindow(s.b) > 0 {
      StoreEffect(s2.a.tx, p, s2.toA);
      StillRecoverable(s2.a.tx, TxApply(s2.a.tx, StoreWindow(p), s2.toA), s2.b.rx, s2.toB);
      assert s2.toB + {} == s2.toB;
      s' := TxStep(s0, s2, StoreWindow(p));
    } else {
      s' := s2;
    }
  }

  /** Unless the two have starved, A can be made ready to send more. */
  lemma OpenWindow(s0: System, s: System) returns (s': System)
    requires OnTheWay(s0, s) && s.b.rx.phase.Idle? && s.b.rx.nextRecv == Transmitted(s.a.tx) && CanGoOn(s)
    ensures OnTheWay(s0, s') && s'.a.tx.acked == Transmitted(s'.a.tx) && s'.a.tx.remoteWindow > 0
    ensures s'.a.tx.dequeued == s.a.tx.dequeued && s'.a.tx.inHand == s.a.tx.inHand
    ensures UpToDate(s.b.rx) ==> UpToDate(s'.b.rx)
  {
    var s1 := s;
    if ReceiveWindow(s.b) == 0 && s.a.tx.remoteWindow == 0 && !UpToDate(s.b.rx) {
      s1 := WakeSomehow(s0, s);
    }
    if UpToDate(s1.b.rx) {
      WindowOpen(s1);
    }
    hide Reaches, Inv, Recoverable;
    s' := Acknowledge(s0, s1);
  }

  lemma RepeatAndWake(s0: System, s: System, k: nat) returns (s': System)
    requires OnTheWay(s0, s) && s.b.rx.phase.Idle? && s.b.rx.nextRecv == Transmitted(s.a.tx)
    requires s.a.tx.acked <= k < Transmitted(s.a.tx) && Repeatable(s.a.tx, k)
    ensures OnTheWay(s0, s') && UpToDate(s'.b.rx) && s'.b.rx.nextRecv >= Transmitted(s'.a.tx)
    ensures s'.a.tx.dequeued == s.a.tx.dequeued && s'.a.tx.inHand == s.a.tx.inHand
  {
    hide Reaches, Recoverable, Inv, UpToDate;
    var s1 := AcknowledgeUpTo(s0, s, k);
    assert Repeatable(s1.a.tx, k);
    hide Repeatable;
    var s2 := Repeat(s0, s1, k);
    s' := Wake(s0, s2, k);
  }

  lemma WakeSomehow(s0: System, s: System) returns (s': System)
    requires OnTheWay(s0, s) && s.b.rx.phase.Idle? && s.b.rx.nextRecv == Transmitted(s.a.tx)
    requires (exists k :: Carries(s.toB, k)) || CanRepeat(s.a.tx)
    ensures OnTheWay(s0, s') && UpToDate(s'.b.rx) && s'.b.rx.nextRecv == Transmitted(s'.a.tx)
    ensures s'.a.tx.dequeued == s.a.tx.dequeued && s'.a.tx.inHand == s.a.tx.inHand
  {
    hide Reaches, Recoverable, Carries, Repeatable, UpToDate;
    if k: nat :| Carries(s.toB, k) {
      s' := Wake(s0, s, k);
    } else {
      var k :| k in s.a.tx.sendBuf && Repeatable(s.a.tx, k);
      s' := RepeatAndWake(s0, s, k);
    }
    Positions(s');
  }

  lemma DequeueEffect(t: Sender, inbox: set<Packet>)
    requires SenderOk(t) && t.inHand.EmptyHand? && t.dequeued < |t.log|
    requires t.acked == Transmitted(t) && t.remoteWindow > 0
    ensures var ev := Dequeue(t.dequeued, t.congestionWindow);
      && TxEnabled(t, ev, inbox) && Emits(t, ev) == {}
      && var t' := TxApply(t, ev, inbox);
         && SameWriter(t, t') && t'.txLog == t.txLog && Transmitted(t') == Transmitted(t)
         && t'.inHand.Holding? && t'.dequeued == t.dequeued + 1
  {
    assert IsMin(t.sendQueue, t.dequeued);
    assert t.sendBuf == map[];
  }

  lemma TakeNext(s0: System, s: System) returns (s': System)
    requires OnTheWay(s0, s) && s.b.rx.phase.Idle? && s.b.rx.nextRecv == Transmitted(s.a.tx)
    requires CanGoOn(s)
    requires s.a.tx.inHand.EmptyHand? && s.a.tx.dequeued < |s.a.tx.log|
    ensures OnTheWay(s0, s') && s'.a.tx.inHand.Holding? && s'.a.tx.dequeued == s.a.tx.dequeued + 1
    ensures UpToDate(s.b.rx) ==> UpToDate(s'.b.rx)
  {
    hide Reaches, SenderOk, ReceiverOk, Recoverable, TxEnabled, TxApply, Emits;
    var s1 := OpenWindow(s0, s);
    var t := s1.a.tx;
    DequeueEffect(t, s1.toA);
    StillRecoverable(t, TxApply(t, Dequeue(t.dequeued, t.congestionWindow), s1.toA), s1.b.rx, s1.toB);
    s' := TxStep(s0, s1, Dequeue(t.dequeued, t.congestionWindow));
  }

  lemma TransmitEffect(t: Sender, r: Receiver, data: set<Packet>, unAck: nat, inbox: set<Packet>)
    requires SenderOk(t) && Recoverable(t, r, data) && t.inHand.Holding?
    ensures var ev := Transmit(unAck);
      && TxEnabled(t, ev, inbox)
      && var t' := TxApply(t, ev, inbox);
         SameWriter(t, t') && t'.inHand.EmptyHand? && t'.dequeued == t.dequeued
         && Recoverable(t', r, data + Emits(t, ev))
  {
    var more := Emits(t, Transmit(unAck));
    forall j: nat | Carries(data, j) ensures Carries(data + more, j) {
      var q :| q in data && HasSegment(q) && q.sn == j;
      assert q in data + more;
    }
    var t' := TxApply(t, Transmit(unAck), inbox);
    assert forall j: nat :: Repeatable(t, j) ==> Repeatable(t', j);
  }

  lemma TransmitHand(s0: System, s: System) returns (s': System)
    requires OnTheWay(s0, s) && s.a.tx.inHand.Holding?
    ensures OnTheWay(s0, s') && s'.a.tx.inHand.EmptyHand? && s'.a.tx.dequeued == s.a.tx.dequeued && s'.b == s.b
  {
    hide Reaches, SenderOk, ReceiverOk, Recoverable, TxEnabled, TxApply, Emits;
    TransmitEffect(s.a.tx, s.b.rx, s.toB, s.a.rx.nextRecv, s.toA);
    s' := TxStep(s0, s, Transmit(s.a.rx.nextRecv));
  }

  // ---------------------------------------------------------------------------------------------
  // Everything arrives
  // ---------------------------------------------------------------------------------------------

  lemma Positions(s: System)
    requires Inv(s)
    ensures InOrder(s.b.rx) <= Transmitted(s.a.tx) && s.a.tx.dequeued <= |s.a.tx.log|
  {
  }

  lemma {:induction false} DeliverAll(s0: System, s: System) returns (s': System)
    requires OnTheWay(s0, s) && !Starved(s)
    ensures OnTheWay(s0, s') && s'.b.rx.nextRecv == |s'.a.tx.log| && s'.b.rx.phase.Idle?
    ensures (s.b.rx.phase.Idle? ==> UpToDate(s.b.rx)) ==> UpToDate(s'.b.rx)
    decreases |s.a.tx.log| - s.a.tx.dequeued, if s.a.tx.inHand.Holding? then 1 else 0
  {
    hide Reaches, Recoverable, UpToDate, CanRepeat, Carries, Inv, ReceiveWindow;
    Positions(s);
    if s.a.tx.inHand.Holding? {
      var s1 := TransmitHand(s0, s);
      Positions(s1);
      s' := DeliverAll(s0, s1);
    } else {
      var s1 := RecoverAll(s0, s);
      Positions(s1);
      if s1.a.tx.dequeued == |s1.a.tx.log| {
        s' := s1;
      } else {
        var s2 := TakeNext(s0, s1);
        Positions(s2);
        s' := DeliverAll(s0, s2);
      }
    }
  }

  lemma AllRead(s: System)
    requires Inv(s) && s.b.rx.popped == |s.a.tx.log| && s.b.rx.unread == []
    ensures s.b.rx.read == Payloads(s.a.tx.log)
  {
    hide SenderOk, ReceiverOk, Payloads;
    assert s.a.tx.log[..s.b.rx.popped] == s.a.tx.log;
  }

  /** From every state that satisfies the invariant, in which what is missing is recoverable and B is
      neither trapped nor starved, some prompt run delivers to B's application every byte that A's
      application has queued. */
  lemma EverythingCanArrive(s: System) returns (acts: seq<Action>)
    requires Inv(s) && Recoverable(s.a.tx, s.b.rx, s.toB) && !Trapped(s.b.rx) && !Starved(s)
    ensures PromptRun(s, acts)
    ensures Execute(s, acts).b.rx.read == Payloads(s.a.tx.log)
  {
    hide Prompt, CanExecute, Execute, Inv, Recoverable, Payloads, Starved;
    ReachesSelf(s);
    var s1 := DeliverAll(s, s);
    var s2 := ReadEverything(s, s1);
    AllRead(s2);
    acts :| PromptRun(s, acts) && Execute(s, acts) == s2;
  }

  /** The network loses everything. */
  function AllLost(s: System): System {
    s.(toB := {}, toA := {})
  }

  lemma LossKeepsInv(s: System)
    requires Inv(s)
    ensures Inv(AllLost(s))
  {
  }

  /** No interleaving of the two sessions, started afresh, leads them into a state where they wait for
      each other, even if the network then loses every packet: the only ways to get stuck are a
      segment that the receiver does not have when the sender has transmitted it, or one after it,
      twenty times, and a receiver that stopped on a full recvQueue and was then trapped or starved. */
  lemma NoRunEndsInDeadlock(acts: seq<Action>) returns (more: seq<Action>)
    requires CanExecute(Initial(), acts)
    requires var s := Execute(Initial(), acts);
      Recoverable(s.a.tx, s.b.rx, {}) && !Trapped(s.b.rx) && !Starved(AllLost(s))
    ensures var s := Execute(Initial(), acts);
      PromptRun(AllLost(s), more) && Execute(AllLost(s), more).b.rx.read == Payloads(s.a.tx.log)
  {
    hide CanExecute, Execute, PromptRun, Inv, Recoverable;
    ReachableInv(acts);
    var s := Execute(Initial(), acts);
    LossKeepsInv(s);
    more := EverythingCanArrive(AllLost(s));
  }

  /** A receiver that is up to date is neither, so in a run in which recvQueue never filled up only the
      transmission limit can keep the stream from being delivered. */
  lemma UpToDateIsFree(s: System)
    requires Inv(s) && (s.b.rx.phase.Idle? ==> UpToDate(s.b.rx))
    ensures !Trapped(s.b.rx) && !Starved(s)
  {
    AgreeBounds(s.a.tx, s.b.rx, s.toB, s.toA);
  }

  // ---------------------------------------------------------------------------------------------
  // The trap
  // ---------------------------------------------------------------------------------------------

  lemma StepInTrap(s: System, act: Action)
    requires Trapped(s.b.rx) && CanStep(s, act)
    ensures var r, r' := s.b.rx, Step(s, act).b.rx;
      r'.recvBuf == r.recvBuf && r'.nextRecv == r.nextRecv && r'.phase == r.phase
  {
    hide TxEnabled, TxApply, Emits, IsMin;
  }

  /** The trap has no way out: whatever both sides do, and even when the application reads recvQueue
      empty, the receiver accepts nothing any more. */
  lemma {:induction false} TrapIsForever(s: System, acts: seq<Action>)
    requires Trapped(s.b.rx) && CanExecute(s, acts)
    ensures var r, r' := s.b.rx, Execute(s, acts).b.rx;
      r'.recvBuf == r.recvBuf && r'.nextRecv == r.nextRecv && r'.phase == r.phase
    decreases |acts|
  {
    if acts != [] {
      var init := acts[..|acts| - 1];
      TrapIsForever(s, init);
      hide CanStep, Step;
      StepInTrap(Execute(s, init), acts[|acts| - 1]);
    }
  }

  lemma EventKeepsLog(t: Sender, ev: TxEvent, inbox: set<Packet>)
    requires TxEnabled(t, ev, inbox)
    ensures t.log <= TxApply(t, ev, inbox).log
  {
  }

  lemma StepKeepsLog(s: System, act: Action)
    requires CanStep(s, act)
    ensures s.a.tx.log <= Step(s, act).a.tx.log
  {
    hide RxEnabled, RxApply, TxEnabled, TxApply, Emits;
    if act.atA && act.event.Tx? {
      EventKeepsLog(s.a.tx, act.event.tx, s.toA);
    }
  }

  lemma {:induction false} RunKeepsLog(s: System, acts: seq<Action>)
    requires CanExecute(s, acts)
    ensures s.a.tx.log <= Execute(s, acts).a.tx.log
    decreases |acts|
  {
    if acts != [] {
      var init := acts[..|acts| - 1];
      RunKeepsLog(s, init);
      hide CanStep, Step;
      StepKeepsLog(Execute(s, init), acts[|acts| - 1]);
    }
  }

  /** So the application never gets more than what was in order when the trap closed. */
  lemma NothingPassesTheTrap(s: System, acts: seq<Action>)
    requires Inv(s) && Trapped(s.b.rx) && CanExecute(s, acts)
    ensures Received(Execute(s, acts).b.rx) == Received(s.b.rx)
  {
    hide Execute, CanExecute, SenderOk, ReceiverOk, Agree, Received, Payloads;
    var s' := Execute(s, acts);
    TrapIsForever(s, acts);
    RunKeepsLog(s, acts);
    RunKeepsInv(s, acts);
    AgreeDelivers(s.a.tx, s.b.rx, s.toB, s.toA);
    AgreeDelivers(s'.a.tx, s'.b.rx, s'.toB, s'.toA);
    assert s'.a.tx.log[..s.b.rx.nextRecv] == s.a.tx.log[..s.b.rx.nextRecv];
  }

  // ---------------------------------------------------------------------------------------------
  // Starvation
  // ---------------------------------------------------------------------------------------------

  /** The packet tells of no open window. */
  predicate NoWindow(p: Packet) {
    HasUnAck(p) ==> p.window == 0
  }

  predicate TellsNoWindow(segment: Segment) {
    segment.isOpen || segment.window == 0
  }

  /** Nothing that the sender still has to send tells of an open window. */
  ghost predicate NoWindowToSend(t: Sender) {
    && (t.inHand.Holding? ==> TellsNoWindow(t.inHand.segment))
    && (forall k :: k in t.sendBuf ==> TellsNoWindow(t.sendBuf[k].segment))
    && (forall k :: k in t.sendQueue ==> TellsNoWindow(t.sendQueue[k]))
  }

  /** Nothing that the receiver holds tells of an open window. */
  ghost predicate NoWindowHeld(r: Receiver) {
    && (forall k :: k in r.recvBuf ==> NoWindow(r.recvBuf[k]))
    && (r.phase.Taken? ==> NoWindow(r.phase.packet)) && (r.latest.Some? ==> NoWindow(r.latest.value))
  }

  /** The last segment in sendBuf, number `last`, has reached the limit. */
  ghost predicate LastAtLimit(t: Sender, last: nat) {
    || t.sendBuf == map[]
    || (last in t.sendBuf && t.sendBuf[last].txCount >= TX_COUNT_LIMIT && forall k :: k in t.sendBuf ==> k <= last)
  }

  /** The sender has nothing that it may send now. */
  ghost predicate Mute(t: Sender, last: nat) {
    t.inHand.EmptyHand? && t.remoteWindow == 0 && LastAtLimit(t, last)
  }

  /** A has nothing that it may send, and will not be told of an open window. */
  ghost predicate Silent(s: System, last: nat) {
    && s.b.rx.phase.Idle? && ReceiveWindow(s.b) == 0
    && Mute(s.a.tx, last) && NoWindowToSend(s.b.tx) && NoWindowHeld(s.a.rx)
    && (forall p :: p in s.toB ==> p.AckPacket?)
    && (forall p :: p in s.toA ==> NoWindow(p))
  }

  lemma MuteStays(e: Endpoint, ev: TxEvent, inbox: set<Packet>, last: nat)
    requires Mute(e.tx, last) && TxEnabled(e.tx, ev, inbox)
    requires ev.SendAck? || ev.DropAcked? || ev.StoreWindow? || ev.CountAck?
    requires ev.StoreWindow? ==> NoWindow(ev.packet)
    ensures Mute(TxApply(e.tx, ev, inbox), last) && forall p :: p in Emits(e.tx, ev) ==> p.AckPacket?
  {
    if ev.DropAcked? && ev.sn == last {
      assert e.tx.sendBuf - {last} == map[];
    }
  }

  lemma SilentTxAtA(s: System, ev: TxEvent, last: nat)
    requires Silent(s, last) && Enabled(s.a, Tx(ev), s.toA) && Prompt(s, Action(true, Tx(ev)))
    ensures Silent(StepA(s, Tx(ev)), last) && StepA(s, Tx(ev)).b == s.b
  {
    OnlyMuteEvents(s, ev, last);
    MuteStays(s.a, ev, s.toA, last);
    hide Mute, NoWindowToSend, NoWindowHeld, TxEnabled, TxApply, Emits, Prompt;
  }

  lemma OnlyMuteEvents(s: System, ev: TxEvent, last: nat)
    requires Silent(s, last) && Enabled(s.a, Tx(ev), s.toA) && Prompt(s, Action(true, Tx(ev)))
    ensures ev.SendAck? || ev.DropAcked? || ev.StoreWindow? || ev.CountAck?
    ensures ev.StoreWindow? ==> NoWindow(ev.packet)
  {
  }

  lemma HoldingNoWindow(r: Receiver, ev: RxEvent, inbox: set<Packet>)
    requires NoWindowHeld(r) && RxEnabled(r, ev, inbox) && forall p :: p in inbox ==> NoWindow(p)
    ensures NoWindowHeld(RxApply(r, ev, inbox))
  {
  }

  lemma SilentRxAtA(s: System, ev: RxEvent, last: nat)
    requires Silent(s, last) && Enabled(s.a, Rx(ev), s.toA)
    ensures Silent(StepA(s, Rx(ev)), last) && StepA(s, Rx(ev)).b == s.b
  {
    HoldingNoWindow(s.a.rx, ev, s.toA);
    hide Mute, NoWindowToSend, NoWindowHeld, RxEnabled, RxApply;
    assert s.toB + {} == s.toB;
  }

  lemma SendingNoWindow(e: Endpoint, ev: TxEvent, inbox: set<Packet>)
    requires NoWindowToSend(e.tx) && TxEnabled(e.tx, ev, inbox) && (ev.SendAck? ==> ev.window == 0)
    requires !ev.QueueOpenRequest? && !ev.QueueOpenResponse? && !ev.QueueFragment? && !ev.SetCongestionWindow?
    ensures var t := TxApply(e.tx, ev, inbox); NoWindowToSend(t) && t.congestionWindow == e.tx.congestionWindow
    ensures forall p :: p in Emits(e.tx, ev) ==> NoWindow(p)
  {
  }

  lemma SilentTxAtB(s: System, ev: TxEvent, last: nat)
    requires Silent(s, last) && Enabled(s.b, Tx(ev), s.toB) && Prompt(s, Action(false, Tx(ev)))
    ensures var s' := Step(s, Action(false, Tx(ev)));
      Silent(s', last) && s'.b.rx == s.b.rx
  {
    SendingNoWindow(s.b, ev, s.toB);
    hide Mute, NoWindowToSend, NoWindowHeld, NoWindow, TxEnabled, TxApply, Emits, Prompt;
  }

  lemma SilentRxAtB(s: System, ev: RxEvent, last: nat)
    requires Silent(s, last) && Enabled(s.b, Rx(ev), s.toB)
    ensures var s' := Step(s, Action(false, Rx(ev)));
      Silent(s', last) && s'.b.rx.recvBuf == s.b.rx.recvBuf && s'.b.rx.nextRecv == s.b.rx.nextRecv
  {
    hide Mute, NoWindowToSend, NoWindowHeld, NoWindow, IsMin;
    assert s.toA + {} == s.toA;
  }

  lemma {:induction false} SilenceIsForever(s: System, acts: seq<Action>, last: nat)
    requires Silent(s, last) && PromptRun(s, acts)
    ensures var s' := Execute(s, acts);
      Silent(s', last) && s'.b.rx.recvBuf == s.b.rx.recvBuf && s'.b.rx.nextRecv == s.b.rx.nextRecv
    decreases |acts|
  {
    if acts != [] {
      var init, act := acts[..|acts| - 1], acts[|acts| - 1];
      SilenceIsForever(s, init, last);
      var s1 := Execute(s, init);
      hide Silent, Enabled, Apply, Sends, Prompt;
      match act.event
      case Tx(ev) =>
        if act.atA { SilentTxAtA(s1, ev, last); } else { SilentTxAtB(s1, ev, last); }
      case Rx(ev) =>
        if act.atA { SilentRxAtA(s1, ev, last); } else { SilentRxAtB(s1, ev, last); }
    }
  }

  /** Starvation has no way out as long as nothing that B has to send, or A holds, tells of an open window:
      no prompt run from a state in which A has starved and the network has lost everything puts another
      segment in order. */
  lemma StarvedIsForever(s: System, acts: seq<Action>)
    requires Inv(s) && Starved(AllLost(s)) && NoWindowToSend(s.b.tx) && NoWindowHeld(s.a.rx)
    requires PromptRun(AllLost(s), acts)
    ensures Execute(AllLost(s), acts).b.rx.nextRecv == s.b.rx.nextRecv < |s.a.tx.log|
  {
    hide Execute, PromptRun, NoWindowToSend, NoWindowHeld, SenderOk, ReceiverOk, Agree;
    var last := StarvedIsMute(s.a.tx);
    Positions(s);
    SilenceIsForever(AllLost(s), acts, last);
  }

  lemma StarvedIsMute(t: Sender) returns (last: nat)
    requires SenderOk(t) && !CanRepeat(t)
    ensures LastAtLimit(t, last)
  {
    hide Repeatable, SenderRoom, SenderContents;
    if t.acked == Transmitted(t) {
      hide CanRepeat;
      assert forall k :: k !in t.sendBuf;
      last := 0;
    } else {
      last := Transmitted(t) - 1;
      assert last in t.sendBuf && !Repeatable(t, last);
      hide CanRepeat;
      LastIsAtLimit(t, last);
    }
  }

  lemma LastIsAtLimit(t: Sender, last: nat)
    requires last == Transmitted(t) - 1 < |t.txLog| && !Repeatable(t, last)
    ensures t.txLog[last] >= TX_COUNT_LIMIT
  {
  }
}
