/** The trap of a full recvQueue can be reached: an application that does not read lets recvQueue fill up,
    and then old packets that arrive once more fill recvBuf. */
module TrapRun {
  import opened Bytes
  import opened Arq
  import opened ArqSafety
  import opened ArqProgress
  import opened Handshake
  import opened HonestRuns
  import opened Writing

  const PILE: nat := TREE_CAPACITY - 1

  // ---------------------------------------------------------------------------------------------
  // recvQueue fills up, one segment at a time
  // ---------------------------------------------------------------------------------------------

  /** As many segments are in order at B as A has queued, and B has answered the open request. */
  ghost predicate Filled(s: System, n: nat) {
    At(s, n, n, n, n) && Answered(s)
  }

  lemma QueueIsEmpty(t: Sender, n: nat)
    requires SenderOk(t) && SenderAt(t, n, n, n)
    ensures t.sendQueue == map[]
  {
    assert forall k :: k !in t.sendQueue;
  }

  lemma LoadOne(s0: System, s: System, n: nat) returns (s': System)
    requires Leads(s0, s) && At(s, n, n, n, n) && n > 0
    ensures Leads(s0, s') && At(s', n + 1, n, n, n) && s'.a.rx == s.a.rx && s'.b == s.b
  {
    hide Leads, AllCarried, LatestCarried, SenderOk, ReceiverOk, Agree;
    QueueIsEmpty(s.a.tx, n);
    CanReserve(s, 1);
    hide Inv;
    var s1 := WriterStep(s0, s, Reserve(1));
    s' := WriterStep(s0, s1, QueueFragment([0], ReceiveWindow(s1.a), 0));
  }

  lemma {:induction false} FillQueue(s0: System, s: System, n: nat) returns (s': System)
    requires Leads(s0, s) && Filled(s, n) && 0 < n <= FULL
    ensures Leads(s0, s') && Filled(s', FULL)
    decreases FULL - n
  {
    hide Leads, Reaches, At, Answered;
    if n == FULL {
      s' := s;
    } else {
      var s1 := LoadOne(s0, s, n);
      var s2 := Round(s1, n);
      ReachesLeads(s1, s2);
      LeadsOn(s0, s1, s2);
      StillAnswered(s, s2);
      s' := FillQueue(s0, s2, n + 1);
    }
  }

  lemma StillAnswered(s: System, s': System)
    requires Answered(s) && s'.a.rx == s.a.rx && s'.b.tx == s.b.tx
    ensures Answered(s')
  {
  }

  // ---------------------------------------------------------------------------------------------
  // recvBuf fills up
  // ---------------------------------------------------------------------------------------------

  /** B is at rest with a full recvQueue, and the first `m` packets have arrived a second time. */
  ghost predicate Piled(s: System, m: nat) {
    && Inv(s) && s.b.rx.phase.Idle? && RECV_QUEUE_CAPACITY - |s.b.rx.recvQueue| <= 1
    && HoldsRange(s.b.rx.recvBuf, 0, m) && AllCarried(s.toB, PILE)
  }

  lemma PileSteps(r: Receiver, p: Packet, m: nat, data: set<Packet>)
    requires r.phase.Idle? && RECV_QUEUE_CAPACITY - |r.recvQueue| <= 1 && HoldsRange(r.recvBuf, 0, m) && m < PILE
    requires p in data && HasSegment(p) && p.sn == m
    ensures RxEnabled(r, Arrive(p), data)
    ensures var r1 := RxApply(r, Arrive(p), data);
      && RxEnabled(r1, StopMoving, data)
      && RxApply(r1, StopMoving, data) == r.(recvBuf := r.recvBuf[m := p])
  {
    HeldRangeSize(r.recvBuf, 0, m);
  }

  /** Only recvBuf has changed. */
  ghost predicate OnlyPiled(s: System, s': System) {
    s' == s.(b := s.b.(rx := s.b.rx.(recvBuf := s'.b.rx.recvBuf)))
  }

  lemma PileOne(s0: System, s: System, m: nat) returns (s': System)
    requires Reaches(s0, s) && Piled(s, m) && m < PILE
    ensures Reaches(s0, s') && Piled(s', m + 1) && OnlyPiled(s, s')
  {
    assert Carries(s.toB, m);
    hide Reaches, Inv, AllCarried, RxEnabled, RxApply;
    var p :| p in s.toB && HasSegment(p) && p.sn == m;
    AddNext(s.b.rx.recvBuf, 0, m, p);
    PileSteps(s.b.rx, p, m, s.toB);
    var s1 := PromptRx(s0, s, Arrive(p));
    s' := PromptRx(s0, s1, StopMoving);
  }

  lemma {:induction false} PileUp(s0: System, s: System, m: nat, goal: nat) returns (s': System)
    requires Reaches(s0, s) && Piled(s, m) && m <= goal <= PILE
    ensures Reaches(s0, s') && Piled(s', goal) && OnlyPiled(s, s')
    decreases goal - m
  {
    hide Reaches, Piled;
    if m == goal {
      s' := s;
    } else {
      var s1 := PileOne(s0, s, m);
      s' := PileUp(s0, s1, m + 1, goal);
    }
  }

  lemma FullIsPiled(s: System)
    requires Filled(s, FULL)
    ensures Piled(s, 0)
  {
    HeldRangeSize(s.b.rx.recvQueue, 0, FULL);
  }

  lemma FullIsReachable() returns (s: System)
    ensures Leads(Initial(), s) && Filled(s, FULL) && Piled(s, 0)
  {
    hide Leads, Inv;
    var s1 := Open([]);
    s := FillQueue(Initial(), s1, 1);
    FullIsPiled(s);
  }

  /** Two fresh sessions can get into the trap by an honest run. */
  lemma TrapIsReachable() returns (acts: seq<Action>)
    ensures HonestRun(Initial(), acts) && Trapped(Execute(Initial(), acts).b.rx)
  {
    hide CanExecute, Execute, Honest, Inv, AllCarried, At, Reaches;
    var s1 := FullIsReachable();
    ReachesSelf(s1);
    var s2 := PileUp(s1, s1, 0, PILE);
    ReachesLeads(s1, s2);
    LeadsOn(Initial(), s1, s2);
    HeldRangeSize(s2.b.rx.recvBuf, 0, PILE);
    acts :| HonestRun(Initial(), acts) && Execute(Initial(), acts) == s2;
  }

  // ---------------------------------------------------------------------------------------------
  // Both windows close
  // ---------------------------------------------------------------------------------------------

  /** Everything is in order and acknowledged, and no window is open. */
  ghost predicate Closed(s: System) {
    && Inv(s) && SenderAt(s.a.tx.(remoteWindow := MIN_WINDOW), FULL, FULL, FULL) && s.a.tx.remoteWindow == 0
    && s.b.rx.phase.Idle? && s.b.rx.nextRecv == FULL && 0 in s.b.rx.recvBuf
    && ReceiveWindow(s.b) == 0 && Answered(s)
  }

  lemma WindowGone(s: System, s1: System)
    requires Filled(s, FULL) && OnlyPiled(s, s1) && Piled(s1, MIN_WINDOW)
    ensures ReceiveWindow(s1.b) == 0 && 0 in s1.b.rx.recvBuf
  {
    hide Inv, AllCarried;
    HeldRangeSize(s1.b.rx.recvBuf, 0, MIN_WINDOW);
  }

  lemma CloseWindows(s: System) returns (s': System)
    requires Filled(s, FULL) && Piled(s, 0)
    ensures Reaches(s, s') && Closed(s')
  {
    ReachesSelf(s);
    hide Reaches, AllCarried, LatestCarried, Inv, ReceiveWindow, TxEnabled, TxApply, Emits, NoWindowHeld;
    var s1 := PileUp(s, s, 0, MIN_WINDOW);
    WindowGone(s, s1);
    var s2, p := PromptAck(s, s1);
    StoreEffect(s2.a.tx, p, s2.toA);
    s' := PromptTx(s, s2, StoreWindow(p));
  }

  lemma NothingInFlight(t: Sender)
    requires SenderOk(t) && t.inHand.EmptyHand? && t.acked == t.dequeued
    ensures t.sendBuf == map[] && (t.dequeued == |t.log| ==> t.sendQueue == map[])
  {
    assert forall k :: k !in t.sendBuf;
    if t.dequeued == |t.log| {
      assert forall k :: k !in t.sendQueue;
    }
  }

  lemma CanQueue(s: System)
    requires s.a.tx.reserved > 0
    ensures Enabled(s.a, Tx(QueueFragment([0], ReceiveWindow(s.a), 0)), s.toA)
  {
  }

  lemma IsStarved(s: System)
    requires s.b.rx.phase.Idle? && 0 in s.b.rx.recvBuf && s.b.rx.nextRecv == Transmitted(s.a.tx) > 0
    requires s.a.tx.inHand.EmptyHand? && s.a.tx.dequeued < |s.a.tx.log| && s.a.tx.sendBuf == map[]
    requires ReceiveWindow(s.b) == 0 && s.a.tx.remoteWindow == 0
    ensures Starved(AllLost(s))
  {
    assert !UpToDate(s.b.rx);
  }

  lemma Starve(s0: System, s: System) returns (s': System)
    requires Leads(s0, s) && Closed(s)
    ensures Leads(s0, s') && Inv(s') && Starved(AllLost(s')) && NoWindowToSend(s'.b.tx) && NoWindowHeld(s'.a.rx)
  {
    hide Leads, SenderOk, ReceiverOk, Agree, Enabled, NoWindowHeld, Starved;
    NothingInFlight(s.a.tx);
    NothingInFlight(s.b.tx);
    CanReserve(s, 1);
    var s1 := WriterStep(s0, s, Reserve(1));
    CanQueue(s1);
    s' := WriterStep(s0, s1, QueueFragment([0], ReceiveWindow(s1.a), 0));
    NothingInFlight(s'.a.tx);
    IsStarved(s');
  }

  /** Two fresh sessions can starve: sixteen old packets close the window of the receiver, its
      acknowledgement closes the sender's, and the next segment waits for both.  B has nothing to send, so
      `StarvedIsForever` applies once the network has lost what it carries. */
  lemma StarvationIsReachable() returns (acts: seq<Action>)
    ensures HonestRun(Initial(), acts)
    ensures var s := Execute(Initial(), acts);
      Inv(s) && Starved(AllLost(s)) && NoWindowToSend(s.b.tx) && NoWindowHeld(s.a.rx)
  {
    hide CanExecute, Execute, Honest, Inv, AllCarried, Filled, Piled, Closed, Starved, NoWindowToSend, NoWindowHeld;
    hide Reaches;
    var s1 := FullIsReachable();
    var s2 := CloseWindows(s1);
    ReachesLeads(s1, s2);
    LeadsOn(Initial(), s1, s2);
    var s := Starve(Initial(), s2);
    acts :| HonestRun(Initial(), acts) && Execute(Initial(), acts) == s;
  }
}
