/** How starvation ends, and when it does not: a window that stays closed for acknowledgements opens when
    data that flows the other way tells of an open one. */
module Relief {
  import opened Bytes
  import opened Arq
  import opened ArqSafety
  import opened ArqProgress
  import opened Mirror

  // ---------------------------------------------------------------------------------------------
  // What a receiver gets comes from the network
  // ---------------------------------------------------------------------------------------------

  /** The receiver has the segment: it is in order, or it is held. */
  predicate Has(r: Receiver, k: nat) {
    k < InOrder(r) || Held(r, k)
  }

  ghost predicate FromNetwork(r0: Receiver, r: Receiver, data: set<Packet>) {
    forall k: nat :: Has(r, k) ==> Has(r0, k) || Carries(data, k)
  }

  lemma RxFromNetwork(r0: Receiver, r: Receiver, ev: RxEvent, data: set<Packet>)
    requires FromNetwork(r0, r, data) && RxEnabled(r, ev, data)
    ensures FromNetwork(r0, RxApply(r, ev, data), data)
  {
    var r' := RxApply(r, ev, data);
    forall k: nat | Has(r', k) ensures Has(r, k) || Carries(data, k) {
      if ev.Arrive? && k == ev.packet.sn {
        assert Carries(data, k);
      }
    }
  }

  lemma MoreFromNetwork(r0: Receiver, r: Receiver, data: set<Packet>, more: set<Packet>)
    requires FromNetwork(r0, r, data)
    ensures FromNetwork(r0, r, data + more)
  {
    forall k: nat | Carries(data, k) ensures Carries(data + more, k) {
      var p :| p in data && HasSegment(p) && p.sn == k;
      assert p in data + more;
    }
  }

  lemma StepFromNetwork(r0: Receiver, s: System, act: Action)
    requires FromNetwork(r0, s.b.rx, s.toB) && CanStep(s, act)
    ensures FromNetwork(r0, Step(s, act).b.rx, Step(s, act).toB)
  {
    hide FromNetwork, TxEnabled, TxApply, RxEnabled, RxApply, Emits;
    if act.atA {
      MoreFromNetwork(r0, s.b.rx, s.toB, Sends(s.a, act.event));
    } else if act.event.Rx? {
      RxFromNetwork(r0, s.b.rx, act.event.rx, s.toB);
    }
  }

  lemma {:induction false} RunFromNetwork(s: System, acts: seq<Action>)
    requires PromptRun(s, acts)
    ensures FromNetwork(s.b.rx, Execute(s, acts).b.rx, Execute(s, acts).toB)
    decreases |acts|
  {
    if acts != [] {
      var init := acts[..|acts| - 1];
      RunFromNetwork(s, init);
      hide CanStep, Step, Prompt, FromNetwork;
      StepFromNetwork(s.b.rx, Execute(s, init), acts[|acts| - 1]);
    }
  }

  lemma ReachedFromNetwork(s: System, s': System, k: nat)
    requires Reaches(s, s') && Has(s'.b.rx, k) && !Has(s.b.rx, k)
    ensures Carries(s'.toB, k)
  {
    hide CanExecute, Execute, Prompt, Has;
    var acts :| PromptRun(s, acts) && Execute(s, acts) == s';
    RunFromNetwork(s, acts);
  }

  // ---------------------------------------------------------------------------------------------
  // A window that data tells of
  // ---------------------------------------------------------------------------------------------

  /** The segment is still to reach the receiver, and tells of an open window. */
  predicate WillTell(t: Sender, r: Receiver, k: nat) {
    k < |t.log| && !Has(r, k) && !t.log[k].isOpen && t.log[k].window > 0
  }

  /** Once everything from A has arrived, B can have been told of the window. */
  lemma WindowIsTold(s: System, k: nat) returns (s': System)
    requires Inv(s) && Recoverable(s.a.tx, s.b.rx, s.toB) && !Trapped(s.b.rx) && !Starved(s)
    requires WillTell(s.a.tx, s.b.rx, k)
    ensures Reaches(s, s') && Inv(s') && s'.a.rx == s.a.rx
    ensures s'.b.tx == s.b.tx.(remoteWindow := s.a.tx.log[k].window)
  {
    hide Reaches, SenderOk, ReceiverOk, Recoverable, Starved, Carries, TxEnabled, TxApply, Emits;
    ReachesSelf(s);
    var s1 := DeliverAll(s, s);
    ReachedFromNetwork(s, s1, k);
    var p := TellingPacket(s1, k);
    StoreEffect(s1.b.tx, p, s1.toB);
    var act := Action(false, Tx(StoreWindow(p)));
    s' := Step(s1, act);
    ReachesStep(s, s1, act);
    StepKeepsInv(s1, act);
  }

  lemma TellingPacket(s: System, k: nat) returns (p: Packet)
    requires Inv(s) && Carries(s.toB, k) && k < |s.a.tx.log| && !s.a.tx.log[k].isOpen
    ensures p in s.toB && p.DataPacket? && p.window == s.a.tx.log[k].window
  {
    p :| p in s.toB && HasSegment(p) && p.sn == k;
    assert Authentic(p, s.a.tx);
  }

  /** A starved direction recovers when the other one still works and has a segment to carry that tells of
      an open window: some prompt run then delivers every byte. */
  lemma StarvationEnds(s: System, k: nat) returns (acts: seq<Action>)
    requires Inv(s) && Starved(AllLost(s)) && !Trapped(s.b.rx)
    requires Recoverable(s.b.tx, s.a.rx, {}) && !Trapped(s.a.rx) && !Starved(AllLost(Swap(s)))
    requires WillTell(s.b.tx, s.a.rx, k)
    ensures PromptRun(AllLost(s), acts)
    ensures Execute(AllLost(s), acts).b.rx.read == Payloads(s.a.tx.log)
  {
    hide CanExecute, Execute, Prompt, Inv, Payloads;
    var s0 := AllLost(s);
    LossKeepsInv(s);
    SwapKeepsInv(s0);
    var s1 := WindowIsTold(Swap(s0), k);
    FlippedReaches(s0, s1);
    SwapKeepsInv(s1);
    var first :| PromptRun(s0, first) && Execute(s0, first) == Swap(s1);
    var rest := EverythingCanArrive(Swap(s1));
    PromptAppend(s0, first, rest);
    acts := first + rest;
  }

  // ---------------------------------------------------------------------------------------------
  // Both directions starve
  // ---------------------------------------------------------------------------------------------

  /** A has nothing that it may send, and nothing that A has told B, or B will tell A, is of an open
      window. */
  ghost predicate Deaf(s: System, last: nat) {
    && Mute(s.a.tx, last) && NoWindowHeld(s.a.rx)
    && s.b.rx.phase.Idle? && ReceiveWindow(s.b) == 0
    && (forall p :: p in s.toB ==> p.AckPacket? && p.window == 0)
  }

  ghost predicate BothDeaf(s: System, lastA: nat, lastB: nat) {
    Deaf(s, lastA) && Deaf(Swap(s), lastB)
  }

  ghost predicate SamePositions(s: System, s': System) {
    s'.a.rx.nextRecv == s.a.rx.nextRecv && s'.b.rx.nextRecv == s.b.rx.nextRecv
  }

  lemma DeafTx(s: System, ev: TxEvent, lastA: nat, lastB: nat)
    requires BothDeaf(s, lastA, lastB) && Enabled(s.a, Tx(ev), s.toA) && Prompt(s, Action(true, Tx(ev)))
    ensures BothDeaf(StepA(s, Tx(ev)), lastA, lastB) && SamePositions(s, StepA(s, Tx(ev)))
  {
    DeafEvents(s, ev, lastA, lastB);
    MuteStays(s.a, ev, s.toA, lastA);
    hide Mute, NoWindowHeld, TxEnabled, TxApply, Emits, Prompt;
  }

  lemma DeafEvents(s: System, ev: TxEvent, lastA: nat, lastB: nat)
    requires BothDeaf(s, lastA, lastB) && Enabled(s.a, Tx(ev), s.toA) && Prompt(s, Action(true, Tx(ev)))
    ensures ev.SendAck? || ev.DropAcked? || ev.StoreWindow? || ev.CountAck?
    ensures ev.StoreWindow? ==> NoWindow(ev.packet)
    ensures TxApply(s.a.tx, ev, s.toA).congestionWindow == s.a.tx.congestionWindow
    ensures forall p :: p in Emits(s.a.tx, ev) ==> p.AckPacket? && p.window == 0
  {
  }

  lemma DeafRx(s: System, ev: RxEvent, lastA: nat, lastB: nat)
    requires BothDeaf(s, lastA, lastB) && Enabled(s.a, Rx(ev), s.toA)
    ensures BothDeaf(StepA(s, Rx(ev)), lastA, lastB) && SamePositions(s, StepA(s, Rx(ev)))
  {
    HoldingNoWindow(s.a.rx, ev, s.toA);
    hide Mute, NoWindowHeld;
    assert s.toB + {} == s.toB;
  }

  lemma DeafStep(s: System, act: Action, lastA: nat, lastB: nat)
    requires BothDeaf(s, lastA, lastB) && CanStep(s, act) && Prompt(s, act) && act.atA
    ensures BothDeaf(Step(s, act), lastA, lastB) && SamePositions(s, Step(s, act))
  {
    hide BothDeaf, Apply, Sends, Prompt;
    match act.event
    case Tx(ev) => DeafTx(s, ev, lastA, lastB);
    case Rx(ev) => DeafRx(s, ev, lastA, lastB);
  }

  lemma {:induction false} DeafnessIsForever(s: System, acts: seq<Action>, lastA: nat, lastB: nat)
    requires BothDeaf(s, lastA, lastB) && PromptRun(s, acts)
    ensures BothDeaf(Execute(s, acts), lastA, lastB) && SamePositions(s, Execute(s, acts))
    decreases |acts|
  {
    if acts != [] {
      var init, act := acts[..|acts| - 1], acts[|acts| - 1];
      DeafnessIsForever(s, init, lastA, lastB);
      var s1 := Execute(s, init);
      hide Deaf, CanStep, Step, Prompt;
      if act.atA {
        DeafStep(s1, act, lastA, lastB);
      } else {
        FlippedStep(Swap(s1), act);
        DeafStep(Swap(s1), Action(true, act.event), lastB, lastA);
      }
    }
  }

  /** When both directions have starved and nothing that is held tells of an open window, data that waits
      on either side does not help: no prompt run puts another segment in order. */
  lemma BothStarvedIsForever(s: System, acts: seq<Action>)
    requires Inv(s) && Starved(AllLost(s)) && Starved(AllLost(Swap(s)))
    requires NoWindowHeld(s.a.rx) && NoWindowHeld(s.b.rx) && PromptRun(AllLost(s), acts)
    ensures SamePositions(s, Execute(AllLost(s), acts))
    ensures s.b.rx.nextRecv < |s.a.tx.log| && s.a.rx.nextRecv < |s.b.tx.log|
  {
    hide Execute, PromptRun, NoWindowHeld, SenderOk, ReceiverOk, Agree;
    var lastA := StarvedIsMute(s.a.tx);
    var lastB := StarvedIsMute(s.b.tx);
    Positions(s);
    Positions(Swap(s));
    DeafnessIsForever(AllLost(s), acts, lastA, lastB);
  }
}
