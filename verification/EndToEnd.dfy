/** From one application to the other: a buffer of any length is cut, numbered, queued whenever there is
    room, sent, put in order and read. */
module EndToEnd {
  import opened Bytes
  import opened Fragmentation
  import opened Arq
  import opened ArqSafety
  import opened ArqProgress
  import opened Handshake
  import opened HonestRuns
  import opened Writing

  // ---------------------------------------------------------------------------------------------
  // The writer at A
  // ---------------------------------------------------------------------------------------------

  lemma {:induction false} QueueReserved(s0: System, s: System, segments: seq<Segment>) returns (s': System)
    requires Leads(s0, s) && Inv(s) && s.a.tx.reserved == |segments|
    requires forall i :: 0 <= i < |segments| ==> !segments[i].isOpen && segments[i].window == ReceiveWindow(s.a)
    ensures Leads(s0, s') && Inv(s') && OnlyQueued(s, s', segments)
    ensures s'.a.tx.reserved == 0 && s'.a.tx.openQueued == s.a.tx.openQueued
    decreases |segments|
  {
    hide Leads, Inv;
    if segments == [] {
      s' := s;
      assert s.a.tx.log + [] == s.a.tx.log;
    } else {
      var first := segments[0];
      var s1 := WriterStep(s0, s, QueueFragment(first.payload, first.window, first.fragment));
      s' := QueueReserved(s0, s1, segments[1..]);
      assert (s.a.tx.log + [first]) + segments[1..] == s.a.tx.log + segments;
    }
  }

  // ---------------------------------------------------------------------------------------------
  // One chunk after another
  // ---------------------------------------------------------------------------------------------

  /** Everything queued has been read, and both sides are at rest. */
  ghost predicate Settled(s: System) {
    && Inv(s) && s.b.rx.phase.Idle? && UpToDate(s.b.rx) && s.b.rx.nextRecv == |s.a.tx.log|
    && s.b.rx.read == Payloads(s.a.tx.log)
    && s.a.tx.openQueued && s.a.tx.reserved == 0 && ReceiveWindow(s.a) == MIN_WINDOW
  }

  lemma SettledIsEmpty(s: System)
    requires Settled(s)
    ensures s.a.tx.sendQueue == map[] && Transmitted(s.a.tx) == s.b.rx.nextRecv
  {
    assert forall k :: k !in s.a.tx.sendQueue;
  }

  lemma DeliverQueued(s0: System, s: System) returns (s': System)
    requires Leads(s0, s) && Inv(s) && s.b.rx.phase.Idle? && UpToDate(s.b.rx)
    requires Transmitted(s.a.tx) == s.b.rx.nextRecv
    requires s.a.tx.openQueued && s.a.tx.reserved == 0 && ReceiveWindow(s.a) == MIN_WINDOW
    ensures Leads(s0, s') && Settled(s') && s'.a.tx.log == s.a.tx.log && s'.a.rx == s.a.rx
  {
    hide Leads, Inv, UpToDate, Payloads;
    UpToDateIsFree(s);
    ReachesSelf(s);
    var s1 := DeliverAll(s, s);
    s' := ReadEverything(s, s1);
    AllRead(s');
    ReadingKeepsUpToDate(s1, s');
    ReachesLeads(s, s');
    LeadsOn(s0, s, s');
  }

  lemma ReadingKeepsUpToDate(s: System, s': System)
    requires OnlyRead(s, s') && UpToDate(s.b.rx)
    ensures UpToDate(s'.b.rx)
  {
  }

  lemma WriteChunkThrough(s0: System, s: System, chunk: bytes, mtu: int) returns (s': System)
    requires Leads(s0, s) && Settled(s) && 1280 <= mtu <= 1500 && chunk != [] && |chunk| <= MAX_PDU
    requires MaxFragmentSize(mtu, false) > 0
    ensures Leads(s0, s') && Settled(s') && s'.a.rx == s.a.rx
    ensures s'.a.tx.log == s.a.tx.log + ChunkSegments(chunk, MaxFragmentSize(mtu, false), MIN_WINDOW)
  {
    hide Leads, Inv, UpToDate, Payloads, ChunkSegments, Enabled, MaxFragmentSize, SegmentOf;
    var segments := ChunkSegments(chunk, MaxFragmentSize(mtu, false), MIN_WINDOW);
    ChunkIsShort(chunk, mtu);
    SettledIsEmpty(s);
    CanReserve(s, |segments|);
    var s1 := WriterStep(s0, s, Reserve(|segments|));
    var s2 := QueueReserved(s0, s1, segments);
    s' := DeliverQueued(s0, s2);
  }

  lemma ChunkIsShort(chunk: bytes, mtu: int)
    requires 1280 <= mtu <= 1500 && MaxFragmentSize(mtu, false) > 0 && |chunk| <= MAX_PDU
    ensures var segments := ChunkSegments(chunk, MaxFragmentSize(mtu, false), MIN_WINDOW);
      |segments| <= 28 && forall i :: 0 <= i < |segments| ==> !segments[i].isOpen && segments[i].window == MIN_WINDOW
  {
    ChunkLength(chunk, MaxFragmentSize(mtu, false), MIN_WINDOW);
    FragmentNumberFitsByte(|chunk|, mtu, false);
  }

  lemma {:induction false} WriteBufferThrough(s0: System, s: System, b: bytes, mtu: int) returns (s': System)
    requires Leads(s0, s) && Settled(s) && 1280 <= mtu <= 1500 && MaxFragmentSize(mtu, false) > 0
    ensures Leads(s0, s') && Settled(s') && s'.a.rx == s.a.rx
    ensures s'.a.tx.log == s.a.tx.log + BufferSegments(b, MaxFragmentSize(mtu, false), MIN_WINDOW)
    decreases |b|
  {
    hide Leads, Settled, ChunkSegments;
    if b == [] {
      s' := s;
      assert s.a.tx.log + [] == s.a.tx.log;
    } else {
      var n, size := Min(|b|, MAX_PDU), MaxFragmentSize(mtu, false);
      var s1 := WriteChunkThrough(s0, s, b[..n], mtu);
      s' := WriteBufferThrough(s0, s1, b[n..], mtu);
      var chunk, rest := ChunkSegments(b[..n], size, MIN_WINDOW), BufferSegments(b[n..], size, MIN_WINDOW);
      assert (s.a.tx.log + chunk) + rest == s.a.tx.log + (chunk + rest);
    }
  }

  // ---------------------------------------------------------------------------------------------
  // The whole stream
  // ---------------------------------------------------------------------------------------------

  /** A client's first write of any buffer, however much longer than the queues are, can be accepted in
      full: in some honest run of two fresh sessions A queues exactly the segments that the buffer becomes, the
      application at the other end reads exactly the buffer, and A gets the open response. */
  lemma AnyBufferGetsThrough(b: bytes, mtu: int) returns (acts: seq<Action>)
    requires 1280 <= mtu <= 1500 && MaxFragmentSize(mtu, false) > 0
    ensures HonestRun(Initial(), acts)
    ensures Execute(Initial(), acts).a.tx.log == WriteSegments(b, true, MaxFragmentSize(mtu, false), MIN_WINDOW)
    ensures Execute(Initial(), acts).b.rx.read == b && Execute(Initial(), acts).a.rx.nextRecv == 1
  {
    var s0, size := Initial(), MaxFragmentSize(mtu, false);
    hide CanExecute, Execute, Inv, Payloads, BufferSegments, Honest;
    var payload := if |b| <= MAX_OPEN_PAYLOAD then b else [];
    var s1 := Open(payload);
    var s2 := DeliverQueued(s0, s1);
    var s3 := s2;
    if |b| > MAX_OPEN_PAYLOAD {
      s3 := WriteBufferThrough(s0, s2, b, mtu);
    }
    assert s3.a.tx.log == WriteSegments(b, true, size, MIN_WINDOW);
    WritePayloads(b, true, size, MIN_WINDOW);
    acts :| HonestRun(s0, acts) && Execute(s0, acts) == s3;
  }
}
