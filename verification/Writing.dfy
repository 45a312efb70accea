/** What a write queues: an open request, chunks, fragments, and how far it gets. */
module Writing {
  import opened Bytes
  import opened Fragmentation
  import opened Arq
  import opened ArqSafety

  /** The segments that one chunk becomes: consecutive pieces, numbered down to 0. */
  function FragmentSegments(pieces: seq<bytes>, total: nat, window: nat): seq<Segment>
    requires |pieces| <= total
  {
    seq(|pieces|, i requires 0 <= i < |pieces| => Segment(false, pieces[i], window, (total - 1 - i) % 256))
  }

  lemma OnePayloadMore(log: seq<Segment>, last: Segment)
    ensures Payloads(log + [last]) == Payloads(log) + last.payload
  {
    assert (log + [last])[..|log|] == log;
  }

  lemma LastFragment(pieces: seq<bytes>, total: nat, window: nat) returns (last: Segment)
    requires 0 < |pieces| <= total
    ensures last.payload == pieces[|pieces| - 1]
    ensures FragmentSegments(pieces, total, window) ==
      FragmentSegments(pieces[..|pieces| - 1], total, window) + [last]
  {
    last := FragmentSegments(pieces, total, window)[|pieces| - 1];
  }

  lemma {:induction false} PayloadsOfFragments(log: seq<Segment>, pieces: seq<bytes>, total: nat, window: nat)
    requires |pieces| <= total
    ensures Payloads(log + FragmentSegments(pieces, total, window)) == Payloads(log) + Concat(pieces)
    decreases |pieces|
  {
    if pieces == [] {
      assert log + FragmentSegments(pieces, total, window) == log;
    } else {
      hide FragmentSegments, Payloads, Concat;
      var init := pieces[..|pieces| - 1];
      var last := LastFragment(pieces, total, window);
      var before := log + FragmentSegments(init, total, window);
      assert log + FragmentSegments(pieces, total, window) == before + [last];
      assert init + [last.payload] == pieces;
      PayloadsOfFragments(log, init, total, window);
      OnePayloadMore(before, last);
      ConcatSnoc(init, last.payload);
    }
  }

  /** Taking the next piece from the front keeps the rest in step. */
  lemma NextPiece(pieces: seq<bytes>, ptr: bytes, size: nat, j: nat)
    requires size > 0 && j < |pieces| && Pieces(ptr, size) == pieces[j..]
    ensures pieces[j] == ptr[..Min(size, |ptr|)]
    ensures j + 1 < |pieces| ==> Pieces(ptr[Min(size, |ptr|)..], size) == pieces[j + 1..]
  {
    assert Pieces(ptr, size)[0] == pieces[j];
    assert Pieces(ptr, size)[1..] == pieces[j + 1..];
  }

  lemma NoSegments(pieces: seq<bytes>, total: nat, window: nat)
    ensures FragmentSegments(pieces[..0], total, window) == []
  {
  }

  lemma NextSegment(pieces: seq<bytes>, j: nat, window: nat)
    requires j < |pieces|
    ensures FragmentSegments(pieces[..j + 1], |pieces|, window)
         == FragmentSegments(pieces[..j], |pieces|, window)
            + [Segment(false, pieces[j], window, (|pieces| - 1 - j) % 256)]
  {
  }

  /** The first fragments of a chunk carry its first bytes: all of it when none is left, and a
      part that is neither empty nor all of it in between. */
  lemma FirstFragments(log: seq<Segment>, chunk: bytes, size: nat, j: nat, window: nat) returns (m: nat)
    requires size > 0 && chunk != [] && j <= |Pieces(chunk, size)|
    ensures m <= |chunk|
    ensures var pieces := Pieces(chunk, size);
      Payloads(log + FragmentSegments(pieces[..j], |pieces|, window)) == Payloads(log) + chunk[..m]
    ensures (m == 0 <==> j == 0) && (m == |chunk| <==> j == |Pieces(chunk, size)|)
  {
    hide Pieces, Payloads, FragmentSegments, Concat;
    var pieces := Pieces(chunk, size);
    PayloadsOfFragments(log, pieces[..j], |pieces|, window);
    PiecesConcat(chunk, size);
    PiecesWellCut(chunk, size);
    assert pieces == pieces[..j] + pieces[j..];
    ConcatAppend(pieces[..j], pieces[j..]);
    m := |Concat(pieces[..j])|;
    assert chunk[..m] == Concat(pieces[..j]);
    ConcatNonEmpty(pieces[..j]);
    ConcatNonEmpty(pieces[j..]);
  }

  lemma ConcatNonEmpty(parts: seq<bytes>)
    requires forall i :: 0 <= i < |parts| ==> parts[i] != []
    ensures Concat(parts) == [] <==> parts == []
  {
    if parts != [] {
      assert |Concat(parts)| >= |parts[|parts| - 1]|;
    }
  }

  lemma FirstSegmentsArePrefix(pieces: seq<bytes>, j: nat, window: nat)
    requires j <= |pieces|
    ensures FragmentSegments(pieces[..j], |pieces|, window) <= FragmentSegments(pieces, |pieces|, window)
    ensures FragmentSegments(pieces[..|pieces|], |pieces|, window) == FragmentSegments(pieces, |pieces|, window)
    ensures |FragmentSegments(pieces[..j], |pieces|, window)| == j
  {
  }

  // ---------------------------------------------------------------------------------------------
  // A whole buffer
  // ---------------------------------------------------------------------------------------------

  function ChunkSegments(chunk: bytes, size: nat, window: nat): seq<Segment>
    requires size > 0
  {
    FragmentSegments(Pieces(chunk, size), |Pieces(chunk, size)|, window)
  }

  /** The segments that a buffer becomes, chunk by chunk. */
  function BufferSegments(b: bytes, size: nat, window: nat): seq<Segment>
    requires size > 0
    decreases |b|
  {
    if b == [] then []
    else
      var n := Min(|b|, MAX_PDU);
      ChunkSegments(b[..n], size, window) + BufferSegments(b[n..], size, window)
  }

  /** The segments that a write becomes.  A client's first write begins with the open request, which
      carries the whole buffer if that is short enough. */
  function WriteSegments(b: bytes, opening: bool, size: nat, window: nat): seq<Segment>
    requires size > 0
  {
    if opening && |b| <= MAX_OPEN_PAYLOAD then [Segment(true, b, 0, 0)]
    else (if opening then [Segment(true, [], 0, 0)] else []) + BufferSegments(b, size, window)
  }

  /** How many bytes a write reports, given how many more fragments the writer queues before it notices
      a close or its deadline, and how many segments are queued already. */
  function Accepted(b: bytes, size: nat, patience: nat, queued: nat): (n: nat)
    requires size > 0
    ensures n <= |b|
    decreases |b|
  {
    if b == [] then 0
    else
      var n := Min(|b|, MAX_PDU);
      var count := FragmentCount(n, size);
      if TREE_CAPACITY - queued <= count || patience < count then 0
      else n + Accepted(b[n..], size, patience - count, queued + count)
  }

  /** The writer is stopped between two fragments of a chunk. */
  predicate CutShort(b: bytes, size: nat, patience: nat, queued: nat)
    requires size > 0
    decreases |b|
  {
    b != [] && (
      var n := Min(|b|, MAX_PDU);
      var count := FragmentCount(n, size);
      && TREE_CAPACITY - queued > count
      && if patience < count then patience > 0 else CutShort(b[n..], size, patience - count, queued + count))
  }

  /** How many segments a write queues. */
  function Taken(b: bytes, size: nat, patience: nat, queued: nat): nat
    requires size > 0
    decreases |b|
  {
    if b == [] then 0
    else
      var n := Min(|b|, MAX_PDU);
      var count := FragmentCount(n, size);
      if TREE_CAPACITY - queued <= count then 0
      else if patience < count then patience
      else count + Taken(b[n..], size, patience - count, queued + count)
  }

  /** There is room, and patience, for all segments that the buffer becomes. */
  predicate FitsWhole(b: bytes, size: nat, patience: nat, queued: nat)
    requires size > 0
  {
    var count := |BufferSegments(b, size, 0)|;
    b == [] || (queued + count < 4096 && count <= patience)
  }

  /** The segments of a buffer that is more than one chunk are those of the chunk and of the rest. */
  lemma CountSplits(b: bytes, size: nat, j: nat)
    requires size > 0 && b != [] && j <= |b| - Min(|b|, 32768)
    ensures var k := Min(|b|, 32768);
      |BufferSegments(b[..k + j], size, 0)| == FragmentCount(k, size) + |BufferSegments(b[k..][..j], size, 0)|
  {
    var k := Min(|b|, 32768);
    var front := b[..k + j];
    assert front[..Min(|front|, 32768)] == b[..k] && front[k..] == b[k..][..j];
    ChunkLength(b[..k], size, 0);
  }

  /** `n` bytes are the longest part of the buffer, up to the end of a chunk, that fits in whole. */
  predicate Longest(b: bytes, n: nat, size: nat, patience: nat, queued: nat)
    requires size > 0
  {
    && n <= |b| && (n == |b| || n % 32768 == 0) && FitsWhole(b[..n], size, patience, queued)
    && (n < |b| ==> !FitsWhole(b[..Min(|b|, n + 32768)], size, patience, queued))
  }

  lemma NoneFits(b: bytes, size: nat, patience: nat, queued: nat)
    requires size > 0 && b != []
    requires var count := FragmentCount(Min(|b|, 32768), size); queued + count >= 4096 || patience < count
    ensures Longest(b, 0, size, patience, queued)
  {
    hide BufferSegments, FragmentCount;
    CountSplits(b, size, 0);
    NothingToSend(size);
    assert b[Min(|b|, 32768)..][..0] == [] && b[..0] == [];
  }

  lemma OneChunkMore(b: bytes, m: nat, size: nat, patience: nat, queued: nat)
    requires size > 0 && b != []
    requires var k := Min(|b|, 32768); var count := FragmentCount(k, size);
      && queued + count < 4096 && patience >= count
      && Longest(b[k..], m, size, patience - count, queued + count)
    ensures Longest(b, Min(|b|, 32768) + m, size, patience, queued)
  {
    hide BufferSegments, FragmentCount;
    var k := Min(|b|, 32768);
    var rest := b[k..];
    NothingToSend(size);
    CountSplits(b, size, m);
    assert rest[..m] == [] ==> m == 0;
    if m < |rest| {
      CountSplits(b, size, Min(|rest|, m + 32768));
    }
  }

  /** What a write reports is the longest part of the buffer, up to the end of a chunk of 32768 bytes, that
      fits in whole: nothing less, and no part of a chunk. */
  lemma {:induction false} AcceptedIsLongest(b: bytes, size: nat, patience: nat, queued: nat)
    requires size > 0
    ensures Longest(b, Accepted(b, size, patience, queued), size, patience, queued)
    decreases |b|
  {
    if b != [] {
      hide Longest, FragmentCount;
      var k := Min(|b|, 32768);
      var count := FragmentCount(k, size);
      if queued + count < 4096 && patience >= count {
        AcceptedIsLongest(b[k..], size, patience - count, queued + count);
        OneChunkMore(b, Accepted(b[k..], size, patience - count, queued + count), size, patience, queued);
      } else {
        NoneFits(b, size, patience, queued);
      }
    }
  }

  /** How many segments are queued when the first `n` bytes are reported: all of theirs, and if there is room for
      the next chunk too, as many of its as patience is left for. */
  function SegmentsQueued(b: bytes, n: nat, size: nat, patience: nat, queued: nat): int
    requires size > 0 && n <= |b|
  {
    var whole := |BufferSegments(b[..n], size, 0)|;
    var next := |BufferSegments(b[n..][..Min(|b| - n, 32768)], size, 0)|;
    if n < |b| && queued + whole + next < 4096 then patience else whole
  }

  lemma NextChunk(b: bytes, k: nat, m: nat)
    requires k + m <= |b|
    ensures b[k + m..][..Min(|b| - (k + m), 32768)] == b[k..][m..][..Min(|b[k..]| - m, 32768)]
  {
    assert b[k + m..] == b[k..][m..];
  }

  /** A write takes exactly that many. */
  lemma {:induction false} TakenExactly(b: bytes, size: nat, patience: nat, queued: nat)
    requires size > 0
    ensures Taken(b, size, patience, queued) == SegmentsQueued(b, Accepted(b, size, patience, queued), size, patience, queued)
    decreases |b|
  {
    hide FragmentCount, SegmentsQueued;
    if b == [] {
      NoChunkQueued(b, size, patience, queued);
    } else {
      var k := Min(|b|, 32768);
      var count := FragmentCount(k, size);
      if queued + count < 4096 && patience >= count {
        TakenExactly(b[k..], size, patience - count, queued + count);
        OneChunkQueued(b, Accepted(b[k..], size, patience - count, queued + count), size, patience, queued);
      } else {
        NoChunkQueued(b, size, patience, queued);
      }
    }
  }

  lemma NoChunkQueued(b: bytes, size: nat, patience: nat, queued: nat)
    requires size > 0
    ensures SegmentsQueued(b, 0, size, patience, queued) ==
      if b != [] && queued + FragmentCount(Min(|b|, 32768), size) < 4096 then patience else 0
  {
    hide FragmentCount, BufferSegments;
    NothingToSend(size);
    assert b[..0] == [] && b[0..] == b;
    if b != [] {
      CountSplits(b, size, 0);
      assert b[Min(|b|, 32768)..][..0] == [];
    }
  }

  lemma OneChunkQueued(b: bytes, m: nat, size: nat, patience: nat, queued: nat)
    requires size > 0 && b != [] && m <= |b| - Min(|b|, 32768)
    requires var count := FragmentCount(Min(|b|, 32768), size); queued + count < 4096 && patience >= count
    ensures var k := Min(|b|, 32768); var count := FragmentCount(k, size);
      SegmentsQueued(b, k + m, size, patience, queued)
      == count + SegmentsQueued(b[k..], m, size, patience - count, queued + count)
  {
    hide FragmentCount, BufferSegments;
    CountSplits(b, size, m);
    NextChunk(b, Min(|b|, 32768), m);
  }

  lemma NothingToSend(size: nat)
    requires size > 0
    ensures BufferSegments([], size, 0) == []
  {
  }

  lemma FewerFragmentsThanBytes(length: nat, size: nat)
    requires length > 0 && size > 0
    ensures FragmentCount(length, size) <= length
  {
    if length > size {
      var q := (length - 1) / size;
      assert q * size <= length - 1;
      assert q * size == q + q * (size - 1);
    }
  }

  /** A writer that is not stopped for as many fragments as the buffer has bytes is never cut short. */
  lemma {:induction false} PatienceSuffices(b: bytes, size: nat, patience: nat, queued: nat)
    requires size > 0 && patience >= |b|
    ensures !CutShort(b, size, patience, queued)
    decreases |b|
  {
    if b != [] {
      var n := Min(|b|, MAX_PDU);
      var count := FragmentCount(n, size);
      FewerFragmentsThanBytes(n, size);
      PatienceSuffices(b[n..], size, patience - count, queued + count);
    }
  }

  /** A deadline between the two fragments of a chunk: nothing is reported, and one fragment stays queued. */
  lemma WriterCanBeCutShort(b: bytes)
    requires |b| == 2000
    ensures CutShort(b, MaxFragmentSize(1500, false), 1, 0) && Accepted(b, MaxFragmentSize(1500, false), 1, 0) == 0
  {
  }

  // ---------------------------------------------------------------------------------------------
  // How the writer gets through a buffer
  // ---------------------------------------------------------------------------------------------

  lemma AppendPrefix(b: bytes, n: nat, size: nat, more: nat)
    requires n + size <= |b| && more <= size
    ensures b[..n] + b[n..][..size][..more] == b[..n + more]
  {
    assert b[n..][..size][..more] == b[n..n + more];
  }

  /** The first `n` bytes of the buffer are queued and `rest` is still to come. */
  ghost predicate Progress(b: bytes, n: nat, rest: bytes, size: nat, window: nat, patience: nat, left: nat,
                           before: seq<Segment>, log: seq<Segment>, queued0: nat, queued: nat)
    requires size > 0
  {
    && n <= |b| && rest == b[n..]
    && Payloads(log) == Payloads(before) + b[..n]
    && before <= log && log + BufferSegments(rest, size, window) == before + BufferSegments(b, size, window)
    && n + Accepted(rest, size, left, queued) == Accepted(b, size, patience, queued0)
    && CutShort(rest, size, left, queued) == CutShort(b, size, patience, queued0)
    && |log| + Taken(rest, size, left, queued) == |before| + Taken(b, size, patience, queued0)
  }

  /** How a write of a buffer ends: `n` bytes are reported, the stream has grown by the first `m`, and
      the segments queued are the first of those that the buffer becomes. */
  ghost predicate Outcome(b: bytes, n: nat, m: nat, size: nat, window: nat, patience: nat,
                          before: seq<Segment>, log: seq<Segment>, queued: nat)
    requires size > 0
  {
    && n <= m <= |b| && Payloads(log) == Payloads(before) + b[..m]
    && before <= log <= before + BufferSegments(b, size, window)
    && (n == |b| ==> log == before + BufferSegments(b, size, window))
    && n == Accepted(b, size, patience, queued)
    && (m == n <==> !CutShort(b, size, patience, queued)) && |log| == |before| + Taken(b, size, patience, queued)
  }

  /** How the write of one chunk ends. */
  ghost predicate ChunkOutcome(chunk: bytes, n: nat, m: nat, size: nat, window: nat, patience: nat,
                               before: seq<Segment>, log: seq<Segment>, queued0: nat, queued: nat)
    requires size > 0
  {
    var count, segments := FragmentCount(|chunk|, size), ChunkSegments(chunk, size, window);
    var room := TREE_CAPACITY - queued0 > count;
    && m <= |chunk| && Payloads(log) == Payloads(before) + chunk[..m]
    && before <= log <= before + segments && |log| == |before| + (if room then Min(patience, count) else 0)
    && n == (if room && patience >= count then |chunk| else 0)
    && if n > 0 then m == n && log == before + segments && queued == queued0 + count
       else m == 0 <==> !(room && patience > 0)
  }

  lemma ProgressStarts(b: bytes, size: nat, window: nat, patience: nat, log: seq<Segment>, queued: nat)
    requires size > 0
    ensures Progress(b, 0, b, size, window, patience, patience, log, log, queued, queued)
  {
    assert Payloads(log) + b[..0] == Payloads(log);
  }

  lemma ProgressEnds(b: bytes, n: nat, size: nat, window: nat, patience: nat, left: nat,
                     before: seq<Segment>, log: seq<Segment>, queued0: nat, queued: nat)
    requires size > 0 && Progress(b, n, [], size, window, patience, left, before, log, queued0, queued)
    ensures Outcome(b, n, n, size, window, patience, before, log, queued0)
  {
    assert log + [] == log;
  }

  /** Of a buffer whose first chunk is queued in full, the rest is still to come. */
  lemma GoesOnHere(rest: bytes, size: nat, window: nat, left: nat, queued: nat)
    requires size > 0 && rest != []
    requires var count := FragmentCount(Min(|rest|, MAX_PDU), size); TREE_CAPACITY - queued > count && left >= count
    ensures var k := Min(|rest|, MAX_PDU); var count := FragmentCount(k, size);
      && BufferSegments(rest, size, window) ==
         ChunkSegments(rest[..k], size, window) + BufferSegments(rest[k..], size, window)
      && Accepted(rest, size, left, queued) == k + Accepted(rest[k..], size, left - count, queued + count)
      && CutShort(rest, size, left, queued) == CutShort(rest[k..], size, left - count, queued + count)
      && Taken(rest, size, left, queued) == count + Taken(rest[k..], size, left - count, queued + count)
  {
    hide ChunkSegments, FragmentCount;
  }

  /** The writer has queued the next chunk in full. */
  lemma ProgressGoesOn(b: bytes, n: nat, rest: bytes, size: nat, window: nat, patience: nat, left: nat,
                       before: seq<Segment>, log: seq<Segment>, log': seq<Segment>,
                       queued0: nat, queued: nat, queued': nat, sent: nat, m: nat)
    requires size > 0 && Progress(b, n, rest, size, window, patience, left, before, log, queued0, queued)
    requires ChunkOutcome(rest[..Min(|rest|, MAX_PDU)], sent, m, size, window, left, log, log', queued, queued')
    requires sent > 0
    ensures var k := Min(|rest|, MAX_PDU); var count := FragmentCount(k, size);
      && left >= count
      && Progress(b, n + k, rest[k..], size, window, patience, left - count, before, log', queued0, queued')
  {
    hide Payloads, ChunkSegments, FragmentCount, Accepted, CutShort, Taken, BufferSegments;
    var k := Min(|rest|, MAX_PDU);
    GoesOnHere(rest, size, window, left, queued);
    var chunk, more := ChunkSegments(rest[..k], size, window), BufferSegments(rest[k..], size, window);
    assert (log + chunk) + more == log + (chunk + more);
    AppendPrefix(b, n, k, k);
    assert rest[..k][..k] == rest[..k];
    assert (Payloads(before) + b[..n]) + rest[..k] == Payloads(before) + (b[..n] + rest[..k]);
  }

  /** A buffer whose first chunk is not queued in full is not accepted at all. */
  lemma StopsHere(rest: bytes, m: nat, size: nat, window: nat, left: nat,
                  log: seq<Segment>, log': seq<Segment>, queued: nat, queued': nat)
    requires size > 0 && rest != []
    requires ChunkOutcome(rest[..Min(|rest|, MAX_PDU)], 0, m, size, window, left, log, log', queued, queued')
    ensures Accepted(rest, size, left, queued) == 0 && (m == 0 <==> !CutShort(rest, size, left, queued))
    ensures |log'| == |log| + Taken(rest, size, left, queued)
  {
    hide Payloads, ChunkSegments, FragmentCount;
  }

  /** The writer has queued no more than a part of the next chunk. */
  lemma ProgressStops(b: bytes, n: nat, rest: bytes, size: nat, window: nat, patience: nat, left: nat,
                      before: seq<Segment>, log: seq<Segment>, log': seq<Segment>,
                      queued0: nat, queued: nat, queued': nat, m: nat)
    requires size > 0 && Progress(b, n, rest, size, window, patience, left, before, log, queued0, queued)
    requires rest != []
    requires ChunkOutcome(rest[..Min(|rest|, MAX_PDU)], 0, m, size, window, left, log, log', queued, queued')
    ensures Outcome(b, n, n + m, size, window, patience, before, log', queued0)
  {
    hide Payloads, ChunkSegments, FragmentCount, Accepted, CutShort, Taken;
    var k := Min(|rest|, MAX_PDU);
    StopsHere(rest, m, size, window, left, log, log', queued, queued');
    AppendPrefix(b, n, k, m);
    assert log + ChunkSegments(rest[..k], size, window) <= log + BufferSegments(rest, size, window);
    assert (Payloads(before) + b[..n]) + rest[..k][..m] == Payloads(before) + (b[..n] + rest[..k][..m]);
  }

  lemma ChunkLength(chunk: bytes, size: nat, window: nat)
    requires size > 0
    ensures |ChunkSegments(chunk, size, window)| == FragmentCount(|chunk|, size)
  {
    PiecesCount(chunk, size);
  }

  /** How a whole write ends, with the open request if it is a client's first. */
  ghost predicate WriteOutcome(b: bytes, opening: bool, n: nat, m: nat, size: nat, window: nat, patience: nat,
                               before: seq<Segment>, log: seq<Segment>, queued: nat)
    requires size > 0
  {
    && n <= m <= |b| && Payloads(log) == Payloads(before) + b[..m]
    && before <= log <= before + WriteSegments(b, opening, size, window)
    && (n == |b| ==> log == before + WriteSegments(b, opening, size, window))
    && if opening && |b| <= MAX_OPEN_PAYLOAD then n == m == |b| && |log| == |before| + 1
       else
         var first := if opening then 1 else 0;
         && n == Accepted(b, size, patience, queued + first) && (m == n <==> !CutShort(b, size, patience, queued + first))
         && |log| == |before| + first + Taken(b, size, patience, queued + first)
  }

  lemma ReportedIsLongest(b: bytes, opening: bool, n: nat, m: nat, size: nat, window: nat, patience: nat,
                          before: seq<Segment>, log: seq<Segment>, queued: nat)
    requires size > 0 && WriteOutcome(b, opening, n, m, size, window, patience, before, log, queued)
    ensures var first := if opening then 1 else 0;
      if opening && |b| <= 1024 then n == |b| && |log| == |before| + 1
      else
        && Longest(b, n, size, patience, queued + first)
        && |log| == |before| + first + SegmentsQueued(b, n, size, patience, queued + first)
  {
    hide Longest, Accepted, CutShort, Taken, SegmentsQueued, Payloads, WriteSegments;
    AcceptedIsLongest(b, size, patience, queued + if opening then 1 else 0);
    TakenExactly(b, size, patience, queued + if opening then 1 else 0);
  }

  /** The open request and then the chunks, unless the request carries everything. */
  lemma ChunksAfterOpening(b: bytes, opening: bool, n: nat, m: nat, size: nat, window: nat, patience: nat,
                           before: seq<Segment>, afterOpen: seq<Segment>, log: seq<Segment>, queued: nat)
    requires size > 0 && (opening ==> b == [] || |b| > MAX_OPEN_PAYLOAD)
    requires afterOpen == before + if opening then [Segment(true, [], 0, 0)] else []
    requires Payloads(afterOpen) == Payloads(before)
    requires Outcome(b, n, m, size, window, patience, afterOpen, log, queued + if opening then 1 else 0)
    ensures WriteOutcome(b, opening, n, m, size, window, patience, before, log, queued)
  {
    SegmentsAfterOpening(b, opening, size, window, before, afterOpen);
    hide Payloads, Accepted, CutShort, Taken, BufferSegments, WriteSegments;
    PrefixTransitive(before, afterOpen, log);
  }

  /** The open request carries everything. */
  lemma OpeningCarriesAll(b: bytes, size: nat, window: nat, patience: nat, before: seq<Segment>, log: seq<Segment>,
                          queued: nat)
    requires size > 0 && |b| <= MAX_OPEN_PAYLOAD && log == before + [Segment(true, b, 0, 0)]
    requires Payloads(log) == Payloads(before) + b
    ensures WriteOutcome(b, true, |b|, |b|, size, window, patience, before, log, queued)
  {
    assert b[..|b|] == b;
  }

  lemma SegmentsAfterOpening(b: bytes, opening: bool, size: nat, window: nat, before: seq<Segment>,
                             afterOpen: seq<Segment>)
    requires size > 0 && (opening ==> b == [] || |b| > MAX_OPEN_PAYLOAD)
    requires afterOpen == before + if opening then [Segment(true, [], 0, 0)] else []
    ensures afterOpen + BufferSegments(b, size, window) == before + WriteSegments(b, opening, size, window)
    ensures before <= afterOpen
  {
    var segments := BufferSegments(b, size, window);
    assert b == [] ==> segments == [];
    hide BufferSegments;
    if opening {
      var first := [Segment(true, [], 0, 0)];
      assert before + (first + segments) == (before + first) + segments;
      assert first + [] == first;
    } else {
      assert afterOpen == before;
    }
  }

  lemma PrefixTransitive<T>(a: seq<T>, b: seq<T>, c: seq<T>)
    requires a <= b <= c
    ensures a <= c
  {
  }

  // ---------------------------------------------------------------------------------------------
  // The limits that every segment of a write keeps
  // ---------------------------------------------------------------------------------------------

  /** The segment fits a packet: an open request is short, and a fragment is not empty and has a number
      that no other fragment count could be mistaken for. */
  predicate WithinLimits(segment: Segment, mtu: int, window: nat) {
    if segment.isOpen then |segment.payload| <= MAX_OPEN_PAYLOAD && segment.window == segment.fragment == 0
    else 1 <= |segment.payload| <= MaxFragmentSize(mtu, false) && segment.fragment < 28 && segment.window == window
  }

  /** The fragments of a chunk are numbered down to 0, without wrap-around. */
  lemma ChunkWithinLimits(chunk: bytes, mtu: int, window: nat, i: nat)
    requires 1280 <= mtu <= 1500 && chunk != [] && |chunk| <= MAX_PDU
    requires MaxFragmentSize(mtu, false) > 0 && i < |ChunkSegments(chunk, MaxFragmentSize(mtu, false), window)|
    ensures var segments := ChunkSegments(chunk, MaxFragmentSize(mtu, false), window);
      WithinLimits(segments[i], mtu, window) && segments[i].fragment == |segments| - 1 - i
  {
    hide Pieces, Concat;
    var size := MaxFragmentSize(mtu, false);
    var pieces := Pieces(chunk, size);
    PiecesCount(chunk, size);
    PiecesWellCut(chunk, size);
    FragmentNumberFitsByte(|chunk|, mtu, false);
    hide FragmentCount, MaxFragmentSize;
    assert pieces[i] != [] && |pieces[i]| <= size;
    assert ChunkSegments(chunk, size, window)[i] == Segment(false, pieces[i], window, |pieces| - 1 - i);
  }

  lemma {:induction false} BufferWithinLimits(b: bytes, mtu: int, window: nat)
    requires 1280 <= mtu <= 1500 && MaxFragmentSize(mtu, false) > 0
    ensures forall s :: s in BufferSegments(b, MaxFragmentSize(mtu, false), window) ==> WithinLimits(s, mtu, window)
    decreases |b|
  {
    if b != [] {
      var n, size := Min(|b|, MAX_PDU), MaxFragmentSize(mtu, false);
      var first := ChunkSegments(b[..n], size, window);
      hide WithinLimits, ChunkSegments;
      forall s | s in first ensures WithinLimits(s, mtu, window) {
        var i :| 0 <= i < |first| && first[i] == s;
        ChunkWithinLimits(b[..n], mtu, window, i);
      }
      BufferWithinLimits(b[n..], mtu, window);
    }
  }

  /** Every segment of a write is within the limits, for every permitted MTU. */
  lemma WriteWithinLimits(b: bytes, opening: bool, mtu: int, window: nat)
    requires 1280 <= mtu <= 1500 && MaxFragmentSize(mtu, false) > 0
    ensures forall s :: s in WriteSegments(b, opening, MaxFragmentSize(mtu, false), window) ==> WithinLimits(s, mtu, window)
  {
    BufferWithinLimits(b, mtu, window);
  }

  // ---------------------------------------------------------------------------------------------
  // A write in the middle of everything else
  // ---------------------------------------------------------------------------------------------

  /** What an event queues, and what of it the writer queues: the answer to an open request comes from
      the input loop. */
  function SegmentOf(ev: Event): seq<Segment> {
    match ev
    case Tx(QueueOpenRequest(payload)) => [Segment(true, payload, 0, 0)]
    case Tx(QueueOpenResponse) => [Segment(true, [], 0, 0)]
    case Tx(QueueFragment(payload, window, fragment)) => [Segment(false, payload, window, fragment)]
    case _ => []
  }

  function QueuedBy(evs: seq<Event>): seq<Segment> {
    if evs == [] then [] else QueuedBy(evs[..|evs| - 1]) + SegmentOf(evs[|evs| - 1])
  }

  function WrittenBy(evs: seq<Event>): seq<Segment> {
    if evs == [] then []
    else
      var last := evs[|evs| - 1];
      WrittenBy(evs[..|evs| - 1]) + if last == Tx(QueueOpenResponse) then [] else SegmentOf(last)
  }

  lemma TxEventQueues(t: Sender, ev: TxEvent, inbox: set<Packet>)
    requires TxEnabled(t, ev, inbox)
    ensures TxApply(t, ev, inbox).log == t.log + SegmentOf(Tx(ev))
  {
    hide Insert, IsMin, CountTransmission;
    assert t.log + [] == t.log;
  }

  lemma EventQueues(e: Endpoint, ev: Event, inbox: set<Packet>)
    requires Enabled(e, ev, inbox)
    ensures Apply(e, ev, inbox).tx.log == e.tx.log + SegmentOf(ev)
  {
    hide RxEnabled, RxApply, TxEnabled, TxApply;
    match ev
    case Tx(tx) => TxEventQueues(e.tx, tx, inbox);
    case Rx(rx) => assert e.tx.log + [] == e.tx.log;
  }

  /** In every run of an endpoint, whatever its loops do, the log grows by what the run's events queue. */
  lemma {:induction false} RunQueues(e: Endpoint, evs: seq<Event>, inbox: set<Packet>)
    requires CanRun(e, evs, inbox)
    ensures RunAll(e, evs, inbox).tx.log == e.tx.log + QueuedBy(evs)
    decreases |evs|
  {
    if evs == [] {
      assert e.tx.log + [] == e.tx.log;
    } else {
      var init, last := evs[..|evs| - 1], evs[|evs| - 1];
      RunQueues(e, init, inbox);
      hide Enabled, Apply, SegmentOf;
      EventQueues(RunAll(e, init, inbox), last, inbox);
      assert (e.tx.log + QueuedBy(init)) + SegmentOf(last) == e.tx.log + (QueuedBy(init) + SegmentOf(last));
    }
  }

  lemma {:induction false} PayloadsAppend(a: seq<Segment>, b: seq<Segment>)
    ensures Payloads(a + b) == Payloads(a) + Payloads(b)
    decreases |b|
  {
    if b == [] {
      assert a + b == a && Payloads(a) + [] == Payloads(a);
    } else {
      assert (a + b)[..|a + b| - 1] == a + b[..|b| - 1];
      PayloadsAppend(a, b[..|b| - 1]);
    }
  }

  lemma {:induction false} WriterBringsPayloads(evs: seq<Event>)
    ensures Payloads(QueuedBy(evs)) == Payloads(WrittenBy(evs))
    decreases |evs|
  {
    if evs != [] {
      var init, last := evs[..|evs| - 1], evs[|evs| - 1];
      WriterBringsPayloads(init);
      PayloadsAppend(QueuedBy(init), SegmentOf(last));
      PayloadsAppend(WrittenBy(init), SegmentOf(last));
      assert Payloads([Segment(true, [], 0, 0)]) == [] by { assert [Segment(true, [], 0, 0)][..0] == []; }
      assert last == Tx(QueueOpenResponse) ==> WrittenBy(evs) == WrittenBy(init);
    }
  }

  /** The segments without the receive window, which each fragment takes from its own moment. */
  function WithoutWindows(segments: seq<Segment>): seq<Segment> {
    seq(|segments|, i requires 0 <= i < |segments| => segments[i].(window := 0))
  }

  lemma {:induction false} WindowsCarryNoPayload(segments: seq<Segment>)
    ensures Payloads(WithoutWindows(segments)) == Payloads(segments)
    decreases |segments|
  {
    if segments != [] {
      var init := segments[..|segments| - 1];
      WindowsCarryNoPayload(init);
      assert WithoutWindows(segments)[..|segments| - 1] == WithoutWindows(init);
    }
  }

  lemma ChunkPayloads(chunk: bytes, size: nat, window: nat)
    requires size > 0
    ensures Payloads(ChunkSegments(chunk, size, window)) == chunk
  {
    hide Pieces, FragmentSegments, Concat;
    var pieces := Pieces(chunk, size);
    PayloadsOfFragments([], pieces, |pieces|, window);
    PiecesConcat(chunk, size);
    assert [] + ChunkSegments(chunk, size, window) == ChunkSegments(chunk, size, window);
  }

  lemma {:induction false} BufferPayloads(b: bytes, size: nat, window: nat)
    requires size > 0
    ensures Payloads(BufferSegments(b, size, window)) == b
    decreases |b|
  {
    hide ChunkSegments;
    if b != [] {
      hide Payloads;
      var n := Min(|b|, MAX_PDU);
      ChunkPayloads(b[..n], size, window);
      BufferPayloads(b[n..], size, window);
      PayloadsAppend(ChunkSegments(b[..n], size, window), BufferSegments(b[n..], size, window));
      assert b[..n] + b[n..] == b;
    }
  }

  /** The segments of a write carry exactly the buffer. */
  lemma WritePayloads(b: bytes, opening: bool, size: nat, window: nat)
    requires size > 0
    ensures Payloads(WriteSegments(b, opening, size, window)) == b
  {
    BufferPayloads(b, size, window);
    var open: seq<Segment> := if opening then [Segment(true, [], 0, 0)] else [];
    PayloadsAppend(open, BufferSegments(b, size, window));
    assert forall p: bytes :: [Segment(true, p, 0, 0)][..0] == [];
    assert Payloads([Segment(true, b, 0, 0)]) == b && Payloads([Segment(true, [], 0, 0)]) == [];
  }

  /** A run in which the writer gets through a whole buffer, however long, waiting for room as often as it
      must: whatever else happens in between, the stream has grown by exactly the buffer. */
  lemma RunThatWrites(e: Endpoint, evs: seq<Event>, inbox: set<Packet>, b: bytes, opening: bool, size: nat)
    requires size > 0 && CanRun(e, evs, inbox)
    requires WithoutWindows(WrittenBy(evs)) == WriteSegments(b, opening, size, 0)
    ensures Payloads(RunAll(e, evs, inbox).tx.log) == Payloads(e.tx.log) + b
  {
    RunQueues(e, evs, inbox);
    PayloadsAppend(e.tx.log, QueuedBy(evs));
    WriterBringsPayloads(evs);
    WindowsCarryNoPayload(WrittenBy(evs));
    WritePayloads(b, opening, size, 0);
  }

  /** And a run in which it is stopped on the way has let the stream grow by a part from the front. */
  lemma RunThatWritesPart(e: Endpoint, evs: seq<Event>, inbox: set<Packet>, b: bytes, opening: bool, size: nat)
    requires size > 0 && CanRun(e, evs, inbox)
    requires WithoutWindows(WrittenBy(evs)) <= WriteSegments(b, opening, size, 0)
    ensures exists m :: 0 <= m <= |b| && Payloads(RunAll(e, evs, inbox).tx.log) == Payloads(e.tx.log) + b[..m]
  {
    hide Payloads, QueuedBy, WrittenBy, RunAll, CanRun, WriteSegments, WithoutWindows;
    RunQueues(e, evs, inbox);
    PayloadsAppend(e.tx.log, QueuedBy(evs));
    WriterBringsPayloads(evs);
    var written, all := WithoutWindows(WrittenBy(evs)), WriteSegments(b, opening, size, 0);
    WindowsCarryNoPayload(WrittenBy(evs));
    WritePayloads(b, opening, size, 0);
    PayloadsPrefix(all, |written|);
    assert all[..|written|] == written;
    assert b[..|Payloads(written)|] == Payloads(written);
  }
}
