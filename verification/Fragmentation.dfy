/** How the writer cuts a buffer into chunks and a chunk into fragments. */
module Fragmentation {
  import opened Bytes
  import opened Arithmetic

  const MAX_PDU: nat := 32 * 1024
  const MAX_OPEN_PAYLOAD: nat := 1024
  const PACKET_OVERHEAD: nat := 24 + 32 + 16 * 2

  /** The largest payload of one fragment. */
  function MaxFragmentSize(mtu: int, isStream: bool): nat {
    if isStream then MAX_PDU else Max(0, mtu - PACKET_OVERHEAD)
  }

  /** The number of fragments, as the writer computes it before cutting. */
  function FragmentCount(length: nat, size: nat): nat
    requires size > 0
  {
    if length > size then (length - 1) / size + 1 else 1
  }

  /** The pieces of at most `size` bytes, cut from the front. */
  function Pieces(data: bytes, size: nat): seq<bytes>
    requires size > 0
    decreases |data|
  {
    if |data| <= size then [data] else [data[..size]] + Pieces(data[size..], size)
  }

  /** Every piece fits, all but the last are full, and none is empty unless all the data is. */
  ghost predicate WellCut(pieces: seq<bytes>, data: bytes, size: nat) {
    && (forall i :: 0 <= i < |pieces| ==> |pieces[i]| <= size)
    && (forall i :: 0 <= i < |pieces| - 1 ==> |pieces[i]| == size)
    && (data != [] ==> forall i :: 0 <= i < |pieces| ==> pieces[i] != [])
  }

  /** Cutting gives exactly the announced number of fragments, well cut, and together they are the
      chunk. */
  lemma PiecesPartition(data: bytes, size: nat)
    requires size > 0
    ensures |Pieces(data, size)| == FragmentCount(|data|, size)
    ensures Concat(Pieces(data, size)) == data
    ensures WellCut(Pieces(data, size), data, size)
  {
    PiecesCount(data, size);
    PiecesConcat(data, size);
    PiecesWellCut(data, size);
  }

  lemma {:induction false} PiecesCount(data: bytes, size: nat)
    requires size > 0
    ensures |Pieces(data, size)| == FragmentCount(|data|, size)
    decreases |data|
  {
    if |data| > size {
      PiecesCount(data[size..], size);
      DivisionStep(|data|, size);
    }
  }

  lemma {:induction false} PiecesConcat(data: bytes, size: nat)
    requires size > 0
    ensures Concat(Pieces(data, size)) == data
    decreases |data|
  {
    if |data| <= size {
      ConcatHead(data, []);
      assert [data] + [] == [data];
    } else {
      PiecesConcat(data[size..], size);
      ConcatHead(data[..size], Pieces(data[size..], size));
      assert data[..size] + data[size..] == data;
    }
  }

  lemma {:induction false} PiecesWellCut(data: bytes, size: nat)
    requires size > 0
    ensures WellCut(Pieces(data, size), data, size)
    decreases |data|
  {
    if |data| > size {
      PiecesWellCut(data[size..], size);
      WellCutHead(data[..size], Pieces(data[size..], size), data[size..], data, size);
    }
  }

  lemma ConcatHead(head: bytes, rest: seq<bytes>)
    ensures Concat([head] + rest) == head + Concat(rest)
  {
    ConcatAppend([head], rest);
    ConcatSnoc([], head);
    assert [] + [head] == [head];
  }

  lemma WellCutHead(head: bytes, rest: seq<bytes>, tail: bytes, data: bytes, size: nat)
    requires |head| == size > 0 && tail != [] && WellCut(rest, tail, size)
    ensures WellCut([head] + rest, data, size)
  {
    var all := [head] + rest;
    assert forall i :: 1 <= i < |all| ==> all[i] == rest[i - 1];
  }

  lemma DivisionStep(n: nat, size: nat)
    requires 0 < size < n
    ensures FragmentCount(n, size) == 1 + FragmentCount(n - size, size)
  {
    var q, r := (n - 1 - size) / size, (n - 1 - size) % size;
    assert n - 1 == (q + 1) * size + r by {
      assert n - 1 - size == q * size + r;
      assert (q + 1) * size == q * size + size;
    }
    DivModUnique(n - 1, size, q + 1, r);
    if n - size <= size {
      DivModUnique(n - 1 - size, size, 0, n - 1 - size);
    }
  }

  /** For every permitted MTU a chunk has at most 28 fragments, so a fragment number fits a byte
      and the writer can always find room. */
  lemma FragmentNumberFitsByte(length: nat, mtu: int, isStream: bool)
    requires length <= MAX_PDU && (isStream || 1280 <= mtu <= 1500)
    ensures MaxFragmentSize(mtu, isStream) > 0
    ensures 1 <= FragmentCount(length, MaxFragmentSize(mtu, isStream)) <= 28
  {
    var size := MaxFragmentSize(mtu, isStream);
    if length > size {
      var q := (length - 1) / size;
      assert q * size <= length - 1;
      assert q >= 28 ==> q * size >= 28 * size;
    }
  }
}
