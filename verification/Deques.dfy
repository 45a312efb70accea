/** The double-ended queue: a ring buffer that grows and shrinks by powers of two, and whose
    positions are reduced by bit masks.  Every operation is the matching operation on sequences. */
module Deques {
  import opened Arithmetic

  const MIN_CAPACITY: nat := 16

  // ---------------------------------------------------------------------------------------------
  // Bit masks and powers of two
  // ---------------------------------------------------------------------------------------------

  predicate IsPowerOfTwo(n: nat) {
    n == 1 || (n > 1 && n % 2 == 0 && IsPowerOfTwo(n / 2))
  }

  /** Bitwise "and" in two's complement: bit by bit from the lowest, where halving rounds down. */
  function BitAnd(x: int, mask: nat): nat
    decreases mask
  {
    if mask == 0 then 0 else 2 * BitAnd(x / 2, mask / 2) + (x % 2) * (mask % 2)
  }

  /** For a power of two, masking with one less is the remainder, also for negative numbers. */
  lemma {:induction false} MaskIsModulus(x: int, n: nat)
    requires IsPowerOfTwo(n)
    ensures BitAnd(x, n - 1) == x % n
    decreases n
  {
    if n > 1 {
      var m := n / 2;
      MaskIsModulus(x / 2, m);
      assert (n - 1) / 2 == m - 1 && (n - 1) % 2 == 1;
      HalvedModulus(x, m);
    }
  }

  lemma HalvedModulus(x: int, m: int)
    requires m > 0
    ensures x % (2 * m) == 2 * ((x / 2) % m) + x % 2
  {
    var y, b := x / 2, x % 2;
    var q, r := y / m, y % m;
    assert x == q * (2 * m) + (2 * r + b) by {
      assert y == q * m + r;
      assert q * (2 * m) == 2 * (q * m);
    }
    DivModUnique(x, 2 * m, q, 2 * r + b);
  }

  /** The buffer position of element `i` when the first is at `head`. */
  function Slot(head: int, i: int, n: int): int {
    if head + i < n then head + i else head + i - n
  }

  lemma MaskIsSlot(head: int, i: int, n: nat)
    requires IsPowerOfTwo(n) && 0 <= head < n && 0 <= i <= n
    ensures BitAnd(head + i, n - 1) == Slot(head, i, n)
  {
    MaskIsModulus(head + i, n);
    var q := if head + i < n then 0 else 1;
    DivModUnique(head + i, n, q, Slot(head, i, n));
  }

  lemma MaskIsPrevious(i: int, n: nat)
    requires IsPowerOfTwo(n) && 0 <= i < n
    ensures BitAnd(i - 1, n - 1) == if i == 0 then n - 1 else i - 1
  {
    MaskIsModulus(i - 1, n);
    if i == 0 {
      DivModUnique(-1, n, -1, n - 1);
    } else {
      DivModUnique(i - 1, n, 0, i - 1);
    }
  }

  lemma MaskIsOffset(head: int, m: int, n: nat)
    requires IsPowerOfTwo(n) && 0 <= head < n && 0 - n < m < n
    ensures BitAnd(head + m, n - 1) == Slot(head, if m < 0 then m + n else m, n)
  {
    MaskIsModulus(head + m, n);
    var q := if head + m < 0 then -1 else if head + m < n then 0 else 1;
    DivModUnique(head + m, n, q, Slot(head, if m < 0 then m + n else m, n));
  }

  lemma DoublePower(n: nat)
    requires IsPowerOfTwo(n)
    ensures IsPowerOfTwo(2 * n)
  {
  }

  // ---------------------------------------------------------------------------------------------
  // The operations on sequences
  // ---------------------------------------------------------------------------------------------

  /** The first `k` elements move to the back. */
  function Rotated<T>(s: seq<T>, k: nat): seq<T>
    requires k <= |s|
  {
    s[k..] + s[..k]
  }

  lemma RotatedNone<T>(s: seq<T>)
    ensures Rotated(s, 0) == s == Rotated(s, |s|)
  {
  }

  lemma RotatedOnce<T>(s: seq<T>, k: nat)
    requires k < |s|
    ensures Rotated(Rotated(s, k), 1) == Rotated(s, k + 1)
  {
  }

  lemma RotatedBackOnce<T>(s: seq<T>, k: nat)
    requires 1 <= k <= |s|
    ensures Rotated(Rotated(s, k), |s| - 1) == Rotated(s, k - 1)
  {
  }

  /** The remainder that Go computes: it has the sign of the dividend. */
  function Remainder(n: int, d: int): int
    requires d > 0
  {
    if n >= 0 then n % d else -((-n) % d)
  }

  /** The elements of a ring, from the slot `head` on. */
  function Ring<T>(b: seq<T>, head: int, count: int): (s: seq<T>)
    requires 0 <= head < |b| && 0 <= count <= |b|
    ensures |s| == count
  {
    seq(count, i requires 0 <= i < count => b[Slot(head, i, |b|)])
  }

  /** One step from back to front: the last element moves to the slot before the first. */
  lemma RingBackward<T>(b: seq<T>, head: int, count: int, zero: T)
    requires 0 <= head < |b| && 1 < count < |b|
    ensures var first := if head == 0 then |b| - 1 else head - 1; var last := Slot(head, count - 1, |b|);
      Ring(b[first := b[last]][last := zero], first, count) == Rotated(Ring(b, head, count), count - 1)
  {
    var first := if head == 0 then |b| - 1 else head - 1;
    var last := Slot(head, count - 1, |b|);
    var s, t := Ring(b, head, count), Ring(b[first := b[last]][last := zero], first, count);
    assert t[0] == s[count - 1];
    assert forall i :: 1 <= i < count ==> t[i] == s[i - 1];
  }

  /** One step from front to back: the first element moves to the slot after the last. */
  lemma RingForward<T>(b: seq<T>, head: int, count: int, zero: T)
    requires 0 <= head < |b| && 1 < count < |b|
    ensures var end := Slot(head, count, |b|);
      Ring(b[end := b[head]][head := zero], Slot(head, 1, |b|), count) == Rotated(Ring(b, head, count), 1)
  {
    var end := Slot(head, count, |b|);
    var s, t := Ring(b, head, count), Ring(b[end := b[head]][head := zero], Slot(head, 1, |b|), count);
    assert t[count - 1] == s[0];
    assert forall i :: 0 <= i < count - 1 ==> t[i] == s[i + 1];
  }

  /** In a full ring, only the beginning moves. */
  lemma RingFull<T>(b: seq<T>, head: int, k: nat)
    requires 0 <= head < |b| && k < |b|
    ensures Ring(b, Slot(head, k, |b|), |b|) == Rotated(Ring(b, head, |b|), k)
  {
    var s, t := Ring(b, head, |b|), Ring(b, Slot(head, k, |b|), |b|);
    assert forall i :: 0 <= i < |b| ==> t[i] == s[Slot(k, i, |b|)];
  }

  class Deque<T> {
    var buf: array<T>
    var head: int
    var tail: int
    var count: int
    var minCap: nat
    const zero: T

    ghost predicate Valid()
      reads this
    {
      && (minCap == 0 || (IsPowerOfTwo(minCap) && minCap >= MIN_CAPACITY))
      && if buf.Length == 0 then head == tail == count == 0
         else
           && IsPowerOfTwo(buf.Length) && minCap > 0
           && 0 <= head < buf.Length && 0 <= count <= buf.Length
           && tail == (if count == buf.Length then head else Slot(head, count, buf.Length))
    }

    ghost function Contents(): (s: seq<T>)
      requires Valid()
      reads this, buf
      ensures |s| == count
    {
      seq(count, i requires 0 <= i < count reads this, buf requires Valid() => buf[Slot(head, i, buf.Length)])
    }

    lemma ContentsAreRing()
      requires Valid() && buf.Length > 0
      ensures Contents() == Ring(buf[..], head, count)
    {
    }

    /** Room for `capacity` elements, never shrinking below `minimum`, both rounded up. */
    constructor New(capacity: int, minimum: int, zero: T)
      ensures Valid() && fresh(buf) && Contents() == [] && this.zero == zero
      ensures buf.Length >= capacity && minCap >= minimum
      ensures capacity == 0 ==> buf.Length == 0
      ensures minCap == 16 || minCap / 2 < minimum
      ensures capacity != 0 ==> buf.Length == minCap || buf.Length / 2 < capacity
    {
      var least := MIN_CAPACITY;
      while least < minimum
        invariant IsPowerOfTwo(least) && least >= MIN_CAPACITY
        invariant least == MIN_CAPACITY || least / 2 < minimum
      {
        DoublePower(least);
        least := 2 * least;
      }
      var size := 0;
      if capacity != 0 {
        size := least;
        while size < capacity
          invariant IsPowerOfTwo(size)
          invariant size == least || size / 2 < capacity
        {
          DoublePower(size);
          size := 2 * size;
        }
      }
      this.zero := zero;
      buf := new T[size](_ => zero);
      head, tail, count, minCap := 0, 0, 0, least;
    }

    method Prev(i: int) returns (p: int)
      requires Valid() && 0 <= i < buf.Length
      ensures p == if i == 0 then buf.Length - 1 else i - 1
    {
      MaskIsPrevious(i, buf.Length);
      p := BitAnd(i - 1, buf.Length - 1);
    }

    method Next(i: int) returns (p: int)
      requires Valid() && 0 <= i < buf.Length
      ensures p == Slot(i, 1, buf.Length)
    {
      MaskIsSlot(i, 1, buf.Length);
      p := BitAnd(i + 1, buf.Length - 1);
    }

    /** Moves the contents to a buffer of exactly twice their number. */
    method Resize()
      requires Valid() && count > 0 && IsPowerOfTwo(2 * count)
      modifies this`buf, this`head, this`tail
      ensures Valid() && fresh(buf) && buf.Length == 2 * count && Contents() == old(Contents())
    {
      ghost var s := Contents();
      var newBuf := new T[2 * count](_ => zero);
      if tail > head {
        forall i | 0 <= i < tail - head {
          newBuf[i] := buf[head + i];
        }
      } else {
        var n := buf.Length - head;
        forall i | 0 <= i < n {
          newBuf[i] := buf[head + i];
        }
        forall i | 0 <= i < tail {
          newBuf[n + i] := buf[i];
        }
      }
      assert forall i :: 0 <= i < count ==> newBuf[i] == s[i];
      head, tail := 0, count;
      buf := newBuf;
    }

    method GrowIfFull()
      requires Valid()
      modifies this`buf, this`head, this`tail, this`minCap
      ensures Valid() && Contents() == old(Contents()) && count < buf.Length
      ensures buf == old(buf) || fresh(buf)
      ensures minCap == if old(buf.Length) == 0 && old(minCap) == 0 then 16 else old(minCap)
      ensures buf.Length == if count < old(buf.Length) then old(buf.Length)
                            else if count == 0 then minCap else 2 * old(buf.Length)
    {
      if count != buf.Length {
        return;
      }
      if buf.Length == 0 {
        if minCap == 0 {
          minCap := MIN_CAPACITY;
        }
        buf := new T[minCap](_ => zero);
        return;
      }
      DoublePower(buf.Length);
      Resize();
    }

    method ShrinkIfExcess()
      requires Valid() && count < buf.Length
      modifies this`buf, this`head, this`tail
      ensures Valid() && Contents() == old(Contents())
      ensures (buf == old(buf) && head == old(head) && tail == old(tail)) || (fresh(buf) && buf.Length < old(buf.Length))
      ensures buf.Length == if old(buf.Length) > minCap && 4 * count == old(buf.Length) then 2 * count else old(buf.Length)
    {
      if buf.Length > minCap && 4 * count == buf.Length {
        assert IsPowerOfTwo(buf.Length / 2);
        Resize();
      }
    }

    method PushBack(elem: T)
      requires Valid()
      modifies this, buf
      ensures Valid() && Contents() == old(Contents()) + [elem] && (buf == old(buf) || fresh(buf))
    {
      GrowIfFull();
      ghost var s := Contents();
      buf[tail] := elem;
      tail := Next(tail);
      count := count + 1;
      assert Contents()[..count - 1] == s;
    }

    method PushFront(elem: T)
      requires Valid()
      modifies this, buf
      ensures Valid() && Contents() == [elem] + old(Contents()) && (buf == old(buf) || fresh(buf))
    {
      hide IsPowerOfTwo;
      GrowIfFull();
      PutFront(elem);
    }

    method PutFront(elem: T)
      requires Valid() && count < buf.Length
      modifies this`head, this`count, buf
      ensures Valid() && Contents() == [elem] + old(Contents())
    {
      hide IsPowerOfTwo;
      ghost var s := Contents();
      head := Prev(head);
      buf[head] := elem;
      count := count + 1;
      assert Contents()[0] == elem;
      assert forall i :: 1 <= i < count ==> Contents()[i] == s[i - 1];
    }

    method PopFront() returns (elem: T)
      requires Valid() && count > 0
      modifies this, buf
      ensures Valid() && [elem] + Contents() == old(Contents()) && (buf == old(buf) || fresh(buf))
      ensures buf == old(buf) ==> buf[old(head)] == zero
    {
      ghost var s := Contents();
      elem := buf[head];
      buf[head] := zero;
      head := Next(head);
      count := count - 1;
      assert Contents() == s[1..];
      ShrinkIfExcess();
    }

    method PopBack() returns (elem: T)
      requires Valid() && count > 0
      modifies this, buf
      ensures Valid() && Contents() + [elem] == old(Contents()) && (buf == old(buf) || fresh(buf))
      ensures buf == old(buf) ==> buf[tail] == zero
    {
      ghost var s := Contents();
      tail := Prev(tail);
      elem := buf[tail];
      buf[tail] := zero;
      count := count - 1;
      assert Contents() == s[..count] && elem == s[count];
      ShrinkIfExcess();
    }

    method Front() returns (elem: T)
      requires Valid() && count > 0
      ensures elem == Contents()[0]
    {
      elem := buf[head];
    }

    method Back() returns (elem: T)
      requires Valid() && count > 0
      ensures elem == Contents()[count - 1]
    {
      var p := Prev(tail);
      elem := buf[p];
    }

    method At(i: int) returns (elem: T)
      requires Valid() && 0 <= i < count
      ensures elem == Contents()[i]
    {
      MaskIsSlot(head, i, buf.Length);
      elem := buf[BitAnd(head + i, buf.Length - 1)];
    }

    method Set(i: int, item: T)
      requires Valid() && 0 <= i < count
      modifies buf
      ensures Valid() && Contents() == old(Contents())[i := item]
    {
      MaskIsSlot(head, i, buf.Length);
      buf[BitAnd(head + i, buf.Length - 1)] := item;
    }

    /** Forgets all elements and clears their slots, but keeps the buffer. */
    method Clear()
      requires Valid()
      modifies this, buf
      ensures Valid() && Contents() == [] && buf == old(buf)
      ensures forall i :: 0 <= i < old(count) ==> buf[Slot(old(head), i, buf.Length)] == zero
    {
      for i := 0 to count
        invariant Valid() && count == old(count) && head == old(head) && buf == old(buf)
        invariant forall j :: 0 <= j < i ==> buf[Slot(head, j, buf.Length)] == zero
      {
        MaskIsSlot(head, i, buf.Length);
        buf[BitAnd(head + i, buf.Length - 1)] := zero;
      }
      head, tail, count := 0, 0, 0;
    }

    /** The first element for which `f` holds, or -1. */
    method Index(f: T -> bool) returns (k: int)
      requires Valid()
      ensures k == -1 || (0 <= k < count && f(Contents()[k]))
      ensures forall i :: 0 <= i < (if k == -1 then count else k) ==> !f(Contents()[i])
    {
      for i := 0 to count
        invariant forall j :: 0 <= j < i ==> !f(Contents()[j])
      {
        MaskIsSlot(head, i, buf.Length);
        if f(buf[BitAnd(head + i, buf.Length - 1)]) {
          return i;
        }
      }
      return -1;
    }

    /** The last element for which `f` holds, or -1. */
    method RIndex(f: T -> bool) returns (k: int)
      requires Valid()
      ensures k == -1 || (0 <= k < count && f(Contents()[k]))
      ensures forall i :: k < i < count ==> !f(Contents()[i])
    {
      for i := count downto 0
        invariant forall j :: i <= j < count ==> !f(Contents()[j])
      {
        MaskIsSlot(head, i, buf.Length);
        if f(buf[BitAnd(head + i, buf.Length - 1)]) {
          return i;
        }
      }
      return -1;
    }

    /** Puts the element of one slot in another and clears the first. */
    method MoveElement(from: int, to: int)
      requires 0 <= from < buf.Length && 0 <= to < buf.Length
      modifies buf
      ensures buf[..] == old(buf[..])[to := old(buf[from])][from := zero]
    {
      buf[to] := buf[from];
      buf[from] := zero;
    }

    /** Rotates one step from front to back, in a buffer that is not full. */
    method RotateForward()
      requires Valid() && 1 < count < buf.Length
      modifies this`head, this`tail, buf
      ensures Valid() && Contents() == Rotated(old(Contents()), 1)
    {
      ghost var b := buf[..];
      ContentsAreRing();
      RingForward(b, head, count, zero);
      hide Ring, Rotated, BitAnd, IsPowerOfTwo;
      MoveElement(head, tail);
      MaskIsSlot(head, 1, buf.Length);
      MaskIsSlot(tail, 1, buf.Length);
      head := BitAnd(head + 1, buf.Length - 1);
      tail := BitAnd(tail + 1, buf.Length - 1);
      ContentsAreRing();
    }

    method BackToFront(newHead: int, newTail: int)
      requires Valid() && 1 < count < buf.Length
      requires newHead == (if head == 0 then buf.Length - 1 else head - 1) && newTail == Slot(head, count - 1, buf.Length)
      modifies this`head, this`tail, buf
      ensures Valid() && Contents() == Rotated(old(Contents()), count - 1)
    {
      ContentsAreRing();
      RingBackward(buf[..], head, count, zero);
      assert newTail == Slot(newHead, count, buf.Length);
      hide Ring, Rotated, IsPowerOfTwo, Slot;
      MoveElement(newTail, newHead);
      head, tail := newHead, newTail;
      ContentsAreRing();
    }

    /** Rotates one step from back to front, in a buffer that is not full. */
    method RotateBackward()
      requires Valid() && 1 < count < buf.Length
      modifies this`head, this`tail, buf
      ensures Valid() && Contents() == Rotated(old(Contents()), count - 1)
    {
      MaskIsPrevious(head, buf.Length);
      MaskIsPrevious(tail, buf.Length);
      BackToFront(BitAnd(head - 1, buf.Length - 1), BitAnd(tail - 1, buf.Length - 1));
    }

    method RotateSteps(steps: int)
      requires Valid() && 1 < count < buf.Length && -count < steps < count
      modifies this`head, this`tail, buf
      ensures Valid() && Contents() == Rotated(old(Contents()), if steps < 0 then steps + count else steps)
    {
      hide Rotated;
      ghost var s := Contents();
      var m := steps;
      if m < 0 {
        RotatedNone(s);
        while m < 0
          invariant steps <= m <= 0 && Valid()
          invariant Contents() == Rotated(s, count - (m - steps))
        {
          RotatedBackOnce(s, count - (m - steps));
          RotateBackward();
          m := m + 1;
        }
      } else {
        RotatedNone(s);
        while m > 0
          invariant 0 <= m <= steps && Valid()
          invariant Contents() == Rotated(s, steps - m)
        {
          RotatedOnce(s, steps - m);
          RotateForward();
          m := m - 1;
        }
      }
    }

    /** Moves `n` elements from the front to the back, or from the back to the front when `n` is
        negative; more than all of them is as good as the remainder. */
    method Rotate(n: int)
      requires Valid()
      modifies this`head, this`tail, buf
      ensures Valid()
      ensures Contents() == if count <= 1 then old(Contents()) else Rotated(old(Contents()), n % count)
    {
      hide Rotated;
      if count <= 1 {
        return;
      }
      var m := Remainder(n, count);
      RemainderIsModulus(n, count);
      if m == 0 {
        RotatedNone(Contents());
      } else if head == tail {
        RotateFull(m);
      } else {
        RotateSteps(m);
      }
    }

    method RotateFull(m: int)
      requires Valid() && count == buf.Length > 1 && -count < m < count
      modifies this`head, this`tail
      ensures Valid() && Contents() == Rotated(old(Contents()), if m < 0 then m + count else m)
    {
      ghost var k := if m < 0 then m + count else m;
      ghost var b, h := buf[..], head;
      ContentsAreRing();
      RingFull(b, h, k);
      hide Ring, Rotated, BitAnd, IsPowerOfTwo;
      MaskIsOffset(head, m, buf.Length);
      head := BitAnd(head + m, buf.Length - 1);
      assert head == Slot(h, k, |b|);
      hide Slot;
      tail := head;
      assert buf[..] == b;
      ContentsAreRing();
    }

    /** Exchanges element `i`, which is at position `p`, with the next one. */
    method SwapNext(p: int, ghost i: int)
      requires Valid() && 0 <= i < count - 1 && p == Slot(head, i, buf.Length)
      modifies buf
      ensures Valid() && Contents() == Swapped(old(Contents()), i)
    {
      var next := Next(p);
      buf[p], buf[next] := buf[next], buf[p];
    }

    /** Moves the element at position `p`, number `i`, towards the back. */
    method SwapTowardsBack(p: int, ghost i: int, steps: int, ghost others: seq<T>, ghost item: T)
      requires Valid() && 0 <= i && 0 <= steps && i + steps < count && p == Slot(head, i, buf.Length)
      requires |others| == count - 1 && Contents() == Inserted(others, i, item)
      modifies buf
      ensures Valid() && Contents() == Inserted(others, i + steps, item)
    {
      hide Inserted, Swapped;
      var at := p;
      for k := 0 to steps
        invariant Valid() && at == Slot(head, i + k, buf.Length) && Contents() == Inserted(others, i + k, item)
      {
        InsertedMoves(others, i + k, item);
        var next := Next(at);
        SwapNext(at, i + k);
        at := next;
      }
    }

    /** Moves the element at position `p`, number `i`, towards the front. */
    method SwapTowardsFront(p: int, ghost i: int, steps: int, ghost others: seq<T>, ghost item: T)
      requires Valid() && 0 <= steps <= i < count && p == Slot(head, i, buf.Length)
      requires |others| == count - 1 && Contents() == Inserted(others, i, item)
      modifies buf
      ensures Valid() && Contents() == Inserted(others, i - steps, item)
    {
      hide Inserted, Swapped;
      var at := p;
      for k := 0 to steps
        invariant Valid() && at == Slot(head, i - k, buf.Length) && Contents() == Inserted(others, i - k, item)
      {
        InsertedMoves(others, i - k - 1, item);
        var prev := Prev(at);
        SwapNext(prev, i - k - 1);
        at := prev;
      }
    }

    /** Inserts before element `at`, by pushing at the nearer end and swapping inwards. */
    method Insert(at: int, item: T)
      requires Valid() && 0 <= at <= count
      modifies this, buf
      ensures Valid() && Contents() == Inserted(old(Contents()), at, item)
      ensures buf == old(buf) || fresh(buf)
    {
      hide Inserted;
      ghost var s := Contents();
      InsertedAtEnds(s, item);
      if at * 2 < count {
        PushFront(item);
        SwapTowardsBack(head, 0, at, s, item);
      } else {
        var swaps := count - at;
        PushBack(item);
        var back := Prev(tail);
        SwapTowardsFront(back, |s|, swaps, s, item);
      }
    }

    /** Removes element `at`, by swapping it outwards to the nearer end and popping it there.  It
        undoes an insertion at the same place. */
    method Remove(at: int) returns (elem: T)
      requires Valid() && 0 <= at < count
      modifies this, buf
      ensures Valid() && elem == old(Contents())[at]
      ensures Contents() == old(Contents())[..at] + old(Contents())[at + 1..]
      ensures old(Contents()) == Inserted(Contents(), at, elem)
      ensures buf == old(buf) || fresh(buf)
    {
      ghost var s := Contents();
      ghost var item, others := s[at], s[..at] + s[at + 1..];
      assert s == Inserted(others, at, item);
      hide Inserted;
      InsertedAtEnds(others, item);
      MaskIsSlot(head, at, buf.Length);
      var rm := BitAnd(head + at, buf.Length - 1);
      if at * 2 < count {
        SwapTowardsFront(rm, at, at, others, item);
        elem := PopFront();
        SameHead(elem, Contents(), item, others);
      } else {
        SwapTowardsBack(rm, at, count - at - 1, others, item);
        elem := PopBack();
        SameLast(Contents(), elem, others, item);
      }
    }

    /** Sets the least capacity to a power of two. */
    method SetMinCapacity(exponent: nat)
      requires Valid()
      modifies this`minCap
      ensures Valid() && Contents() == old(Contents())
      ensures minCap == if PowerOfTwo(exponent) > MIN_CAPACITY then PowerOfTwo(exponent) else MIN_CAPACITY
    {
      PowerIsPower(exponent);
      minCap := if PowerOfTwo(exponent) > MIN_CAPACITY then PowerOfTwo(exponent) else MIN_CAPACITY;
    }
  }

  function PowerOfTwo(exponent: nat): nat {
    if exponent == 0 then 1 else 2 * PowerOfTwo(exponent - 1)
  }

  lemma {:induction false} PowerIsPower(exponent: nat)
    ensures IsPowerOfTwo(PowerOfTwo(exponent))
  {
    if exponent > 0 {
      PowerIsPower(exponent - 1);
    }
  }

  function Swapped<T>(s: seq<T>, i: nat): seq<T>
    requires i < |s| - 1
  {
    s[i := s[i + 1]][i + 1 := s[i]]
  }

  function Inserted<T>(s: seq<T>, at: nat, item: T): seq<T>
    requires at <= |s|
  {
    s[..at] + [item] + s[at..]
  }

  /** Swapping moves the inserted element one place, in either direction. */
  lemma InsertedMoves<T>(s: seq<T>, i: nat, item: T)
    requires i < |s|
    ensures Swapped(Inserted(s, i, item), i) == Inserted(s, i + 1, item)
    ensures Swapped(Inserted(s, i + 1, item), i) == Inserted(s, i, item)
  {
  }

  lemma SameHead<T>(a: T, s: seq<T>, b: T, t: seq<T>)
    requires [a] + s == [b] + t
    ensures a == b && s == t
  {
    assert ([a] + s)[0] == a && ([b] + t)[0] == b;
    assert ([a] + s)[1..] == s && ([b] + t)[1..] == t;
  }

  lemma SameLast<T>(s: seq<T>, a: T, t: seq<T>, b: T)
    requires s + [a] == t + [b]
    ensures a == b && s == t
  {
    assert |s + [a]| == |t + [b]|;
    assert (s + [a])[|s|] == a && (t + [b])[|t|] == b;
    assert (s + [a])[..|s|] == s && (t + [b])[..|t|] == t;
  }

  lemma InsertedAtEnds<T>(s: seq<T>, item: T)
    ensures Inserted(s, 0, item) == [item] + s && Inserted(s, |s|, item) == s + [item]
  {
  }

  lemma RemainderIsModulus(n: int, d: int)
    requires d > 0
    ensures -d < Remainder(n, d) < d
    ensures n % d == if Remainder(n, d) < 0 then Remainder(n, d) + d else Remainder(n, d)
  {
    if n < 0 {
      var q, r := (-n) / d, (-n) % d;
      assert n == -q * d - r by { assert -n == q * d + r; }
      if r == 0 {
        DivModUnique(n, d, -q, 0);
      } else {
        assert (-q - 1) * d == -q * d - d;
        DivModUnique(n, d, -q - 1, d - r);
      }
    }
  }
}
