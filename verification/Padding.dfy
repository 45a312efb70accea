/** The random padding of segments: how long it may be, and how it is generated. */
module Padding {
  import opened Bytes
  import opened Fragmentation

  const PRINTABLE_FIRST: byte := 0x20
  const PRINTABLE_LAST: byte := 0x7E

  /** The longest padding that a segment may get, given what padding it has already. */
  function MaxPaddingSize(mtu: int, isStream: bool, fragmentSize: nat, existing: nat): nat {
    if isStream then 255
    else
      var room := mtu - fragmentSize - PACKET_OVERHEAD;
      if room <= existing then 0 else Min(room - existing, 255)
  }

  /** A datagram with both paddings fits the MTU if its payload does, whatever lengths were chosen
      within the limits; and each length fits a byte. */
  lemma PaddingFits(mtu: int, payload: nat, prefix: nat, suffix: nat)
    requires payload <= mtu - PACKET_OVERHEAD
    requires prefix <= MaxPaddingSize(mtu, false, payload, 0) && suffix <= MaxPaddingSize(mtu, false, payload, prefix)
    ensures PACKET_OVERHEAD + payload + prefix + suffix <= mtu && prefix < 256 && suffix < 256
  {
  }

  /** And the limit leaves no room unused: one byte more would be too many for the datagram or for a byte. */
  lemma PaddingIsLargest(mtu: int, payload: nat, existing: nat)
    requires payload + existing <= mtu - PACKET_OVERHEAD
    ensures var n := MaxPaddingSize(mtu, false, payload, existing);
      88 + payload + existing + n <= mtu && (n == 255 || 88 + payload + existing + n == mtu)
  {
  }

  predicate IsPrintable(b: byte) {
    PRINTABLE_FIRST <= b <= PRINTABLE_LAST
  }

  /** Makes the bytes of [first, end) printable and leaves the others alone; `random` are new printable
      characters, should they be needed. */
  method ToPrintable(p: array<byte>, first: nat, end: nat, random: nat -> byte)
    requires first <= end <= p.Length && forall i :: IsPrintable(random(i))
    modifies p
    ensures forall i :: first <= i < end ==> IsPrintable(p[i])
    ensures forall i :: 0 <= i < p.Length && !(first <= i < end && !IsPrintable(old(p[i]))) ==> p[i] == old(p[i])
    ensures forall i :: first <= i < end && !IsPrintable(old(p[i])) ==>
      p[i] == if old(p[i]) >= 0xA0 && old(p[i]) != 0xFF then old(p[i]) - 0x80 else random(i)
  {
    for i := first to end
      invariant forall j :: first <= j < i ==> IsPrintable(p[j])
      invariant forall j :: 0 <= j < p.Length && !(first <= j < i && !IsPrintable(old(p[j]))) ==> p[j] == old(p[j])
      invariant forall j :: first <= j < i && !IsPrintable(old(p[j])) ==>
        p[j] == if old(p[j]) >= 0xA0 && old(p[j]) != 0xFF then old(p[j]) - 0x80 else random(j)
    {
      if !IsPrintable(p[i]) {
        if p[i] >= 0x80 && IsPrintable(p[i] - 0x80) {
          p[i] := p[i] - 0x80;
        } else {
          p[i] := random(i);
        }
      }
    }
  }

  /** Padding with a run of printable characters; `extra` and `begin` are the random choices. */
  method NewAsciiPadding(maxLen: nat, minRun: nat, extra: nat, begin: nat, noise: nat -> byte, random: nat -> byte)
      returns (p: array<byte>, ghost at: nat)
    requires minRun <= maxLen && extra <= maxLen - minRun
    requires forall i :: IsPrintable(random(i))
    ensures fresh(p) && minRun <= p.Length <= maxLen
    ensures at + minRun <= p.Length && forall i :: at <= i < at + minRun ==> IsPrintable(p[i])
    ensures p.Length == minRun + extra && at == if extra == 0 then 0 else begin % extra
    ensures forall i :: 0 <= i < p.Length && !(at <= i < at + minRun) ==> p[i] == noise(i)
  {
    var length := extra + minRun;
    p := new byte[length](i => noise(i));
    var beginIdx := 0;
    if length > minRun {
      beginIdx := begin % (length - minRun);
    }
    ToPrintable(p, beginIdx, beginIdx + minRun, random);
    at := beginIdx;
  }

  // ---------------------------------------------------------------------------------------------
  // Padding that shifts the balance of bits
  // ---------------------------------------------------------------------------------------------

  /** How many bits have the value. */
  function CountBits(bits: seq<bool>, value: bool): nat {
    if bits == [] then 0
    else CountBits(bits[..|bits| - 1], value) + if bits[|bits| - 1] == value then 1 else 0
  }

  lemma {:induction false} CountAfterSet(bits: seq<bool>, j: nat, value: bool)
    requires j < |bits|
    ensures CountBits(bits[j := value], value) == CountBits(bits, value) + if bits[j] == value then 0 else 1
    decreases |bits|
  {
    var init := bits[..|bits| - 1];
    if j < |init| {
      CountAfterSet(init, j, value);
      assert bits[j := value][..|bits| - 1] == init[j := value];
    } else {
      assert bits[j := value][..|bits| - 1] == init;
    }
  }

  lemma {:induction false} CountInUniform(bits: seq<bool>, value: bool)
    requires forall i :: 0 <= i < |bits| ==> bits[i] != value
    ensures CountBits(bits, value) == 0
  {
    if bits != [] {
      CountInUniform(bits[..|bits| - 1], value);
    }
  }

  /** One of the first `n` picks is bit `j`. */
  ghost predicate Picked(pick: nat -> nat, n: nat, length: nat, j: nat)
    requires length > 0
  {
    exists i: nat :: i < n && pick(i) % length == j
  }

  /** Padding made of the more likely bit with some bits of the less likely value, as bits: bit `k` of
      byte `i` is number `8 * i + k`.  `minBytes` and `wanted` are what the floating-point arithmetic
      asks for; whatever it asks for, the length stays within the limit, no index is out of range, exactly
      the bits that were picked get the less likely value, and they are no more than were wanted. */
  method NewEntropyPadding(maxLen: nat, minBytes: nat, wanted: int, lower: bool, extra: nat, pick: nat -> nat)
      returns (p: array<bool>)
    requires minBytes < maxLen ==> extra <= maxLen - minBytes
    ensures fresh(p) && p.Length == 8 * (if minBytes >= maxLen then maxLen else minBytes + extra) <= 8 * maxLen
    ensures CountBits(p[..], lower) <= Max(wanted, 0)
    ensures PickedHave(p[..], pick, Min(Max(wanted, 0), p.Length), lower)
  {
    hide CountBits, Picked;
    var length := if minBytes >= maxLen then maxLen else extra + minBytes;
    p := new bool[8 * length](_ => !lower);
    CountInUniform(p[..], lower);
    NonePicked(p[..], pick, lower);
    var flip := Min(Max(wanted, 0), 8 * length);
    for i := 0 to flip
      invariant CountBits(p[..], lower) <= i
      invariant PickedHave(p[..], pick, i, lower)
    {
      PickedOneMore(p[..], pick, i, lower);
      SetBit(p, pick(i) % p.Length, lower);
    }
  }

  /** Exactly the bits of the first `n` picks have the value. */
  ghost predicate PickedHave(bits: seq<bool>, pick: nat -> nat, n: nat, value: bool) {
    forall j :: 0 <= j < |bits| ==> (bits[j] == value <==> Picked(pick, n, |bits|, j))
  }

  lemma NonePicked(bits: seq<bool>, pick: nat -> nat, value: bool)
    requires forall i :: 0 <= i < |bits| ==> bits[i] != value
    ensures PickedHave(bits, pick, 0, value)
  {
  }

  lemma PickedOneMore(bits: seq<bool>, pick: nat -> nat, n: nat, value: bool)
    requires |bits| > 0 && PickedHave(bits, pick, n, value)
    ensures PickedHave(bits[pick(n) % |bits| := value], pick, n + 1, value)
  {
    var k := pick(n) % |bits|;
    var bits' := bits[k := value];
    forall j | 0 <= j < |bits'| ensures bits'[j] == value <==> Picked(pick, n + 1, |bits'|, j) {
      assert Picked(pick, n, |bits|, j) ==> Picked(pick, n + 1, |bits|, j);
      assert k == j ==> Picked(pick, n + 1, |bits|, j);
    }
  }

  /** Gives bit `j` the value, found as a byte index and a bit index. */
  method SetBit(p: array<bool>, j: nat, value: bool)
    requires j < p.Length && p.Length % 8 == 0
    modifies p
    ensures p[..] == old(p[..])[j := value]
    ensures CountBits(p[..], value) <= CountBits(old(p[..]), value) + 1
  {
    var byteIndex, bitIndex := j / 8, j % 8;
    CountAfterSet(p[..], j, value);
    p[8 * byteIndex + bitIndex] := value;
    assert p[..] == old(p[..])[j := value];
  }
}
