/** The format of segments on a packet connection: one self-contained datagram each. */
module PacketCodec {
  import opened Bytes
  import opened Ciphers
  import opened Metadata
  import opened Fragmentation
  import opened WireSegments
  import opened Padding

  const HEADER_LENGTH: nat := NONCE_SIZE + METADATA_LENGTH + OVERHEAD

  /** Metadata and payload are sealed under one nonce, which the datagram carries. */
  ghost function Datagram(aead: Aead, hash: Hash, key: bytes, user: bytes, x: Outgoing): bytes
    requires Sendable(x) && LongEnough(hash)
  {
    var nonce := WithHint(hash, user, x.random);
    nonce + aead.seal(key, nonce, Marshal(Stamped(x))) + x.prefix
    + (if x.segment.payload == [] then [] else aead.seal(key, nonce, x.segment.payload)) + x.suffix
  }

  /** `OutOfRange` is a slice beyond the end of the datagram, which Go does not permit. */
  datatype Parsed = Parsed(segment: Segment) | Rejected | OutOfRange

  /** The reader's buffer has 1500 bytes, so the 16-bit sum in the slice bound does not wrap around. */
  function PayloadOf(aead: Aead, key: bytes, nonce: bytes, m: Meta, remaining: bytes): Parsed {
    if m.payloadLen == 0 then
      if m.suffixLen != |remaining| then Rejected else Parsed(Segment(m, []))
    else if |remaining| < m.payloadLen + OVERHEAD then Rejected
    else
      var payload := aead.open(key, nonce, remaining[..m.payloadLen + OVERHEAD]);
      if payload.None? || m.payloadLen + OVERHEAD + m.suffixLen != |remaining| then Rejected
      else Parsed(Segment(m, payload.value))
  }

  function ParseBody(aead: Aead, key: bytes, nonce: bytes, m: Meta, remaining: bytes): Parsed {
    if m.SessionMeta? then PayloadOf(aead, key, nonce, m, remaining)
    else if m.prefixLen > |remaining| then OutOfRange
    else PayloadOf(aead, key, nonce, m, remaining[m.prefixLen..])
  }

  function Parse(aead: Aead, key: bytes, datagram: bytes, minute: uint32): Parsed {
    if |datagram| < HEADER_LENGTH then Rejected
    else
      var nonce := datagram[..NONCE_SIZE];
      var plain := aead.open(key, nonce, datagram[NONCE_SIZE..HEADER_LENGTH]);
      if plain.None? then Rejected
      else
        var m := Unmarshal(plain.value, minute);
        if m.None? then Rejected else ParseBody(aead, key, nonce, m.value, datagram[HEADER_LENGTH..])
  }

  lemma PayloadRoundTrip(aead: Aead, key: bytes, nonce: bytes, m: Meta, payload: bytes, suffix: bytes)
    requires Correct(aead) && m.payloadLen == |payload| && m.suffixLen == |suffix|
    ensures var body := if payload == [] then [] else aead.seal(key, nonce, payload);
      PayloadOf(aead, key, nonce, m, body + suffix) == Parsed(Segment(m, payload))
  {
    var body := if payload == [] then [] else aead.seal(key, nonce, payload);
    assert (body + suffix)[..|body|] == body;
    assert payload == [] ==> body + suffix == suffix;
  }

  lemma BodyRoundTrip(aead: Aead, key: bytes, nonce: bytes, x: Outgoing)
    requires Correct(aead) && Sendable(x)
    ensures var body := if x.segment.payload == [] then [] else aead.seal(key, nonce, x.segment.payload);
      ParseBody(aead, key, nonce, Stamped(x), x.prefix + (body + x.suffix)) == Parsed(Delivered(x))
  {
    hide PayloadOf;
    var body := if x.segment.payload == [] then [] else aead.seal(key, nonce, x.segment.payload);
    PayloadRoundTrip(aead, key, nonce, Stamped(x), x.segment.payload, x.suffix);
    assert (x.prefix + (body + x.suffix))[|x.prefix|..] == body + x.suffix;
    assert x.prefix == [] ==> x.prefix + (body + x.suffix) == body + x.suffix;
  }

  /** A datagram is parsed to the segment that it was made from, for any padding and any clocks that
      are close enough. */
  lemma DatagramRoundTrip(aead: Aead, hash: Hash, key: bytes, user: bytes, x: Outgoing, minute: uint32)
    requires Correct(aead) && LongEnough(hash) && Sendable(x) && WithinOneMinute(minute, x.minute)
    ensures var r := Parse(aead, key, Datagram(aead, hash, key, user, x), minute);
      r.Parsed? && Intact(x, r.segment)
  {
    DeliveredIsIntact(x);
    hide Unmarshal, Marshal, ParseBody, WithHint;
    var nonce := WithHint(hash, user, x.random);
    HintedLength(hash, user, x.random);
    var head := aead.seal(key, nonce, Marshal(Stamped(x)));
    var body := if x.segment.payload == [] then [] else aead.seal(key, nonce, x.segment.payload);
    var datagram := Datagram(aead, hash, key, user, x);
    var tail := x.prefix + (body + x.suffix);
    assert datagram == nonce + head + tail;
    HeaderParts(nonce, head, tail);
    UnmarshalUndoesMarshal(Stamped(x), minute);
    BodyRoundTrip(aead, key, nonce, x);
  }

  lemma HintedLength(hash: Hash, user: bytes, nonce: bytes)
    requires LongEnough(hash) && |nonce| == NONCE_SIZE
    ensures |WithHint(hash, user, nonce)| == NONCE_SIZE
  {
  }

  lemma HeaderParts(nonce: bytes, head: bytes, tail: bytes)
    requires |nonce| == NONCE_SIZE && |head| == METADATA_LENGTH + OVERHEAD
    ensures var datagram := nonce + head + tail;
      && datagram[..NONCE_SIZE] == nonce && datagram[NONCE_SIZE..HEADER_LENGTH] == head
      && datagram[HEADER_LENGTH..] == tail
  {
  }

  /** Where everything is in a datagram: the nonce, the metadata sealed under it, the first padding, the
      payload sealed under it if there is one, and the second padding. */
  lemma DatagramLayout(aead: Aead, hash: Hash, key: bytes, user: bytes, x: Outgoing)
    requires Correct(aead) && LongEnough(hash) && Sendable(x)
    ensures var d := Datagram(aead, hash, key, user, x);
      var sealed := if x.segment.payload == [] then 0 else |x.segment.payload| + 16;
      && |d| == 72 + |x.prefix| + sealed + |x.suffix|
      && d[..24] == WithHint(hash, user, x.random)
      && d[24..72] == aead.seal(key, d[..24], Marshal(Stamped(x)))
      && d[72..72 + |x.prefix|] == x.prefix
      && (sealed > 0 ==> d[72 + |x.prefix|..72 + |x.prefix| + sealed] == aead.seal(key, d[..24], x.segment.payload))
      && d[|d| - |x.suffix|..] == x.suffix
  {
    hide Marshal, WithHint, Stamped;
    HintedLength(hash, user, x.random);
    var nonce := WithHint(hash, user, x.random);
    var head := aead.seal(key, nonce, Marshal(Stamped(x)));
    var body := if x.segment.payload == [] then [] else aead.seal(key, nonce, x.segment.payload);
    var d := Datagram(aead, hash, key, user, x);
    assert d == nonce + head + x.prefix + body + x.suffix;
  }

  /** A full fragment without padding fills the MTU exactly. */
  lemma FullFragmentFillsMtu(aead: Aead, hash: Hash, key: bytes, user: bytes, x: Outgoing, mtu: int)
    requires Correct(aead) && LongEnough(hash) && Sendable(x) && 1280 <= mtu <= 1500
    requires |x.segment.payload| == MaxFragmentSize(mtu, false) && x.prefix == x.suffix == []
    ensures |Datagram(aead, hash, key, user, x)| == mtu
  {
    hide Marshal, WithHint, Stamped;
    DatagramLayout(aead, hash, key, user, x);
  }

  /** A datagram is parsed if and only if its metadata opens under the nonce that it carries and is accepted,
      its length is exactly what the metadata announces, and the payload opens in its place; the segment is
      then what was opened. */
  lemma ParsedExactly(aead: Aead, key: bytes, d: bytes, minute: uint32, m: Meta, payload: bytes)
    ensures Parse(aead, key, d, minute) == Parsed(Segment(m, payload)) <==>
      && |d| >= 72 && aead.open(key, d[..24], d[24..72]).Some?
      && Unmarshal(aead.open(key, d[..24], d[24..72]).value, minute) == Some(m)
      && var start := 72 + if m.DataMeta? then m.prefixLen else 0;
         if m.payloadLen == 0 then |d| == start + m.suffixLen && payload == []
         else
           var end := start + m.payloadLen + 16;
           |d| == end + m.suffixLen && aead.open(key, d[..24], d[start..end]) == Some(payload)
  {
    hide Unmarshal;
    if |d| >= 72 {
      var rest := d[72..];
      var prefix := if m.DataMeta? then m.prefixLen else 0;
      if |rest| >= prefix + m.payloadLen + 16 {
        assert rest[prefix..][..m.payloadLen + 16] == d[72 + prefix..72 + prefix + m.payloadLen + 16];
        assert rest[0..] == rest;
      }
    }
  }

  /** Every datagram fits the MTU: for every permitted MTU, every fragment that the writer makes or
      payload of an open request, and every padding within the limits. */
  lemma DatagramFitsMtu(aead: Aead, hash: Hash, key: bytes, user: bytes, x: Outgoing, mtu: int)
    requires Correct(aead) && LongEnough(hash) && Sendable(x) && 1280 <= mtu <= 1500
    requires |x.segment.payload| <= if x.segment.meta.SessionMeta? then MAX_OPEN_PAYLOAD else MaxFragmentSize(mtu, false)
    requires |x.prefix| <= MaxPaddingSize(mtu, false, |x.segment.payload|, 0)
    requires |x.suffix| <= MaxPaddingSize(mtu, false, |x.segment.payload|, |x.prefix|)
    ensures |Datagram(aead, hash, key, user, x)| <= mtu
  {
    hide Marshal, WithHint;
    HintedLength(hash, user, x.random);
    PaddingFits(mtu, |x.segment.payload|, |x.prefix|, |x.suffix|);
  }

  /** Parsing goes out of range exactly when genuine metadata announces more prefix padding than the
      datagram has bytes left. */
  lemma OutOfRangeExactly(aead: Aead, key: bytes, datagram: bytes, minute: uint32)
    ensures Parse(aead, key, datagram, minute).OutOfRange? <==>
      && |datagram| >= HEADER_LENGTH
      && var plain := aead.open(key, datagram[..NONCE_SIZE], datagram[NONCE_SIZE..HEADER_LENGTH]);
         && plain.Some? && Unmarshal(plain.value, minute).Some?
         && Unmarshal(plain.value, minute).value.DataMeta?
         && Unmarshal(plain.value, minute).value.prefixLen > |datagram| - HEADER_LENGTH
  {
    hide Unmarshal;
  }

  /** Such datagrams exist: the sealed metadata of any data segment with prefix padding, cut off where
      the padding should begin. */
  lemma CutOffPaddingIsOutOfRange(aead: Aead, key: bytes, nonce: bytes, m: Meta, minute: uint32)
    requires Correct(aead) && |nonce| == NONCE_SIZE && WellFormed(m) && WithinOneMinute(minute, m.timestamp)
    requires m.DataMeta? && m.prefixLen > 0
    ensures Parse(aead, key, nonce + aead.seal(key, nonce, Marshal(m)), minute).OutOfRange?
  {
    hide Unmarshal, Marshal;
    var head := aead.seal(key, nonce, Marshal(m));
    HeaderParts(nonce, head, []);
    assert nonce + head + [] == nonce + head;
    UnmarshalUndoesMarshal(m, minute);
  }

  /** But no datagram that a writer made is among them, whatever the reader's clock says. */
  lemma WrittenIsInRange(aead: Aead, hash: Hash, key: bytes, user: bytes, x: Outgoing, minute: uint32)
    requires Correct(aead) && LongEnough(hash) && Sendable(x)
    ensures !Parse(aead, key, Datagram(aead, hash, key, user, x), minute).OutOfRange?
  {
    hide Unmarshal, Marshal, ParseBody, WithHint;
    if WithinOneMinute(minute, x.minute) {
      DatagramRoundTrip(aead, hash, key, user, x, minute);
    } else {
      var nonce := WithHint(hash, user, x.random);
      HintedLength(hash, user, x.random);
      var head := aead.seal(key, nonce, Marshal(Stamped(x)));
      var body := if x.segment.payload == [] then [] else aead.seal(key, nonce, x.segment.payload);
      var tail := x.prefix + (body + x.suffix);
      assert Datagram(aead, hash, key, user, x) == nonce + head + tail;
      HeaderParts(nonce, head, tail);
      UnmarshalUndoesMarshal(Stamped(x), minute);
    }
  }

  /** Builds the datagram of one segment with a stateless cipher: the payload is sealed under the nonce
      that encrypting the metadata produced. */
  method WriteOneSegment(aead: Aead, hash: Hash, block: BlockCipher, x: Outgoing) returns (data: bytes)
    requires Sendable(x) && LongEnough(hash) && !block.implicit
    modifies block`nonce, block.nonce
    ensures data == Datagram(aead, hash, block.key, block.user, x)
    ensures block.View() == old(block.View())
  {
    hide Marshal, Stamped;
    ghost var nonce := WithHint(hash, block.user, x.random);
    HintedLength(hash, block.user, x.random);
    data := block.Encrypt(aead, hash, x.random, Marshal(Stamped(x)));
    var n := data[..NONCE_SIZE];
    assert n == nonce;
    data := data + x.prefix;
    if |x.segment.payload| > 0 {
      var body := block.EncryptWithNonce(aead, x.segment.payload, n);
      data := data + body.value;
    }
    data := data + x.suffix;
  }
}
