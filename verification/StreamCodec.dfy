/** The format of segments on a stream connection: metadata, padding, payload and padding under a
    cipher whose nonce is sent once and counts the messages from then on. */
module StreamCodec {
  import opened Bytes
  import opened Ciphers
  import opened Metadata
  import opened WireSegments

  /** The cipher after writing a segment, and the bytes written. */
  ghost function Written(aead: Aead, hash: Hash, c: Cipher, x: Outgoing): (Cipher, bytes)
    requires Sendable(x) && LongEnough(hash)
  {
    var (c1, head) := Encrypted(aead, hash, c, x.random, Marshal(Stamped(x)));
    if x.segment.payload == [] then (c1, head + x.prefix + x.suffix)
    else
      var (c2, body) := Encrypted(aead, hash, c1, x.random, x.segment.payload);
      (c2, head + x.prefix + body + x.suffix)
  }

  datatype Error = Network | Crypto | Protocol | ReplayAttack

  datatype Reading = Received(segment: Segment, cipher: Cipher, rest: bytes) | Failed(error: Error)

  /** How many bytes the reader takes for a payload: a 16-bit sum, which wraps around. */
  function SealedLength(payloadLen: uint16): nat {
    (payloadLen + OVERHEAD) % 0x1_0000
  }

  /** The reader takes as many bytes as the writer wrote if and only if the sum fits 16 bits. */
  lemma SealedLengthExact(payloadLen: uint16)
    ensures SealedLength(payloadLen) == payloadLen + OVERHEAD <==> payloadLen <= 0xFFEF
  {
  }

  function HeaderLength(c: Cipher): nat {
    METADATA_LENGTH + OVERHEAD + if c.nonce == [] then NONCE_SIZE else 0
  }

  function PrefixLength(m: Meta): nat {
    if m.DataMeta? then m.prefixLen else 0
  }

  /** Reading what follows the metadata. */
  function ReadBody(aead: Aead, c: Cipher, m: Meta, input: bytes): Reading {
    var prefix := PrefixLength(m);
    if |input| < prefix then Failed(Network)
    else
      var afterPrefix := input[prefix..];
      var sealed := if m.payloadLen > 0 then SealedLength(m.payloadLen) else 0;
      if |afterPrefix| < sealed then Failed(Network)
      else
        var (c1, payload) := if m.payloadLen > 0 then Decrypted(aead, c, afterPrefix[..sealed]) else (c, Some([]));
        if payload.None? then Failed(Crypto)
        else
          var afterPayload := afterPrefix[sealed..];
          if |afterPayload| < m.suffixLen then Failed(Network)
          else Received(Segment(m, payload.value), c1, afterPayload[m.suffixLen..])
  }

  /** Reading one segment from the front of the input. */
  function Read(aead: Aead, c: Cipher, input: bytes, minute: uint32): Reading {
    var n := HeaderLength(c);
    if |input| < n then Failed(Network)
    else
      var (c1, plain) := Decrypted(aead, c, input[..n]);
      if plain.None? then Failed(Crypto)
      else
        var m := Unmarshal(plain.value, minute);
        if m.None? then Failed(Protocol)
        else ReadBody(aead, c1, m.value, input[n..])
  }

  // ---------------------------------------------------------------------------------------------
  // One segment
  // ---------------------------------------------------------------------------------------------

  lemma SplitFront(a: bytes, b: bytes)
    ensures (a + b)[..|a|] == a && (a + b)[|a|..] == b
  {
  }

  /** The reader finds the parts where the lengths in the metadata say they are. */
  lemma ReadBodyParts(aead: Aead, c: Cipher, m: Meta, prefix: bytes, sealed: bytes, suffix: bytes, rest: bytes)
    requires |prefix| == PrefixLength(m) && |suffix| == m.suffixLen
    requires |sealed| == if m.payloadLen > 0 then SealedLength(m.payloadLen) else 0
    ensures var (c1, payload) := if m.payloadLen > 0 then Decrypted(aead, c, sealed) else (c, Some([]));
      ReadBody(aead, c, m, prefix + (sealed + (suffix + rest))) ==
      if payload.None? then Failed(Crypto) else Received(Segment(m, payload.value), c1, rest)
  {
    hide Decrypted, SealedLength;
    SplitFront(prefix, sealed + (suffix + rest));
    SplitFront(sealed, suffix + rest);
    SplitFront(suffix, rest);
  }

  lemma BodyRoundTrip(aead: Aead, hash: Hash, a: Cipher, b: Cipher, x: Outgoing, rest: bytes)
    requires Correct(aead) && LongEnough(hash) && Sendable(x)
    requires Lockstep(a, b) && a.implicit && a.nonce != []
    ensures var (a', body) := if x.segment.payload == [] then (a, []) else Encrypted(aead, hash, a, x.random, x.segment.payload);
      var r := ReadBody(aead, b, Stamped(x), x.prefix + (body + (x.suffix + rest)));
      r.Received? && Intact(x, r.segment) && r.rest == rest && Lockstep(a', r.cipher)
  {
    hide Encrypted, Decrypted, ReadBody;
    DeliveredIsIntact(x);
    var payload := x.segment.payload;
    if payload == [] {
      ReadBodyParts(aead, b, Stamped(x), x.prefix, [], x.suffix, rest);
    } else {
      MessageKeepsLockstep(aead, hash, a, b, x.random, payload);
      var body := Encrypted(aead, hash, a, x.random, payload).1;
      SealedLengthExact(|payload|);
      ReadBodyParts(aead, b, Stamped(x), x.prefix, body, x.suffix, rest);
    }
  }

  /** A segment that was written is read back, the reader takes exactly the bytes that were written,
      and both ciphers stay in lockstep, whatever follows on the connection. */
  lemma SegmentRoundTrip(aead: Aead, hash: Hash, a: Cipher, b: Cipher, x: Outgoing, rest: bytes, minute: uint32)
    requires Correct(aead) && LongEnough(hash) && Sendable(x) && Lockstep(a, b) && a.implicit
    requires WithinOneMinute(minute, x.minute)
    ensures var (a', wire) := Written(aead, hash, a, x); var r := Read(aead, b, wire + rest, minute);
      r.Received? && Intact(x, r.segment) && r.rest == rest && Lockstep(a', r.cipher) && a'.implicit
  {
    hide Encrypted, Decrypted, Unmarshal, Marshal, ReadBody;
    var m := Stamped(x);
    var (a1, head) := Encrypted(aead, hash, a, x.random, Marshal(m));
    MessageKeepsLockstep(aead, hash, a, b, x.random, Marshal(m));
    EncryptedKeepsMode(aead, hash, a, x.random, Marshal(m));
    var (a2, body) := if x.segment.payload == [] then (a1, []) else Encrypted(aead, hash, a1, x.random, x.segment.payload);
    if x.segment.payload != [] {
      EncryptedKeepsMode(aead, hash, a1, x.random, x.segment.payload);
    }
    var tail := x.prefix + (body + (x.suffix + rest));
    assert Written(aead, hash, a, x).1 + rest == head + tail;
    SplitFront(head, tail);
    UnmarshalUndoesMarshal(m, minute);
    BodyRoundTrip(aead, hash, a1, Decrypted(aead, b, head).0, x, rest);
  }

  /** What follows the metadata, cut off anywhere, is waited for. */
  lemma BodyCutOff(aead: Aead, c: Cipher, m: Meta, prefix: bytes, sealed: bytes, suffix: bytes, n: nat)
    requires |prefix| == PrefixLength(m) && |suffix| == m.suffixLen && n < |prefix| + |sealed| + |suffix|
    requires |sealed| == if m.payloadLen > 0 then SealedLength(m.payloadLen) else 0
    requires m.payloadLen > 0 ==> Decrypted(aead, c, sealed).1.Some?
    ensures ReadBody(aead, c, m, (prefix + (sealed + suffix))[..n]) == Failed(Network)
  {
    hide Decrypted, SealedLength;
    var input := (prefix + (sealed + suffix))[..n];
    if n >= |prefix| + |sealed| {
      assert input[|prefix|..][..|sealed|] == sealed;
    }
  }

  /** A segment of which the last bytes have not arrived yet is not received: the reader waits for them. */
  lemma CutOffIsNotRead(aead: Aead, hash: Hash, a: Cipher, b: Cipher, x: Outgoing, n: nat, minute: uint32)
    requires Correct(aead) && LongEnough(hash) && Sendable(x) && Lockstep(a, b) && a.implicit
    requires WithinOneMinute(minute, x.minute) && n < |Written(aead, hash, a, x).1|
    ensures Read(aead, b, Written(aead, hash, a, x).1[..n], minute) == Failed(Network)
  {
    hide Encrypted, Decrypted, Unmarshal, Marshal, ReadBody;
    var m := Stamped(x);
    var (a1, head) := Encrypted(aead, hash, a, x.random, Marshal(m));
    var b1 := Decrypted(aead, b, head).0;
    MessageKeepsLockstep(aead, hash, a, b, x.random, Marshal(m));
    EncryptedKeepsMode(aead, hash, a, x.random, Marshal(m));
    var body := if x.segment.payload == [] then [] else Encrypted(aead, hash, a1, x.random, x.segment.payload).1;
    if x.segment.payload != [] {
      MessageKeepsLockstep(aead, hash, a1, b1, x.random, x.segment.payload);
      SealedLengthExact(|x.segment.payload|);
    }
    var tail := x.prefix + (body + x.suffix);
    assert Written(aead, hash, a, x).1 == head + tail;
    if n >= |head| {
      assert (head + tail)[..n] == head + tail[..n - |head|];
      SplitFront(head, tail[..n - |head|]);
      UnmarshalUndoesMarshal(m, minute);
      BodyCutOff(aead, b1, m, x.prefix, body, x.suffix, n - |head|);
    }
  }

  /** A genuine segment whose time is not about now is refused. */
  lemma WrongTimeIsRefused(aead: Aead, hash: Hash, a: Cipher, b: Cipher, x: Outgoing, rest: bytes, minute: uint32)
    requires Correct(aead) && LongEnough(hash) && Sendable(x) && Lockstep(a, b) && a.implicit
    requires !WithinOneMinute(minute, x.minute)
    ensures Read(aead, b, Written(aead, hash, a, x).1 + rest, minute) == Failed(Protocol)
  {
    hide Encrypted, Decrypted, Unmarshal, Marshal, ReadBody;
    var m := Stamped(x);
    var (a1, head) := Encrypted(aead, hash, a, x.random, Marshal(m));
    MessageKeepsLockstep(aead, hash, a, b, x.random, Marshal(m));
    var wire := Written(aead, hash, a, x).1 + rest;
    assert |wire| >= |head| && wire[..|head|] == head;
    UnmarshalUndoesMarshal(m, minute);
  }

  /** Once the connection has a nonce, bytes that do not open under the next one are refused in the place
      of the metadata, and in the place of the payload under the one after it. */
  lemma ForgedIsRefused(aead: Aead, hash: Hash, a: Cipher, b: Cipher, x: Outgoing, forged: bytes, rest: bytes,
                        minute: uint32)
    requires Correct(aead) && LongEnough(hash) && Sendable(x) && Lockstep(a, b) && a.implicit && |a.nonce| == NONCE_SIZE
    ensures |forged| == 48 && aead.open(a.key, NonceOf(a.nonce, 1), forged).None? ==>
      Read(aead, b, forged + rest, minute) == Failed(Crypto)
    ensures x.segment.payload != [] && |forged| == |x.segment.payload| + 16 && WithinOneMinute(minute, x.minute)
            && aead.open(a.key, NonceOf(a.nonce, 2), forged).None? ==>
      Read(aead, b, aead.seal(a.key, NonceOf(a.nonce, 1), Marshal(Stamped(x))) + (x.prefix + (forged + (x.suffix + rest))),
           minute) == Failed(Crypto)
  {
    hide Unmarshal, Marshal, ReadBody, Increased;
    assert NonceOf(a.nonce, 1) == Increased(a.nonce) && NonceOf(a.nonce, 2) == Increased(NonceOf(a.nonce, 1));
    SplitFront(forged, rest);
    var m, tail := Stamped(x), x.prefix + (forged + (x.suffix + rest));
    var head := aead.seal(a.key, NonceOf(a.nonce, 1), Marshal(m));
    SplitFront(head, tail);
    UnmarshalUndoesMarshal(m, minute);
    SealedLengthExact(|x.segment.payload|);
    if x.segment.payload != [] && |forged| == |x.segment.payload| + 16 {
      ReadBodyParts(aead, b.(nonce := Increased(b.nonce)), m, x.prefix, forged, x.suffix, rest);
    }
  }

  lemma EncryptedKeepsMode(aead: Aead, hash: Hash, a: Cipher, random: bytes, text: bytes)
    requires LongEnough(hash) && |random| == NONCE_SIZE
    ensures Encrypted(aead, hash, a, random, text).0.implicit == a.implicit
  {
  }

  // ---------------------------------------------------------------------------------------------
  // A whole connection
  // ---------------------------------------------------------------------------------------------

  ghost function WrittenAll(aead: Aead, hash: Hash, c: Cipher, xs: seq<Outgoing>): (Cipher, bytes)
    requires LongEnough(hash) && forall i :: 0 <= i < |xs| ==> Sendable(xs[i])
    decreases |xs|
  {
    if xs == [] then (c, [])
    else
      var (c1, first) := Written(aead, hash, c, xs[0]);
      var (c2, others) := WrittenAll(aead, hash, c1, xs[1..]);
      (c2, first + others)
  }

  /** Reads one segment for every minute given. */
  function ReadAll(aead: Aead, c: Cipher, input: bytes, minutes: seq<uint32>): Option<(seq<Segment>, Cipher, bytes)>
    decreases |minutes|
  {
    if minutes == [] then Some(([], c, input))
    else
      var r := Read(aead, c, input, minutes[0]);
      if r.Failed? then None
      else
        var others := ReadAll(aead, r.cipher, r.rest, minutes[1..]);
        if others.None? then None
        else Some(([r.segment] + others.value.0, others.value.1, others.value.2))
  }

  lemma {:induction false} WrittenAllSnoc(aead: Aead, hash: Hash, c: Cipher, xs: seq<Outgoing>, x: Outgoing)
    requires LongEnough(hash) && Sendable(x) && forall i :: 0 <= i < |xs| ==> Sendable(xs[i])
    ensures var (c1, wire) := WrittenAll(aead, hash, c, xs); var (c2, more) := Written(aead, hash, c1, x);
      WrittenAll(aead, hash, c, xs + [x]) == (c2, wire + more)
    decreases |xs|
  {
    hide Written, Sendable;
    if xs == [] {
      var (c1, more) := Written(aead, hash, c, x);
      assert xs + [x] == [x] && [x][1..] == [];
      assert WrittenAll(aead, hash, c1, [x][1..]) == (c1, []);
      assert more + [] == more && [] + more == more;
    } else {
      var (c1, first) := Written(aead, hash, c, xs[0]);
      var (c2, others) := WrittenAll(aead, hash, c1, xs[1..]);
      WrittenAllSnoc(aead, hash, c1, xs[1..], x);
      assert (xs + [x])[0] == xs[0] && (xs + [x])[1..] == xs[1..] + [x];
      assert (first + others) + Written(aead, hash, c2, x).1 == first + (others + Written(aead, hash, c2, x).1);
    }
  }

  /** Every list of segments is read back in order, for any padding and any clocks that are close
      enough; the reader takes exactly the bytes written, and both nonces end in lockstep. */
  lemma {:induction false} StreamRoundTrip(aead: Aead, hash: Hash, a: Cipher, b: Cipher, xs: seq<Outgoing>,
                                          minutes: seq<uint32>, rest: bytes)
    requires Correct(aead) && LongEnough(hash) && Lockstep(a, b) && a.implicit
    requires forall i :: 0 <= i < |xs| ==> Sendable(xs[i])
    requires |minutes| == |xs| && forall i :: 0 <= i < |xs| ==> WithinOneMinute(minutes[i], xs[i].minute)
    ensures var (a', wire) := WrittenAll(aead, hash, a, xs); var r := ReadAll(aead, b, wire + rest, minutes);
      r.Some? && AllIntact(xs, r.value.0) && r.value.2 == rest && Lockstep(a', r.value.1)
    decreases |xs|
  {
    hide Written, Read, Stamped, Sendable;
    if xs == [] {
      assert [] + rest == rest;
    } else {
      var (a1, first) := Written(aead, hash, a, xs[0]);
      var others := WrittenAll(aead, hash, a1, xs[1..]).1;
      SegmentRoundTrip(aead, hash, a, b, xs[0], others + rest, minutes[0]);
      assert (first + others) + rest == first + (others + rest);
      var r := Read(aead, b, first + (others + rest), minutes[0]);
      StreamRoundTrip(aead, hash, a1, r.cipher, xs[1..], minutes[1..], rest);
    }
  }

  /** The number of messages that the segments need: one for the metadata, one for a payload. */
  function Messages(xs: seq<Outgoing>): nat {
    if xs == [] then 0 else (if xs[0].segment.payload == [] then 1 else 2) + Messages(xs[1..])
  }

  lemma {:induction false} NonceOfSum(base: bytes, i: nat, j: nat)
    ensures NonceOf(NonceOf(base, i), j) == NonceOf(base, i + j)
    decreases j
  {
    if j > 0 {
      NonceOfSum(base, i, j - 1);
    }
  }

  lemma WrittenCounts(aead: Aead, hash: Hash, c: Cipher, x: Outgoing)
    requires LongEnough(hash) && Sendable(x) && c.implicit && |c.nonce| == NONCE_SIZE
    ensures var c' := Written(aead, hash, c, x).0;
      c' == c.(nonce := NonceOf(c.nonce, Messages([x])))
  {
    assert NonceOf(c.nonce, 1) == Increased(c.nonce);
    assert NonceOf(c.nonce, 2) == Increased(NonceOf(c.nonce, 1));
    assert Messages([x]) == (if x.segment.payload == [] then 1 else 2) + Messages([x][1..]);
  }

  /** Once there is a nonce, it counts the messages. */
  lemma {:induction false} LaterMessagesCounted(aead: Aead, hash: Hash, c: Cipher, xs: seq<Outgoing>)
    requires LongEnough(hash) && c.implicit && |c.nonce| == NONCE_SIZE
    requires forall i :: 0 <= i < |xs| ==> Sendable(xs[i])
    ensures WrittenAll(aead, hash, c, xs).0 == c.(nonce := NonceOf(c.nonce, Messages(xs)))
    decreases |xs|
  {
    hide Written, Sendable;
    if xs != [] {
      WrittenCounts(aead, hash, c, xs[0]);
      var c1 := Written(aead, hash, c, xs[0]).0;
      LaterMessagesCounted(aead, hash, c1, xs[1..]);
      assert Messages([xs[0]]) == (if xs[0].segment.payload == [] then 1 else 2) + Messages([xs[0]][1..]);
      NonceOfSum(c.nonce, Messages([xs[0]]), Messages(xs[1..]));
    }
  }

  /** The nonces under which the messages of a segment are sealed, by a cipher with an implicit nonce. */
  ghost function NoncesUsed(aead: Aead, hash: Hash, c: Cipher, x: Outgoing): seq<bytes>
    requires LongEnough(hash) && Sendable(x)
  {
    var c1 := Encrypted(aead, hash, c, x.random, Marshal(Stamped(x))).0;
    [c1.nonce] + if x.segment.payload == [] then [] else [Written(aead, hash, c, x).0.nonce]
  }

  ghost function AllNoncesUsed(aead: Aead, hash: Hash, c: Cipher, xs: seq<Outgoing>): seq<bytes>
    requires LongEnough(hash) && forall i :: 0 <= i < |xs| ==> Sendable(xs[i])
    decreases |xs|
  {
    if xs == [] then []
    else NoncesUsed(aead, hash, c, xs[0]) + AllNoncesUsed(aead, hash, Written(aead, hash, c, xs[0]).0, xs[1..])
  }

  lemma SegmentNonces(aead: Aead, hash: Hash, c: Cipher, x: Outgoing)
    requires LongEnough(hash) && Sendable(x) && c.implicit && |c.nonce| == NONCE_SIZE
    ensures var used := NoncesUsed(aead, hash, c, x);
      |used| == Messages([x]) && forall i :: 0 <= i < |used| ==> used[i] == NonceOf(c.nonce, i + 1)
  {
    assert NonceOf(c.nonce, 1) == Increased(c.nonce);
    assert NonceOf(c.nonce, 2) == Increased(NonceOf(c.nonce, 1));
    assert Messages([x]) == (if x.segment.payload == [] then 1 else 2) + Messages([x][1..]);
  }

  lemma {:induction false} LaterNonces(aead: Aead, hash: Hash, c: Cipher, xs: seq<Outgoing>)
    requires LongEnough(hash) && c.implicit && |c.nonce| == NONCE_SIZE
    requires forall i :: 0 <= i < |xs| ==> Sendable(xs[i])
    ensures var used := AllNoncesUsed(aead, hash, c, xs);
      |used| == Messages(xs) && forall i :: 0 <= i < |used| ==> used[i] == NonceOf(c.nonce, i + 1)
    decreases |xs|
  {
    hide Written, Sendable, NoncesUsed;
    if xs != [] {
      var c1 := Written(aead, hash, c, xs[0]).0;
      var first, others := NoncesUsed(aead, hash, c, xs[0]), AllNoncesUsed(aead, hash, c1, xs[1..]);
      SegmentNonces(aead, hash, c, xs[0]);
      WrittenCounts(aead, hash, c, xs[0]);
      LaterNonces(aead, hash, c1, xs[1..]);
      assert Messages([xs[0]]) == (if xs[0].segment.payload == [] then 1 else 2) + Messages([xs[0]][1..]);
      forall i | 0 <= i < |others| ensures others[i] == NonceOf(c.nonce, |first| + i + 1) {
        NonceOfSum(c.nonce, |first|, i + 1);
      }
    }
  }

  /** The nonce that a connection starts with, which its first segment carries. */
  function BaseNonce(hash: Hash, c: Cipher, x: Outgoing): bytes
    requires LongEnough(hash) && Sendable(x)
  {
    WithHint(hash, c.user, x.random)
  }

  /** The first message of a connection is sealed under the base nonce itself. */
  lemma FirstSegmentNonces(aead: Aead, hash: Hash, c: Cipher, x: Outgoing)
    requires LongEnough(hash) && Sendable(x) && c.implicit && c.nonce == []
    ensures var base, used := BaseNonce(hash, c, x), NoncesUsed(aead, hash, c, x);
      && |base| == NONCE_SIZE && |used| == (if x.segment.payload == [] then 1 else 2)
      && (forall i :: 0 <= i < |used| ==> used[i] == NonceOf(base, i))
      && Written(aead, hash, c, x).0 == c.(nonce := NonceOf(base, |used| - 1))
  {
    hide Marshal, Stamped, Increased;
    var base := BaseNonce(hash, c, x);
    assert NonceOf(base, 0) == base && NonceOf(base, 1) == Increased(NonceOf(base, 0));
  }

  /** Message `k` of a connection, counted from its very first, is sealed under the base nonce plus `k`. */
  lemma ConnectionNonces(aead: Aead, hash: Hash, c: Cipher, xs: seq<Outgoing>)
    requires LongEnough(hash) && c.implicit && c.nonce == []
    requires xs != [] && forall i :: 0 <= i < |xs| ==> Sendable(xs[i])
    ensures var base, used := BaseNonce(hash, c, xs[0]), AllNoncesUsed(aead, hash, c, xs);
      && |base| == NONCE_SIZE && |used| == Messages(xs)
      && (forall i :: 0 <= i < |used| ==> used[i] == NonceOf(base, i))
      && WrittenAll(aead, hash, c, xs).0 == c.(nonce := NonceOf(base, Messages(xs) - 1))
  {
    hide Written, Sendable, NoncesUsed, BaseNonce, NonceOf;
    var base, first := BaseNonce(hash, c, xs[0]), NoncesUsed(aead, hash, c, xs[0]);
    FirstSegmentNonces(aead, hash, c, xs[0]);
    var c1 := Written(aead, hash, c, xs[0]).0;
    var others := AllNoncesUsed(aead, hash, c1, xs[1..]);
    LaterNonces(aead, hash, c1, xs[1..]);
    LaterMessagesCounted(aead, hash, c1, xs[1..]);
    NonceOfSum(base, |first| - 1, Messages(xs[1..]));
    forall i | 0 <= i < |others| ensures others[i] == NonceOf(base, |first| + i) {
      NonceOfSum(base, |first| - 1, i + 1);
    }
  }

  /** The format of a connection after its nonce: every segment is the sealed metadata, the first padding, the
      sealed payload if there is one, and the second padding, and message `k` is sealed under nonce `k`. */
  ghost function Format(aead: Aead, key: bytes, base: bytes, k: nat, xs: seq<Outgoing>): bytes
    requires forall i :: 0 <= i < |xs| ==> Sendable(xs[i])
    decreases |xs|
  {
    if xs == [] then []
    else SegmentFormat(aead, key, base, k, xs[0]) + Format(aead, key, base, k + Messages([xs[0]]), xs[1..])
  }

  /** The format of one segment. */
  ghost function SegmentFormat(aead: Aead, key: bytes, base: bytes, k: nat, x: Outgoing): bytes
    requires Sendable(x)
  {
    aead.seal(key, NonceOf(base, k), Marshal(Stamped(x))) + x.prefix
    + (if x.segment.payload == [] then [] else aead.seal(key, NonceOf(base, k + 1), x.segment.payload)) + x.suffix
  }

  lemma SegmentIsFormatted(aead: Aead, hash: Hash, c: Cipher, base: bytes, k: nat, x: Outgoing)
    requires LongEnough(hash) && c.implicit && |base| == NONCE_SIZE && Sendable(x)
    requires c.nonce == NonceOf(base, k)
    ensures Written(aead, hash, c, x).1 == SegmentFormat(aead, c.key, base, k + 1, x)
    ensures Written(aead, hash, c, x).0 == c.(nonce := NonceOf(base, k + Messages([x])))
  {
    hide Marshal, Stamped, Increased;
    WrittenCounts(aead, hash, c, x);
    NonceOfSum(base, k, Messages([x]));
    assert NonceOf(base, k + 1) == Increased(NonceOf(base, k)) && NonceOf(base, k + 2) == Increased(NonceOf(base, k + 1));
    var first := aead.seal(c.key, NonceOf(base, k + 1), Marshal(Stamped(x))) + x.prefix;
    assert first + [] + x.suffix == first + x.suffix;
  }

  lemma FirstSegmentIsFormatted(aead: Aead, hash: Hash, c: Cipher, x: Outgoing)
    requires LongEnough(hash) && c.implicit && c.nonce == [] && Sendable(x)
    ensures var base := BaseNonce(hash, c, x);
      && |base| == NONCE_SIZE
      && Written(aead, hash, c, x).1 == base + SegmentFormat(aead, c.key, base, 0, x)
      && Written(aead, hash, c, x).0 == c.(nonce := NonceOf(base, Messages([x]) - 1))
  {
    hide Marshal, Stamped, Increased;
    FirstSegmentNonces(aead, hash, c, x);
    var base := BaseNonce(hash, c, x);
    assert NonceOf(base, 0) == base && NonceOf(base, 1) == Increased(NonceOf(base, 0));
    assert Messages([x]) == (if x.segment.payload == [] then 1 else 2) + Messages([x][1..]);
    var head := aead.seal(c.key, base, Marshal(Stamped(x)));
    if x.segment.payload == [] {
      assert base + head + x.prefix + x.suffix == base + (head + x.prefix + [] + x.suffix);
    } else {
      var body := aead.seal(c.key, NonceOf(base, 1), x.segment.payload);
      assert base + head + x.prefix + body + x.suffix == base + (head + x.prefix + body + x.suffix);
    }
  }

  lemma {:induction false} LaterFormat(aead: Aead, hash: Hash, c: Cipher, base: bytes, k: nat, xs: seq<Outgoing>)
    requires LongEnough(hash) && c.implicit && |base| == NONCE_SIZE && c.nonce == NonceOf(base, k)
    requires forall i :: 0 <= i < |xs| ==> Sendable(xs[i])
    ensures WrittenAll(aead, hash, c, xs).1 == Format(aead, c.key, base, k + 1, xs)
    decreases |xs|
  {
    hide Written, SegmentFormat, Sendable, NonceOf, Messages;
    if xs != [] {
      SegmentIsFormatted(aead, hash, c, base, k, xs[0]);
      LaterFormat(aead, hash, Written(aead, hash, c, xs[0]).0, base, k + Messages([xs[0]]), xs[1..]);
    }
  }

  /** The bytes of a connection are its first nonce and then its segments in that format. */
  lemma ConnectionFormat(aead: Aead, hash: Hash, c: Cipher, xs: seq<Outgoing>)
    requires LongEnough(hash) && c.implicit && c.nonce == []
    requires xs != [] && forall i :: 0 <= i < |xs| ==> Sendable(xs[i])
    ensures var base := BaseNonce(hash, c, xs[0]);
      WrittenAll(aead, hash, c, xs).1 == base + Format(aead, c.key, base, 0, xs)
  {
    hide Written, SegmentFormat, Sendable, NonceOf;
    var base := BaseNonce(hash, c, xs[0]);
    FirstSegmentIsFormatted(aead, hash, c, xs[0]);
    assert Messages([xs[0]]) > 0 by { assert [xs[0]] != []; }
    hide Messages;
    var c1 := Written(aead, hash, c, xs[0]).0;
    LaterFormat(aead, hash, c1, base, Messages([xs[0]]) - 1, xs[1..]);
    var first, others := SegmentFormat(aead, c.key, base, 0, xs[0]), WrittenAll(aead, hash, c1, xs[1..]).1;
    assert (base + first) + others == base + (first + others);
  }

  /** No two messages of a connection share a nonce, up to as many messages as there are nonces. */
  lemma NoNonceUsedTwice(aead: Aead, hash: Hash, c: Cipher, xs: seq<Outgoing>, i: nat, j: nat)
    requires LongEnough(hash) && c.implicit && c.nonce == []
    requires xs != [] && forall k :: 0 <= k < |xs| ==> Sendable(xs[k])
    requires i < j < |AllNoncesUsed(aead, hash, c, xs)| <= Power256(NONCE_SIZE)
    ensures AllNoncesUsed(aead, hash, c, xs)[i] != AllNoncesUsed(aead, hash, c, xs)[j]
  {
    hide AllNoncesUsed, NonceOf, Power256, Messages, Sendable, LongEnough, BaseNonce, WrittenAll;
    ConnectionNonces(aead, hash, c, xs);
    NoncesDistinct(BaseNonce(hash, c, xs[0]), i, j);
  }

  // ---------------------------------------------------------------------------------------------
  // The first segment at the server
  // ---------------------------------------------------------------------------------------------

  datatype Candidate = Candidate(user: bytes, key: bytes)

  /** The first key that opens the header, as a cipher that has seen no nonce yet. */
  function SelectCipher(aead: Aead, candidates: seq<Candidate>, header: bytes): Option<Cipher> {
    if candidates == [] then None
    else if Decrypted(aead, Cipher(candidates[0].key, false, [], []), header).1.Some? then
      Some(Cipher(candidates[0].key, true, [], candidates[0].user))
    else SelectCipher(aead, candidates[1..], header)
  }

  /** The server's first read: it finds the cipher and decrypts again with it, to pick up the nonce. */
  function FirstRead(aead: Aead, candidates: seq<Candidate>, input: bytes, minute: uint32, replayed: bool): Reading {
    var n := METADATA_LENGTH + OVERHEAD + NONCE_SIZE;
    if |input| < n then Failed(Network)
    else
      var c := SelectCipher(aead, candidates, input[..n]);
      if replayed then Failed(ReplayAttack)
      else if c.None? then Failed(Crypto)
      else Read(aead, c.value, input, minute)
  }

  lemma {:induction false} SelectFinds(aead: Aead, candidates: seq<Candidate>, header: bytes, key: bytes)
    requires exists i :: 0 <= i < |candidates| && candidates[i].key == key
    requires Decrypted(aead, Cipher(key, false, [], []), header).1.Some?
    requires forall i :: 0 <= i < |candidates| && candidates[i].key != key ==>
      Decrypted(aead, Cipher(candidates[i].key, false, [], []), header).1.None?
    ensures var c := SelectCipher(aead, candidates, header);
      c.Some? && c.value.key == key && c.value.implicit && c.value.nonce == []
    decreases |candidates|
  {
    if candidates[0].key != key {
      SelectFinds(aead, candidates[1..], header, key);
    }
  }

  /** A candidate is found if and only if some candidate's key opens the header, and it is the first of them. */
  lemma {:induction false} SelectIsFirst(aead: Aead, candidates: seq<Candidate>, header: bytes)
    requires |header| >= NONCE_SIZE
    ensures var c := SelectCipher(aead, candidates, header);
      && (c.Some? <==> exists i :: 0 <= i < |candidates| && Opens(aead, candidates[i], header))
      && (c.Some? ==> exists i :: 0 <= i < |candidates| && IsFirst(aead, candidates, i, header, c.value))
    decreases |candidates|
  {
    if candidates != [] && Opens(aead, candidates[0], header) {
      assert IsFirst(aead, candidates, 0, header, SelectCipher(aead, candidates, header).value);
    } else if candidates != [] {
      var rest, c := candidates[1..], SelectCipher(aead, candidates, header);
      SelectIsFirst(aead, rest, header);
      assert forall i :: 0 <= i < |rest| ==> candidates[i + 1] == rest[i];
      if c.Some? {
        var i :| 0 <= i < |rest| && IsFirst(aead, rest, i, header, c.value);
        assert candidates[..i + 1] == [candidates[0]] + rest[..i];
        assert IsFirst(aead, candidates, i + 1, header, c.value);
      }
    }
  }

  /** The candidate's key opens the rest of the header under the nonce at its front. */
  predicate Opens(aead: Aead, candidate: Candidate, header: bytes)
    requires |header| >= NONCE_SIZE
  {
    aead.open(candidate.key, header[..24], header[24..]).Some?
  }

  predicate IsFirst(aead: Aead, candidates: seq<Candidate>, i: nat, header: bytes, c: Cipher)
    requires |header| >= NONCE_SIZE && i < |candidates|
  {
    && Opens(aead, candidates[i], header) && NoneOpens(aead, candidates[..i], header)
    && c == Cipher(candidates[i].key, true, [], candidates[i].user)
  }

  predicate NoneOpens(aead: Aead, candidates: seq<Candidate>, header: bytes)
    requires |header| >= NONCE_SIZE
  {
    forall i :: 0 <= i < |candidates| ==> !Opens(aead, candidates[i], header)
  }

  /** The header of the client's first segment is opened by its own key and by no other candidate's. */
  ghost predicate OnlyOwnKeyOpens(aead: Aead, hash: Hash, a: Cipher, candidates: seq<Candidate>, x: Outgoing)
    requires LongEnough(hash) && Sendable(x)
  {
    && (exists i :: 0 <= i < |candidates| && candidates[i].key == a.key)
    && var header := Encrypted(aead, hash, a, x.random, Marshal(Stamped(x))).1;
       forall i :: 0 <= i < |candidates| && candidates[i].key != a.key ==>
         Decrypted(aead, Cipher(candidates[i].key, false, [], []), header).1.None?
  }

  /** A client's first segment is read by a server that knows the client's key, if no other key that
      it knows opens the header and the packet is not a replay; from then on the two are in lockstep. */
  lemma FirstSegmentRoundTrip(aead: Aead, hash: Hash, a: Cipher, candidates: seq<Candidate>, x: Outgoing,
                              rest: bytes, minute: uint32)
    requires Correct(aead) && LongEnough(hash) && Sendable(x) && WithinOneMinute(minute, x.minute)
    requires a.implicit && a.nonce == [] && OnlyOwnKeyOpens(aead, hash, a, candidates, x)
    ensures var (a', wire) := Written(aead, hash, a, x);
      var r := FirstRead(aead, candidates, wire + rest, minute, false);
      r.Received? && Intact(x, r.segment) && r.rest == rest && Lockstep(a', r.cipher) && a'.implicit
  {
    hide Unmarshal, Marshal, ReadBody, Read;
    var (a1, header) := Encrypted(aead, hash, a, x.random, Marshal(Stamped(x)));
    MessageKeepsLockstep(aead, hash, a, a, x.random, Marshal(Stamped(x)));
    HeaderComesFirst(aead, hash, a, x, rest);
    SelectFinds(aead, candidates, header, a.key);
    var c := SelectCipher(aead, candidates, header).value;
    SegmentRoundTrip(aead, hash, a, c, x, rest, minute);
  }

  /** A server reads a whole connection of a client: it finds the key with the first segment, and all
      segments come out as they went in. */
  lemma ServerRoundTrip(aead: Aead, hash: Hash, a: Cipher, candidates: seq<Candidate>, xs: seq<Outgoing>,
                        minutes: seq<uint32>, rest: bytes)
    requires Correct(aead) && LongEnough(hash) && a.implicit && a.nonce == []
    requires xs != [] && forall i :: 0 <= i < |xs| ==> Sendable(xs[i])
    requires |minutes| == |xs| && forall i :: 0 <= i < |xs| ==> WithinOneMinute(minutes[i], xs[i].minute)
    requires OnlyOwnKeyOpens(aead, hash, a, candidates, xs[0])
    ensures var (a', wire) := WrittenAll(aead, hash, a, xs);
      var first := FirstRead(aead, candidates, wire + rest, minutes[0], false);
      && first.Received?
      && var others := ReadAll(aead, first.cipher, first.rest, minutes[1..]);
         && others.Some? && AllIntact(xs, [first.segment] + others.value.0)
         && others.value.2 == rest && Lockstep(a', others.value.1)
  {
    hide Written, FirstRead, Stamped, Sendable, OnlyOwnKeyOpens, WithinOneMinute;
    var (a1, start) := Written(aead, hash, a, xs[0]);
    var others := WrittenAll(aead, hash, a1, xs[1..]).1;
    assert (start + others) + rest == start + (others + rest);
    FirstSegmentRoundTrip(aead, hash, a, candidates, xs[0], others + rest, minutes[0]);
    var first := FirstRead(aead, candidates, start + (others + rest), minutes[0], false);
    StreamRoundTrip(aead, hash, a1, first.cipher, xs[1..], minutes[1..], rest);
  }

  lemma HeaderComesFirst(aead: Aead, hash: Hash, a: Cipher, x: Outgoing, rest: bytes)
    requires Correct(aead) && LongEnough(hash) && Sendable(x) && a.implicit && a.nonce == []
    ensures var n := METADATA_LENGTH + OVERHEAD + NONCE_SIZE;
      var header := Encrypted(aead, hash, a, x.random, Marshal(Stamped(x))).1;
      var wire := Written(aead, hash, a, x).1 + rest;
      |wire| >= n && wire[..n] == header
  {
    hide Encrypted, Marshal, Stamped;
    var header := Encrypted(aead, hash, a, x.random, Marshal(Stamped(x))).1;
    MessageKeepsLockstep(aead, hash, a, a, x.random, Marshal(Stamped(x)));
    var wire := Written(aead, hash, a, x).1 + rest;
    assert |header| <= |wire| && wire[..|header|] == header;
  }

  // ---------------------------------------------------------------------------------------------
  // The underlay object
  // ---------------------------------------------------------------------------------------------

  /** What was written after `before` are pieces of a length within the limits, of which the last may be shorter. */
  ghost predicate CutBetween(before: seq<bytes>, writes: seq<bytes>, least: nat, most: nat) {
    && before <= writes
    && forall i :: |before| <= i < |writes| ==> 0 < |writes[i]| <= most && (i < |writes| - 1 ==> |writes[i]| >= least)
  }

  /** The data has been written in pieces up to where `remaining` begins. */
  ghost predicate InPieces(before: seq<bytes>, writes: seq<bytes>, data: bytes, remaining: bytes, least: nat,
                           most: nat) {
    && |remaining| <= |data| && remaining == data[|data| - |remaining|..]
    && Concat(writes) == Concat(before) + data[..|data| - |remaining|]
    && CutBetween(before, writes, least, most)
    && (|remaining| > 0 && |writes| > |before| ==> |writes[|writes| - 1]| >= least)
  }

  lemma PiecesBegin(writes: seq<bytes>, data: bytes, least: nat, most: nat)
    ensures InPieces(writes, writes, data, data, least, most)
  {
  }

  lemma PieceWritten(before: seq<bytes>, writes: seq<bytes>, data: bytes, remaining: bytes, least: nat, most: nat,
                     len: nat)
    requires InPieces(before, writes, data, remaining, least, most)
    requires 0 < len <= |remaining| && len <= most && (len >= least || len == |remaining|)
    ensures InPieces(before, writes + [remaining[..len]], data, remaining[len..], least, most)
  {
    hide Concat, CutBetween;
    ConcatSnoc(writes, remaining[..len]);
    NextPieceOf(data, |data| - |remaining|, len);
    OneMoreCut(before, writes, remaining[..len], least, most);
  }

  lemma PiecesEnd(before: seq<bytes>, writes: seq<bytes>, data: bytes, remaining: bytes, least: nat, most: nat)
    requires InPieces(before, writes, data, remaining, least, most) && remaining == []
    ensures Concat(writes) == Concat(before) + data && CutBetween(before, writes, least, most)
  {
    assert data[..|data|] == data;
  }

  lemma OneMoreCut(before: seq<bytes>, writes: seq<bytes>, piece: bytes, least: nat, most: nat)
    requires CutBetween(before, writes, least, most) && 0 < |piece| <= most
    requires |writes| > |before| ==> |writes[|writes| - 1]| >= least
    ensures CutBetween(before, writes + [piece], least, most)
  {
  }

  class StreamUnderlay {
    const isClient: bool
    const aead: Aead
    const hash: Hash
    const block: Cipher                // of a client
    const candidates: seq<Candidate>   // of a server: the keys of its users

    var send: Option<Cipher>
    var recv: Option<Cipher>
    var writes: seq<bytes>             // the arguments of the calls that wrote to the connection
    var input: bytes                   // what the peer wrote and was not read yet

    // the segments written so far, and the cipher before the first of them
    ghost var sent: seq<Outgoing>
    ghost var start: Option<Cipher>

    /** What is on the connection is what the segments written so far look like. */
    ghost predicate Valid()
      reads this
    {
      && LongEnough(hash) && block.implicit && block.nonce == []
      && (forall i :: 0 <= i < |sent| ==> Sendable(sent[i]))
      && (send.None? ==> sent == [] && Concat(writes) == [])
      && (send.Some? ==> start.Some? && WrittenAll(aead, hash, start.value, sent) == (send.value, Concat(writes)))
      && (start.Some? ==> start.value.implicit && start.value.nonce == [])
      && (isClient && start.Some? ==> start == Some(block))
      && (!isClient && start.Some? ==> recv.Some? && start.value.key == recv.value.key)
    }

    constructor (isClient: bool, aead: Aead, hash: Hash, block: Cipher, candidates: seq<Candidate>, input: bytes)
      requires LongEnough(hash) && block.implicit && block.nonce == []
      ensures Valid() && send.None? && recv.None? && writes == [] && sent == [] && this.input == input
      ensures this.isClient == isClient && this.aead == aead && this.hash == hash
      ensures this.block == block && this.candidates == candidates
    {
      this.isClient, this.aead, this.hash, this.block, this.candidates := isClient, aead, hash, block, candidates;
      send, recv, writes, this.input, sent, start := None, None, [], input, [], None;
    }

    /** The cipher that the next segment is written with: a clone made at the first write, which has
        inherited no nonce. */
    ghost function Sender(): Option<Cipher>
      reads this
    {
      if send.Some? then send
      else if isClient then Some(block)
      else if recv.Some? then Some(recv.value.(implicit := true, nonce := []))
      else None
    }

    /** A server cannot write before it has read. */
    method MaybeInitSend() returns (ok: bool)
      modifies this`send
      ensures ok <==> old(Sender()).Some?
      ensures send == old(Sender())
    {
      if send.Some? {
        return true;
      }
      if isClient {
        send := Some(block);
      } else if recv.Some? {
        send := Some(recv.value.(implicit := false, nonce := []));
        send := Some(send.value.(implicit := true));
      } else {
        return false;
      }
      return true;
    }

    /** Writes the data at once, or in several pieces of random lengths; `root` is the square root of
        the length as computed, and `pick` the random choices. */
    method WriteWithPossibleFragment(data: bytes, pieces: bool, root: nat, pick: nat -> nat)
      modifies this`writes
      ensures Concat(writes) == Concat(old(writes)) + data
      ensures !pieces ==> writes == old(writes) + [data]
      ensures pieces ==> CutBetween(old(writes), writes, root + 1, Max(root + 1, |data| / 2))
    {
      hide Concat, CutBetween, InPieces;
      if !pieces {
        ConcatSnoc(writes, data);
        writes := writes + [data];
        return;
      }
      var remaining := data;
      var minLen := root + 1;
      var maxLen := Max(minLen, |data| / 2);
      PiecesBegin(writes, data, minLen, maxLen);
      while |remaining| > 0
        invariant InPieces(old(writes), writes, data, remaining, minLen, maxLen)
        decreases |remaining|
      {
        var len := Min(pick(|remaining|) % (maxLen - minLen + 1) + minLen, |remaining|);
        PieceWritten(old(writes), writes, data, remaining, minLen, maxLen, len);
        writes := writes + [remaining[..len]];
        remaining := remaining[len..];
      }
      PiecesEnd(old(writes), writes, data, remaining, minLen, maxLen);
    }

    /** Writes one segment.  The bytes on the connection grow by exactly the segment's format. */
    method WriteOneSegment(x: Outgoing, pieces: bool, root: nat, pick: nat -> nat) returns (ok: bool)
      requires Valid() && Sendable(x)
      modifies this`send, this`writes, this`sent, this`start
      ensures Valid() && (ok <==> old(Sender()).Some?)
      ensures !ok ==> writes == old(writes) && send == old(send) && sent == old(sent)
      ensures ok ==> sent == old(sent) + [x]
      ensures ok ==> var (c, wire) := Written(aead, hash, old(Sender()).value, x);
        send == Some(c) && Concat(writes) == Concat(old(writes)) + wire
    {
      hide Encrypted, Marshal, Stamped, Written;
      ok := MaybeInitSend();
      if !ok {
        return;
      }
      if old(send).None? {
        start := send;
      }
      WrittenAllSnoc(aead, hash, start.value, sent, x);
      sent := sent + [x];
      var data := Seal(x);
      WriteWithPossibleFragment(data, pieces && x.segment.meta.SessionMeta?, root, pick);
    }

    /** Seals one segment with the send cipher. */
    method Seal(x: Outgoing) returns (data: bytes)
      requires LongEnough(hash) && Sendable(x) && send.Some?
      modifies this`send
      ensures (Some(Written(aead, hash, old(send).value, x).0), Written(aead, hash, old(send).value, x).1) == (send, data)
    {
      hide Encrypted, Marshal;
      var plain := Marshal(Stamped(x));
      var (c1, head) := Encrypted(aead, hash, send.value, x.random, plain);
      send := Some(c1);
      data := head + x.prefix;
      if |x.segment.payload| > 0 {
        var (c2, body) := Encrypted(aead, hash, send.value, x.random, x.segment.payload);
        send := Some(c2);
        data := data + body;
      }
      data := data + x.suffix;
    }

    /** What reading the next segment gives. */
    function NextReading(minute: uint32, replayed: bool): Reading
      reads this
    {
      if recv.Some? then Read(aead, recv.value, input, minute)
      else if isClient then Read(aead, block, input, minute)
      else FirstRead(aead, candidates, input, minute, replayed)
    }

    method TakeBytes(n: nat) returns (data: Option<bytes>)
      modifies this`input
      ensures |old(input)| < n ==> data.None?
      ensures |old(input)| >= n ==> data == Some(old(input)[..n]) && input == old(input)[n..]
    {
      if |input| < n {
        return None;
      }
      data := Some(input[..n]);
      input := input[n..];
    }

    /** Reads prefix padding, payload and suffix padding. */
    method ReadRest(m: Meta) returns (r: Reading)
      requires recv.Some?
      modifies this`recv, this`input
      ensures r == ReadBody(aead, old(recv).value, m, old(input))
      ensures r.Received? ==> recv == Some(r.cipher) && input == r.rest
      ensures recv.Some? && recv.value.key == old(recv).value.key
    {
      hide Decrypted;
      var prefix := TakeBytes(PrefixLength(m));
      if prefix.None? {
        return Failed(Network);
      }
      var payload: bytes := [];
      if m.payloadLen > 0 {
        var sealed := TakeBytes(SealedLength(m.payloadLen));
        if sealed.None? {
          return Failed(Network);
        }
        var (c, plain) := Decrypted(aead, recv.value, sealed.value);
        if plain.None? {
          return Failed(Crypto);
        }
        DecryptedKeepsKey(aead, recv.value, sealed.value);
        recv := Some(c);
        payload := plain.value;
      }
      var suffix := TakeBytes(m.suffixLen);
      if suffix.None? {
        return Failed(Network);
      }
      r := Received(Segment(m, payload), recv.value, input);
    }

    /** Reads one segment; `replayed` is what the replay cache says of the first bytes. */
    method ReadOneSegment(minute: uint32, replayed: bool) returns (r: Reading)
      requires Valid()
      modifies this`recv, this`input
      ensures Valid() && r == old(NextReading(minute, replayed))
      ensures isClient || old(recv).Some? ==>
        r == Read(aead, if old(recv).Some? then old(recv).value else block, old(input), minute)
      ensures replayed && !isClient && old(recv).None? ==> r == Failed(if |old(input)| < 72 then Network else ReplayAttack)
      ensures r.Received? ==> recv == Some(r.cipher) && input == r.rest
    {
      hide Decrypted, ReadBody, Unmarshal, Sendable, WrittenAll;
      var first := recv.None?;
      var start := if recv.Some? then recv.value else block;
      if first && !isClient {
        if |input| < METADATA_LENGTH + OVERHEAD + NONCE_SIZE {
          return Failed(Network);
        }
        var found := SelectCipher(aead, candidates, input[..METADATA_LENGTH + OVERHEAD + NONCE_SIZE]);
        if replayed {
          return Failed(ReplayAttack);
        }
        if found.None? {
          return Failed(Crypto);
        }
        start := found.value;
      }
      r := ReadWith(start, minute);
    }

    method ReadWith(start: Cipher, minute: uint32) returns (r: Reading)
      modifies this`recv, this`input
      ensures r == Read(aead, start, old(input), minute)
      ensures r.Received? ==> recv == Some(r.cipher) && input == r.rest
      ensures recv == old(recv) || (recv.Some? && recv.value.key == start.key)
    {
      hide Decrypted, ReadBody, Unmarshal;
      var header := TakeBytes(HeaderLength(start));
      if header.None? {
        return Failed(Network);
      }
      var (c, plain) := Decrypted(aead, start, header.value);
      if plain.None? {
        return Failed(Crypto);
      }
      DecryptedKeepsKey(aead, start, header.value);
      recv := Some(c);
      var m := Unmarshal(plain.value, minute);
      if m.None? {
        return Failed(Protocol);
      }
      r := ReadRest(m.value);
    }
  }

  /** From the two objects' point of view: whatever segments a client has written, however its writes
      were cut, a server that gets its bytes reads exactly those segments. */
  lemma ServerReadsClient(client: StreamUnderlay, candidates: seq<Candidate>, minutes: seq<uint32>, rest: bytes)
    requires client.Valid() && client.isClient && client.sent != [] && Correct(client.aead)
    requires |minutes| == |client.sent|
    requires forall i :: 0 <= i < |minutes| ==> WithinOneMinute(minutes[i], client.sent[i].minute)
    requires OnlyOwnKeyOpens(client.aead, client.hash, client.block, candidates, client.sent[0])
    ensures var first := FirstRead(client.aead, candidates, Concat(client.writes) + rest, minutes[0], false);
      && first.Received?
      && var others := ReadAll(client.aead, first.cipher, first.rest, minutes[1..]);
         others.Some? && AllIntact(client.sent, [first.segment] + others.value.0) && others.value.2 == rest
  {
    hide FirstRead, ReadAll, OnlyOwnKeyOpens, Sendable, WithinOneMinute;
    ServerRoundTrip(client.aead, client.hash, client.block, candidates, client.sent, minutes, rest);
  }

  lemma DecryptedKeepsKey(aead: Aead, c: Cipher, text: bytes)
    ensures Decrypted(aead, c, text).0.key == c.key
  {
  }

  /** And the other way: whatever a server has written, a client with its key reads exactly that. */
  lemma ClientReadsServer(server: StreamUnderlay, block: Cipher, minutes: seq<uint32>, rest: bytes)
    requires server.Valid() && !server.isClient && server.sent != [] && Correct(server.aead)
    requires block.implicit && block.nonce == [] && server.recv.value.key == block.key
    requires |minutes| == |server.sent|
    requires forall i :: 0 <= i < |minutes| ==> WithinOneMinute(minutes[i], server.sent[i].minute)
    ensures var r := ReadAll(server.aead, block, Concat(server.writes) + rest, minutes);
      r.Some? && AllIntact(server.sent, r.value.0) && r.value.2 == rest
  {
    hide ReadAll, Sendable, WithinOneMinute;
    StreamRoundTrip(server.aead, server.hash, server.start.value, block, server.sent, minutes, rest);
  }

  /** Of all the messages that an underlay has ever sealed, no two share a nonce. */
  lemma UnderlayNeverRepeatsNonce(u: StreamUnderlay, i: nat, j: nat)
    requires u.Valid() && u.sent != []
    requires i < j < |AllNoncesUsed(u.aead, u.hash, u.start.value, u.sent)| <= Power256(NONCE_SIZE)
    ensures var used := AllNoncesUsed(u.aead, u.hash, u.start.value, u.sent);
      used[i] != used[j] && used[i] == NonceOf(BaseNonce(u.hash, u.start.value, u.sent[0]), i)
  {
    hide AllNoncesUsed, NonceOf, Power256, Messages, Sendable, WrittenAll, BaseNonce;
    ConnectionNonces(u.aead, u.hash, u.start.value, u.sent);
    NoNonceUsedTwice(u.aead, u.hash, u.start.value, u.sent, i, j);
  }

  lemma NextPieceOf(data: bytes, at: nat, len: nat)
    requires at + len <= |data|
    ensures data[..at] + data[at..][..len] == data[..at + len]
    ensures data[at..][len..] == data[at + len..]
  {
  }
}
