/** The 32-byte metadata of a segment and its wire format. */
module Metadata {
  import opened Bytes
  import opened Ciphers
  import opened Fragmentation

  const METADATA_LENGTH: nat := 32

  const OPEN_SESSION_REQUEST: byte := 2
  const CLOSE_SESSION_RESPONSE: byte := 5
  const DATA_CLIENT_TO_SERVER: byte := 6
  const ACK_SERVER_TO_CLIENT: byte := 9

  type uint16 = x: int | 0 <= x < 0x1_0000
  type uint32 = x: int | 0 <= x < 0x1_0000_0000

  predicate IsSessionProtocol(p: byte) {
    OPEN_SESSION_REQUEST <= p <= CLOSE_SESSION_RESPONSE
  }

  predicate IsDataAckProtocol(p: byte) {
    DATA_CLIENT_TO_SERVER <= p <= ACK_SERVER_TO_CLIENT
  }

  /** The timestamp counts minutes; it is set when the metadata is written. */
  datatype Meta =
    | SessionMeta(protocol: byte, timestamp: uint32, sessionID: uint32, sn: uint32, status: byte,
                  payloadLen: uint16, suffixLen: byte)
    | DataMeta(protocol: byte, timestamp: uint32, sessionID: uint32, sn: uint32, unAck: uint32, window: uint16,
               fragment: byte, prefixLen: byte, payloadLen: uint16, suffixLen: byte)

  /** The kind of metadata is the one that its protocol stands for. */
  predicate WellFormed(m: Meta) {
    if m.SessionMeta? then IsSessionProtocol(m.protocol) else IsDataAckProtocol(m.protocol)
  }

  function U16(v: uint16): (s: bytes)
    ensures |s| == 2
  {
    BigEndian(v, 2)
  }

  function U32(v: uint32): (s: bytes)
    ensures |s| == 4
  {
    BigEndian(v, 4)
  }

  function Marshal(m: Meta): (s: bytes)
    ensures |s| == METADATA_LENGTH && s[0] == m.protocol
  {
    match m
    case SessionMeta(protocol, timestamp, sessionID, sn, status, payloadLen, suffixLen) =>
      [protocol, 0] + U32(timestamp) + U32(sessionID) + U32(sn) + [status] + U16(payloadLen) + [suffixLen]
      + seq(14, _ => 0)
    case DataMeta(protocol, timestamp, sessionID, sn, unAck, window, fragment, prefixLen, payloadLen, suffixLen) =>
      [protocol, 0] + U32(timestamp) + U32(sessionID) + U32(sn) + U32(unAck) + U16(window)
      + [fragment, prefixLen] + U16(payloadLen) + [suffixLen] + seq(7, _ => 0)
  }

  function ReadU16(s: bytes, at: nat): uint16
    requires at + 2 <= |s|
  {
    ValueFits(s[at..at + 2], 2);
    Value(s[at..at + 2])
  }

  function ReadU32(s: bytes, at: nat): uint32
    requires at + 4 <= |s|
  {
    ValueFits(s[at..at + 4], 4);
    Value(s[at..at + 4])
  }

  lemma ValueFits(s: bytes, n: nat)
    requires |s| == n && (n == 2 || n == 4)
    ensures Value(s) < if n == 2 then 0x1_0000 else 0x1_0000_0000
  {
    ValueBound(s);
    PowersOf256();
  }

  lemma PowersOf256()
    ensures Power256(2) == 0x1_0000 && Power256(4) == 0x1_0000_0000
  {
    assert Power256(1) == 256;
    assert Power256(2) == 256 * Power256(1);
    assert Power256(3) == 256 * Power256(2);
    assert Power256(4) == 256 * Power256(3);
  }

  // ---------------------------------------------------------------------------------------------
  // The timestamp check
  // ---------------------------------------------------------------------------------------------

  function Median(a: int, b: int, c: int): int {
    Max(Min(a, b), Min(Max(a, b), c))
  }

  /** Sorting three values by three exchanges and taking the middle one. */
  method Mid(a: int, b: int, c: int) returns (m: int)
    ensures m == Median(a, b, c)
  {
    var values := new int[3];
    values[0], values[1], values[2] := a, b, c;
    if values[0] > values[1] {
      values[0], values[1] := values[1], values[0];
    }
    if values[0] > values[2] {
      values[0], values[2] := values[2], values[0];
    }
    if values[1] > values[2] {
      values[1], values[2] := values[2], values[1];
    }
    m := values[1];
  }

  /** The receiver's minute is accepted if it lies between the sender's minute less one and plus one,
      computed with 32-bit wrap-around. */
  predicate WithinOneMinute(now: uint32, timestamp: uint32) {
    Median(now, (timestamp - 1) % 0x1_0000_0000, (timestamp + 1) % 0x1_0000_0000) == now
  }

  /** The check accepts exactly the neighbouring minutes, for every clock, if and only if the
      timestamp is neither the first nor the last of the 32-bit range. */
  lemma TimestampCheckExact(timestamp: uint32)
    ensures (forall now: uint32 :: WithinOneMinute(now, timestamp) <==> -1 <= now - timestamp <= 1)
       <==> 0 < timestamp < 0xFFFF_FFFF
  {
    if 0 < timestamp < 0xFFFF_FFFF {
      forall now: uint32 ensures WithinOneMinute(now, timestamp) <==> -1 <= now - timestamp <= 1 {
        TimestampCheckInside(timestamp, now);
      }
    } else {
      TimestampCheckAtEnds(timestamp);
    }
  }

  lemma TimestampCheckInside(timestamp: uint32, now: uint32)
    requires 0 < timestamp < 0xFFFF_FFFF
    ensures WithinOneMinute(now, timestamp) <==> -1 <= now - timestamp <= 1
  {
    assert (timestamp - 1) % 0x1_0000_0000 == timestamp - 1;
    assert (timestamp + 1) % 0x1_0000_0000 == timestamp + 1;
  }

  /** At the ends of the range, a sender and a receiver with equal clocks do not understand each
      other. */
  lemma TimestampCheckAtEnds(timestamp: uint32)
    requires timestamp == 0 || timestamp == 0xFFFF_FFFF
    ensures !WithinOneMinute(timestamp, timestamp)
  {
    if timestamp == 0 {
      assert (timestamp - 1) % 0x1_0000_0000 == 0xFFFF_FFFF && (timestamp + 1) % 0x1_0000_0000 == 1;
    } else {
      assert (timestamp - 1) % 0x1_0000_0000 == 0xFFFF_FFFE && (timestamp + 1) % 0x1_0000_0000 == 0;
    }
  }

  // ---------------------------------------------------------------------------------------------
  // Reading
  // ---------------------------------------------------------------------------------------------

  /** Reading into session metadata whose payload length was `before`.  The check against the largest
      open payload looks at that old value. */
  function UnmarshalSession(before: uint16, s: bytes, now: uint32): Option<Meta> {
    if |s| != METADATA_LENGTH then None
    else if !IsSessionProtocol(s[0]) then None
    else if !WithinOneMinute(now, ReadU32(s, 2)) then None
    else if before > MAX_OPEN_PAYLOAD then None
    else Some(SessionMeta(s[0], ReadU32(s, 2), ReadU32(s, 6), ReadU32(s, 10), s[14], ReadU16(s, 15), s[17]))
  }

  function UnmarshalData(s: bytes, now: uint32): Option<Meta> {
    if |s| != METADATA_LENGTH then None
    else if !IsDataAckProtocol(s[0]) then None
    else if !WithinOneMinute(now, ReadU32(s, 2)) then None
    else Some(DataMeta(s[0], ReadU32(s, 2), ReadU32(s, 6), ReadU32(s, 10), ReadU32(s, 14), ReadU16(s, 18),
                       s[20], s[21], ReadU16(s, 22), s[24]))
  }

  /** Reading as both underlays do it: the protocol number decides the kind, and the metadata that is
      read into is new, so its old payload length is zero. */
  function Unmarshal(s: bytes, now: uint32): Option<Meta> {
    if s == [] then None
    else if IsSessionProtocol(s[0]) then UnmarshalSession(0, s, now)
    else UnmarshalData(s, now)
  }

  lemma ReadsU16(s: bytes, at: nat, v: uint16)
    requires at + 2 <= |s| && s[at..at + 2] == U16(v)
    ensures ReadU16(s, at) == v
  {
    PowersOf256();
    BigEndianRoundTrip(v, 2);
  }

  lemma ReadsU32(s: bytes, at: nat, v: uint32)
    requires at + 4 <= |s| && s[at..at + 4] == U32(v)
    ensures ReadU32(s, at) == v
  {
    PowersOf256();
    BigEndianRoundTrip(v, 4);
  }

  lemma SessionFields(m: Meta)
    requires m.SessionMeta?
    ensures var s := Marshal(m);
      && ReadU32(s, 2) == m.timestamp && ReadU32(s, 6) == m.sessionID && ReadU32(s, 10) == m.sn
      && s[14] == m.status && ReadU16(s, 15) == m.payloadLen && s[17] == m.suffixLen
  {
    hide U16, U32, ReadU16, ReadU32;
    var s := Marshal(m);
    assert s[2..6] == U32(m.timestamp);
    assert s[6..10] == U32(m.sessionID);
    assert s[10..14] == U32(m.sn);
    assert s[15..17] == U16(m.payloadLen);
    ReadsU32(s, 2, m.timestamp);
    ReadsU32(s, 6, m.sessionID);
    ReadsU32(s, 10, m.sn);
    ReadsU16(s, 15, m.payloadLen);
  }

  lemma DataFields(m: Meta)
    requires m.DataMeta?
    ensures var s := Marshal(m);
      && ReadU32(s, 2) == m.timestamp && ReadU32(s, 6) == m.sessionID && ReadU32(s, 10) == m.sn
      && ReadU32(s, 14) == m.unAck && ReadU16(s, 18) == m.window && s[20] == m.fragment && s[21] == m.prefixLen
      && ReadU16(s, 22) == m.payloadLen && s[24] == m.suffixLen
  {
    hide U16, U32, ReadU16, ReadU32;
    var s := Marshal(m);
    assert s[2..6] == U32(m.timestamp);
    assert s[6..10] == U32(m.sessionID);
    assert s[10..14] == U32(m.sn);
    assert s[14..18] == U32(m.unAck);
    assert s[18..20] == U16(m.window);
    assert s[22..24] == U16(m.payloadLen);
    ReadsU32(s, 2, m.timestamp);
    ReadsU32(s, 6, m.sessionID);
    ReadsU32(s, 10, m.sn);
    ReadsU32(s, 14, m.unAck);
    ReadsU16(s, 18, m.window);
    ReadsU16(s, 22, m.payloadLen);
  }

  /** The number at a position, most significant byte first. */
  function Number16(s: bytes, at: nat): nat
    requires at + 2 <= |s|
  {
    (s[at] as int) * 256 + s[at + 1]
  }

  function Number32(s: bytes, at: nat): nat
    requires at + 4 <= |s|
  {
    (s[at] as int) * 0x100_0000 + (s[at + 1] as int) * 0x1_0000 + (s[at + 2] as int) * 0x100 + s[at + 3]
  }

  /** The bytes spell the metadata: every field is where the format has it. */
  predicate Spells(s: bytes, m: Meta) {
    && |s| == 32 && s[0] == m.protocol
    && Number32(s, 2) == m.timestamp && Number32(s, 6) == m.sessionID && Number32(s, 10) == m.sn
    && (m.SessionMeta? ==> 2 <= s[0] <= 5 && s[14] == m.status && Number16(s, 15) == m.payloadLen && s[17] == m.suffixLen)
    && (m.DataMeta? ==>
          && 6 <= s[0] <= 9 && Number32(s, 14) == m.unAck && Number16(s, 18) == m.window && s[20] == m.fragment
          && s[21] == m.prefixLen && Number16(s, 22) == m.payloadLen && s[24] == m.suffixLen)
  }

  lemma ReadIsNumber16(s: bytes, at: nat)
    requires at + 2 <= |s|
    ensures ReadU16(s, at) == Number16(s, at)
  {
    var t := s[at..at + 2];
    assert t[..1][..0] == [];
    assert Value(t[..1]) == Value(t[..1][..0]) * 256 + t[0];
  }

  /** A 16-bit number is written as its quotient and its remainder by 256. */
  lemma U16Bytes(v: uint16)
    ensures U16(v) == [v / 256, v % 256]
  {
    assert BigEndian(v / 256, 1) == BigEndian(v / 256 / 256, 0) + [v / 256 % 256];
  }

  lemma ReadIsNumber32(s: bytes, at: nat)
    requires at + 4 <= |s|
    ensures ReadU32(s, at) == Number32(s, at)
  {
    var t := s[at..at + 4];
    assert t[..1][..0] == [] && t[..2][..1] == t[..1] && t[..3][..2] == t[..2];
    assert Value(t[..1]) == Value(t[..1][..0]) * 256 + t[0];
    assert Value(t[..2]) == Value(t[..1]) * 256 + t[1];
    assert Value(t[..3]) == Value(t[..2]) * 256 + t[2];
  }

  lemma ReadsAreNumbers(s: bytes)
    requires |s| == 32
    ensures ReadU32(s, 2) == Number32(s, 2) && ReadU32(s, 6) == Number32(s, 6) && ReadU32(s, 10) == Number32(s, 10)
    ensures ReadU32(s, 14) == Number32(s, 14) && ReadU16(s, 15) == Number16(s, 15) && ReadU16(s, 18) == Number16(s, 18)
    ensures ReadU16(s, 22) == Number16(s, 22)
  {
    hide ReadU16, ReadU32, Number16, Number32;
    ReadIsNumber32(s, 2);
    ReadIsNumber32(s, 6);
    ReadIsNumber32(s, 10);
    ReadIsNumber32(s, 14);
    ReadIsNumber16(s, 15);
    ReadIsNumber16(s, 18);
    ReadIsNumber16(s, 22);
  }

  /** What is written spells the metadata, and the bytes without a meaning are zero. */
  lemma MarshalSpells(m: Meta)
    requires WellFormed(m)
    ensures var s := Marshal(m);
      && Spells(s, m) && s[1] == 0
      && forall i :: (if m.SessionMeta? then 18 else 25) <= i < 32 ==> s[i] == 0
  {
    var s := Marshal(m);
    assert s[1] == 0 && forall i :: (if m.SessionMeta? then 18 else 25) <= i < 32 ==> s[i] == 0;
    if m.SessionMeta? {
      SessionFields(m);
    } else {
      DataFields(m);
    }
    hide Marshal, ReadU16, ReadU32, Number16, Number32;
    ReadsAreNumbers(s);
  }

  /** Reading accepts exactly 32 bytes with a known protocol number and a timestamp of about now, and gives
      the metadata that they spell. */
  lemma UnmarshalExactly(s: bytes, now: uint32)
    ensures Unmarshal(s, now).Some? <==>
      |s| == 32 && 2 <= s[0] <= 9 && WithinOneMinute(now, TimestampIn(s))
    ensures Unmarshal(s, now).Some? ==> Spells(s, Unmarshal(s, now).value)
  {
    if |s| == 32 {
      ReadsAreNumbers(s);
    }
    hide ReadU16, ReadU32, Number16, Number32, WithinOneMinute;
  }

  /** The timestamp in the bytes. */
  function TimestampIn(s: bytes): uint32 {
    if |s| == 32 then Number32(s, 2) else 0
  }

  /** Reading undoes writing, for every metadata and every clock that the timestamp check accepts;
      any other clock makes the reader refuse it. */
  lemma UnmarshalUndoesMarshal(m: Meta, now: uint32)
    requires WellFormed(m)
    ensures Unmarshal(Marshal(m), now) == if WithinOneMinute(now, m.timestamp) then Some(m) else None
  {
    if m.SessionMeta? {
      SessionFields(m);
    } else {
      DataFields(m);
    }
  }

  /** Whatever is read has the kind that its protocol stands for. */
  lemma UnmarshalWellFormed(s: bytes, now: uint32)
    requires Unmarshal(s, now).Some?
    ensures WellFormed(Unmarshal(s, now).value) && Unmarshal(s, now).value.protocol == s[0]
  {
  }

  ghost predicate LimitKept(before: uint16, s: bytes, now: uint32) {
    var r := UnmarshalSession(before, s, now);
    r.Some? ==> r.value.payloadLen <= MAX_OPEN_PAYLOAD
  }

  /** The limit on the open payload holds of everything that is accepted if and only if the metadata
      read into announced too much before, and then nothing is accepted at all.  New metadata, which
      both underlays read into, accepts every payload length. */
  lemma OpenPayloadLimitNotEnforced(before: uint16)
    ensures (forall s, now :: LimitKept(before, s, now)) <==> before > MAX_OPEN_PAYLOAD
    ensures before > MAX_OPEN_PAYLOAD ==> forall s, now :: UnmarshalSession(before, s, now).None?
    ensures before <= MAX_OPEN_PAYLOAD ==>
      forall m: Meta, now :: m.SessionMeta? && WellFormed(m) && WithinOneMinute(now, m.timestamp) ==>
        UnmarshalSession(before, Marshal(m), now) == Some(m)
  {
    if before <= MAX_OPEN_PAYLOAD {
      var m := SessionMeta(OPEN_SESSION_REQUEST, 1, 0, 0, 0, MAX_OPEN_PAYLOAD + 1, 0);
      TimestampCheckInside(1, 1);
      SessionFields(m);
      assert !LimitKept(before, Marshal(m), 1);
      forall m: Meta, now: uint32 | m.SessionMeta? && WellFormed(m) && WithinOneMinute(now, m.timestamp)
        ensures UnmarshalSession(before, Marshal(m), now) == Some(m)
      {
        SessionFields(m);
      }
    }
  }
}
