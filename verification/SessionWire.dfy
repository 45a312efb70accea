/** How a session's packets travel: the segment that a packet becomes on the wire, and that it comes out
    of the other end as the same packet. */
module SessionWire {
  import opened Bytes
  import opened Ciphers
  import opened Fragmentation
  import opened Metadata
  import opened Padding
  import opened PacketCodec
  import opened Writing
  import Arq
  import ArqSafety
  import Wire = WireSegments

  const OPEN_SESSION_RESPONSE: byte := 3
  const DATA_SERVER_TO_CLIENT: byte := 7
  const ACK_CLIENT_TO_SERVER: byte := 8

  /** The metadata that the session fills in; every number is cut to the width of its field. */
  function MetaOf(isClient: bool, sessionID: uint32, p: Arq.Packet): (m: Meta)
    ensures WellFormed(m)
  {
    match p
    case OpenPacket(sn, payload) =>
      SessionMeta(if isClient then OPEN_SESSION_REQUEST else OPEN_SESSION_RESPONSE, 0, sessionID, sn % 0x1_0000_0000, 0,
                  |payload| % 0x1_0000, 0)
    case DataPacket(sn, payload, unAck, window, fragment) =>
      DataMeta(if isClient then DATA_CLIENT_TO_SERVER else DATA_SERVER_TO_CLIENT, 0, sessionID, sn % 0x1_0000_0000,
               unAck % 0x1_0000_0000, window % 0x1_0000, fragment, 0, |payload| % 0x1_0000, 0)
    case AckPacket(sn, unAck, window) =>
      DataMeta(if isClient then ACK_CLIENT_TO_SERVER else ACK_SERVER_TO_CLIENT, 0, sessionID, sn % 0x1_0000_0000,
               unAck % 0x1_0000_0000, window % 0x1_0000, 0, 0, 0, 0)
  }

  /** The packet that the receiving session is handed. */
  function PacketOf(s: Wire.Segment): Arq.Packet {
    match s.meta
    case SessionMeta(_, _, _, sn, _, _, _) => Arq.OpenPacket(sn, s.payload)
    case DataMeta(protocol, _, _, sn, unAck, window, fragment, _, _, _) =>
      if protocol == DATA_CLIENT_TO_SERVER || protocol == DATA_SERVER_TO_CLIENT then
        Arq.DataPacket(sn, s.payload, unAck, window, fragment)
      else Arq.AckPacket(sn, unAck, window)
  }

  /** The number that the protocol gives to the kind of packet and its direction. */
  function ProtocolNumber(isClient: bool, p: Arq.Packet): byte {
    match p
    case OpenPacket(_, _) => if isClient then 2 else 3
    case DataPacket(_, _, _, _, _) => if isClient then 6 else 7
    case AckPacket(_, _, _) => if isClient then 8 else 9
  }

  /** The packet as it is given to the underlay, with what chance and the clock add. */
  function OutgoingOf(isClient: bool, sessionID: uint32, p: Arq.Packet, prefix: bytes, suffix: bytes,
                      minute: uint32, random: bytes): Wire.Outgoing {
    Wire.Outgoing(Wire.Segment(MetaOf(isClient, sessionID, p), Arq.SegmentPayload(p)), prefix, suffix, minute, random)
  }

  /** The packet's numbers fit their fields. */
  predicate FitsFields(p: Arq.Packet) {
    && p.sn < 0x1_0000_0000
    && (!p.OpenPacket? ==> p.unAck < 0x1_0000_0000 && p.window < 0x1_0000)
    && (!p.AckPacket? ==> |p.payload| <= MAX_PDU)
  }

  predicate PaddingAllowed(p: Arq.Packet, prefix: bytes, suffix: bytes) {
    |prefix| < 256 && |suffix| < 256 && (p.OpenPacket? ==> prefix == [])
  }

  lemma FieldsKeepTheirValues(isClient: bool, sessionID: uint32, p: Arq.Packet, prefix: bytes, suffix: bytes,
                              minute: uint32, random: bytes)
    requires FitsFields(p) && PaddingAllowed(p, prefix, suffix) && |random| == NONCE_SIZE
    ensures var x := OutgoingOf(isClient, sessionID, p, prefix, suffix, minute, random);
      && Wire.Sendable(x) && x.segment.meta.payloadLen == |Arq.SegmentPayload(p)|
      && forall s :: Wire.Intact(x, s) ==>
           PacketOf(s) == p && s.meta.sessionID == sessionID && s.meta.protocol == ProtocolNumber(isClient, p)
  {
  }

  /** A packet of a session arrives at the other session as it was sent, with every field intact, through
      encryption, padding and parsing. */
  lemma PacketArrives(aead: Aead, hash: Hash, key: bytes, user: bytes, isClient: bool, sessionID: uint32, p: Arq.Packet,
                      prefix: bytes, suffix: bytes, sentAt: uint32, readAt: uint32, random: bytes)
    requires Correct(aead) && LongEnough(hash) && WithinOneMinute(readAt, sentAt)
    requires FitsFields(p) && PaddingAllowed(p, prefix, suffix) && |random| == NONCE_SIZE
    ensures var x := OutgoingOf(isClient, sessionID, p, prefix, suffix, sentAt, random);
      && Wire.Sendable(x)
      && var r := Parse(aead, key, Datagram(aead, hash, key, user, x), readAt);
         && r.Parsed? && PacketOf(r.segment) == p && r.segment.meta.sessionID == sessionID
         && r.segment.meta.protocol == ProtocolNumber(isClient, p) && r.segment.meta.sn == p.sn
         && (p.OpenPacket? <==> r.segment.meta.SessionMeta?)
         && (!p.OpenPacket? ==> r.segment.meta.unAck == p.unAck && r.segment.meta.window == p.window)
         && (p.DataPacket? ==> r.segment.meta.fragment == p.fragment) && r.segment.payload == Arq.SegmentPayload(p)
  {
    hide Parse, Datagram;
    FieldsKeepTheirValues(isClient, sessionID, p, prefix, suffix, sentAt, random);
    DatagramRoundTrip(aead, hash, key, user, OutgoingOf(isClient, sessionID, p, prefix, suffix, sentAt, random), readAt);
  }

  /** The packet of every segment that a write in state `e` queues fits its fields, as long as sequence numbers do, and
      its datagram fits the MTU with the padding that the writer adds. */
  lemma WrittenSegmentTravels(aead: Aead, hash: Hash, key: bytes, user: bytes, isClient: bool, sessionID: uint32,
                              b: bytes, opening: bool, mtu: int, e: Arq.Endpoint, segment: Arq.Segment, sn: nat, unAck: nat,
                              prefix: bytes, suffix: bytes, minute: uint32, random: bytes)
    requires Correct(aead) && LongEnough(hash) && |random| == NONCE_SIZE
    requires 1280 <= mtu <= 1500 && MaxFragmentSize(mtu, false) > 0 && ArqSafety.SenderOk(e.tx)
    requires segment in WriteSegments(b, opening, MaxFragmentSize(mtu, false), Arq.ReceiveWindow(e))
    requires sn < 0x1_0000_0000 && unAck < 0x1_0000_0000 && (segment.isOpen ==> prefix == [])
    requires |prefix| <= MaxPaddingSize(mtu, false, |segment.payload|, 0)
    requires |suffix| <= MaxPaddingSize(mtu, false, |segment.payload|, |prefix|)
    ensures var p := Arq.Wire(sn, segment, unAck);
      && FitsFields(p) && PaddingAllowed(p, prefix, suffix)
      && var x := OutgoingOf(isClient, sessionID, p, prefix, suffix, minute, random);
         Wire.Sendable(x) && |Datagram(aead, hash, key, user, x)| <= mtu
  {
    WindowFits(e);
    WriteWithinLimits(b, opening, mtu, Arq.ReceiveWindow(e));
    hide WriteSegments, Datagram, ArqSafety.SenderOk;
    var p := Arq.Wire(sn, segment, unAck);
    FieldsKeepTheirValues(isClient, sessionID, p, prefix, suffix, minute, random);
    DatagramFitsMtu(aead, hash, key, user, OutgoingOf(isClient, sessionID, p, prefix, suffix, minute, random), mtu);
  }

  /** The window that a session offers fits its field. */
  lemma WindowFits(e: Arq.Endpoint)
    requires ArqSafety.SenderOk(e.tx)
    ensures Arq.ReceiveWindow(e) <= Arq.MAX_WINDOW < 0x1_0000
  {
  }
}
