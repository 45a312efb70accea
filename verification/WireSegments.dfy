/** Segments as the underlays exchange them, and what the writer adds to them. */
module WireSegments {
  import opened Bytes
  import opened Ciphers
  import opened Metadata
  import opened Fragmentation

  datatype Segment = Segment(meta: Meta, payload: bytes)

  /** A segment to be written, with what chance and the clock add: the padding, the minute, and the
      random nonce should one be needed. */
  datatype Outgoing = Outgoing(segment: Segment, prefix: bytes, suffix: bytes, minute: uint32, random: bytes)

  /** What the callers of the writer guarantee. */
  predicate Sendable(x: Outgoing) {
    && WellFormed(x.segment.meta)
    && x.segment.meta.payloadLen == |x.segment.payload| <= MAX_PDU
    && |x.prefix| < 256 && |x.suffix| < 256 && |x.random| == NONCE_SIZE
    && (x.segment.meta.SessionMeta? ==> x.prefix == [])
  }

  /** The metadata as written: the writer fills in the padding lengths and the time. */
  function Stamped(x: Outgoing): Meta
    requires Sendable(x)
  {
    match x.segment.meta
    case SessionMeta(protocol, _, sessionID, sn, status, payloadLen, _) =>
      SessionMeta(protocol, x.minute, sessionID, sn, status, payloadLen, |x.suffix|)
    case DataMeta(protocol, _, sessionID, sn, unAck, window, fragment, _, payloadLen, _) =>
      DataMeta(protocol, x.minute, sessionID, sn, unAck, window, fragment, |x.prefix|, payloadLen, |x.suffix|)
  }

  /** The segment has arrived with everything that was given to the writer: the kind, every number and the
      payload, and with the time of writing and the lengths of the padding. */
  predicate Intact(x: Outgoing, s: Segment) {
    var m, m' := x.segment.meta, s.meta;
    && s.payload == x.segment.payload && m'.payloadLen == |x.segment.payload|
    && m'.protocol == m.protocol && m'.sessionID == m.sessionID && m'.sn == m.sn
    && m'.timestamp == x.minute && m'.suffixLen == |x.suffix|
    && m'.SessionMeta? == m.SessionMeta?
    && (m.SessionMeta? ==> m'.status == m.status)
    && (m.DataMeta? ==> m'.unAck == m.unAck && m'.window == m.window && m'.fragment == m.fragment && m'.prefixLen == |x.prefix|)
  }

  predicate AllIntact(xs: seq<Outgoing>, segments: seq<Segment>) {
    |segments| == |xs| && forall i :: 0 <= i < |xs| ==> Intact(xs[i], segments[i])
  }

  lemma DeliveredIsIntact(x: Outgoing)
    requires Sendable(x)
    ensures Intact(x, Delivered(x))
  {
  }

  /** The segment as the receiver is to see it. */
  function Delivered(x: Outgoing): Segment
    requires Sendable(x)
  {
    Segment(Stamped(x), x.segment.payload)
  }
}
