/** Packets over a stream: each is wrapped in markers and its length, so that its borders survive. */
module Tunnel {
  import opened Bytes
  import opened Metadata

  const MAX_PACKET: nat := 65535

  function Frame(packet: bytes): bytes
    requires |packet| <= MAX_PACKET
  {
    [0x00] + U16(|packet|) + packet + [0xff]
  }

  datatype Outcome = Packet(packet: bytes, rest: bytes) | ShortBuffer | Malformed | Ended

  /** Reading a packet into a buffer of the given size. */
  function Unframe(input: bytes, size: nat): Outcome {
    if |input| < 1 then Ended
    else if input[0] != 0x00 then Malformed
    else if |input| < 3 then Ended
    else
      var length := ReadU16(input, 1);
      if length > size then ShortBuffer
      else if |input| < 3 + length + 1 then Ended
      else if input[3 + length] != 0xff then Malformed
      else Packet(input[3..3 + length], input[4 + length..])
  }

  /** A framed packet is read back if and only if the buffer is large enough for it. */
  lemma FrameRoundTrip(packet: bytes, rest: bytes, size: nat)
    requires |packet| <= MAX_PACKET
    ensures Unframe(Frame(packet) + rest, size) == if |packet| <= size then Packet(packet, rest) else ShortBuffer
  {
    hide U16, ReadU16;
    var input := Frame(packet) + rest;
    assert input[1..3] == U16(|packet|);
    ReadsU16(input, 1, |packet|);
    assert input[3..3 + |packet|] == packet && input[3 + |packet|] == 0xff && input[4 + |packet|..] == rest;
  }

  /** A packet is read exactly from input that begins with its frame: the first marker, the length with its high
      byte first, the packet and the second marker. */
  lemma UnframeExactly(input: bytes, size: nat, packet: bytes, rest: bytes)
    ensures Unframe(input, size) == Packet(packet, rest) <==>
      && |packet| <= size && |packet| <= 65535
      && input == [0x00, |packet| / 256, |packet| % 256] + packet + [0xff] + rest
  {
    if |packet| <= 65535 && input == [0x00, |packet| / 256, |packet| % 256] + packet + [0xff] + rest {
      U16Bytes(|packet|);
      assert Frame(packet) == [0x00, |packet| / 256, |packet| % 256] + packet + [0xff];
      FrameRoundTrip(packet, rest, size);
    }
    if Unframe(input, size) == Packet(packet, rest) {
      ReadIsNumber16(input, 1);
      hide ReadU16;
      var n := |packet|;
      assert input[..3] == [0x00, n / 256, n % 256];
      assert input == input[..3] + input[3..3 + n] + [input[3 + n]] + input[4 + n..];
    }
  }

  /** A frame of which the last bytes have not arrived yet is waited for, and one with a wrong marker refused. */
  lemma BrokenFrames(packet: bytes, size: nat, n: nat, marker: byte, rest: bytes)
    requires |packet| <= MAX_PACKET && |packet| <= size
    ensures n < |Frame(packet)| ==> Unframe(Frame(packet)[..n], size) == Ended
    ensures marker != 0x00 ==> Unframe([marker] + Frame(packet)[1..] + rest, size) == Malformed
    ensures marker != 0xff ==> Unframe(Frame(packet)[..|packet| + 3] + [marker] + rest, size) == Malformed
  {
    hide U16, ReadU16;
    var frame := Frame(packet);
    if 3 <= n < |frame| {
      assert frame[..n][1..3] == U16(|packet|);
      ReadsU16(frame[..n], 1, |packet|);
    }
    var other := frame[..|packet| + 3] + [marker] + rest;
    assert other[1..3] == U16(|packet|);
    ReadsU16(other, 1, |packet|);
  }

  function Frames(packets: seq<bytes>): bytes
    requires forall i :: 0 <= i < |packets| ==> |packets[i]| <= MAX_PACKET
  {
    if packets == [] then [] else Frame(packets[0]) + Frames(packets[1..])
  }

  function UnframeAll(input: bytes, size: nat, n: nat): Option<(seq<bytes>, bytes)> {
    if n == 0 then Some(([], input))
    else
      match Unframe(input, size)
      case Packet(packet, rest) =>
        var others := UnframeAll(rest, size, n - 1);
        if others.None? then None else Some(([packet] + others.value.0, others.value.1))
      case _ => None
  }

  /** Any list of packets is read back in order, whatever follows. */
  lemma {:induction false} TunnelRoundTrip(packets: seq<bytes>, rest: bytes, size: nat)
    requires forall i :: 0 <= i < |packets| ==> |packets[i]| <= MAX_PACKET && |packets[i]| <= size
    ensures UnframeAll(Frames(packets) + rest, size, |packets|) == Some((packets, rest))
    decreases |packets|
  {
    hide Frame, Unframe;
    if packets == [] {
      assert [] + rest == rest;
    } else {
      var others := Frames(packets[1..]);
      assert Frames(packets) + rest == Frame(packets[0]) + (others + rest);
      FrameRoundTrip(packets[0], others + rest, size);
      TunnelRoundTrip(packets[1..], rest, size);
      assert [packets[0]] + packets[1..] == packets;
    }
  }

  class PacketOverStream {
    var input: bytes    // what the connection still has to deliver
    var output: bytes   // what was written to the connection

    constructor (input: bytes)
      ensures this.input == input && output == []
    {
      this.input, output := input, [];
    }

    /** Writes one packet, or nothing if it is too long for the length field. */
    method Write(packet: bytes) returns (ok: bool)
      modifies this`output
      ensures ok <==> |packet| <= MAX_PACKET
      ensures output == old(output) + if ok then Frame(packet) else []
    {
      if |packet| > MAX_PACKET {
        return false;
      }
      var length := U16(|packet|);
      var data := new byte[4 + |packet|](_ => 0);
      data[1], data[2] := length[0], length[1];
      forall i | 0 <= i < |packet| {
        data[3 + i] := packet[i];
      }
      data[3 + |packet|] := 0xff;
      assert data[..] == Frame(packet);
      output := output + data[..];
      return true;
    }

    /** Reads one packet into the buffer.  Whatever comes of it, the buffer beyond the packet's length
        keeps its contents. */
    method Read(buffer: array<byte>) returns (r: Outcome)
      modifies this`input, buffer
      ensures r == Unframe(old(input), buffer.Length)
      ensures r.Packet? ==> buffer[..|r.packet|] == r.packet && input == r.rest
      ensures forall i :: Filled(old(input), buffer.Length) <= i < buffer.Length ==> buffer[i] == old(buffer[i])
    {
      if |input| < 1 {
        return Ended;
      }
      if input[0] != 0x00 {
        return Malformed;
      }
      if |input| < 3 {
        return Ended;
      }
      var length := ReadU16(input, 1);
      if length > buffer.Length {
        return ShortBuffer;
      }
      var got := Min(length, |input| - 3);
      forall i | 0 <= i < got {
        buffer[i] := input[3 + i];
      }
      if |input| < 3 + length + 1 {
        return Ended;
      }
      if input[3 + length] != 0xff {
        return Malformed;
      }
      r := Packet(buffer[..length], input[4 + length..]);
      input := input[4 + length..];
      assert buffer[..length] == old(input)[3..3 + length];
    }
  }

  /** How much of the buffer a read may fill. */
  function Filled(input: bytes, size: nat): nat {
    if |input| < 3 || input[0] != 0x00 || ReadU16(input, 1) > size then 0 else Min(ReadU16(input, 1), |input| - 3)
  }
}
