/** SOCKS5 addresses, requests and responses as in sections 4 to 6 of RFC 1928. */
module Socks5 {
  import opened Bytes
  import opened Metadata

  const VERSION: byte := 5
  const IPV4: byte := 1
  const FQDN: byte := 3
  const IPV6: byte := 4

  datatype Addr = Addr(fqdn: bytes, ip: bytes, port: int)

  const NO_ADDR: Addr := Addr([], [], 0)

  /** An IPv4 address in IPv6 clothing. */
  predicate IsMapped(ip: bytes) {
    |ip| == 16 && (forall i :: 0 <= i < 10 ==> ip[i] == 0) && ip[10] == ip[11] == 0xff
  }

  function To4(ip: bytes): Option<bytes> {
    if |ip| == 4 then Some(ip) else if IsMapped(ip) then Some(ip[12..]) else None
  }

  function Write(a: Addr): Option<bytes> {
    var port := U16(a.port % 0x1_0000);
    if To4(a.ip).Some? then Some([IPV4] + To4(a.ip).value + port)
    else if |a.ip| == 16 then Some([IPV6] + a.ip + port)
    else if a.fqdn != [] then Some([FQDN] + [|a.fqdn| % 256] + a.fqdn + port)
    else None
  }

  function ReadPort(a: Addr, input: bytes): (r: Option<(Addr, bytes)>)
    ensures r.Some? ==> |input| >= 2 && r.value.1 == input[2..]
  {
    if |input| < 2 then None else Some((a.(port := ReadU16(input, 0)), input[2..]))
  }

  /** Reads into an address, which keeps what the input does not set. */
  function Read(a: Addr, input: bytes): (r: Option<(Addr, bytes)>)
    ensures r.Some? ==> |r.value.1| < |input| && r.value.1 == input[|input| - |r.value.1|..]
  {
    if input == [] then None
    else if input[0] == IPV4 then
      if |input| < 5 then None else ReadPort(a.(ip := input[1..5]), input[5..])
    else if input[0] == IPV6 then
      if |input| < 17 then None else ReadPort(a.(ip := input[1..17]), input[17..])
    else if input[0] == FQDN then
      if |input| < 2 then None
      else
        var n: int := input[1];
        if |input| < 2 + n then None else ReadPort(a.(fqdn := input[2..2 + n]), input[2 + n..])
    else None
  }

  /** The addresses that have exactly one way to be written. */
  predicate NormalForm(a: Addr) {
    && 0 <= a.port < 0x1_0000
    && ((|a.ip| == 4 && a.fqdn == []) || (|a.ip| == 16 && !IsMapped(a.ip) && a.fqdn == [])
        || (a.ip == [] && 1 <= |a.fqdn| <= 255))
  }

  /** The bytes of an address as section 5 of RFC 1928 has them: the type, the address, and the port with its
      high byte first. */
  ghost predicate Spells(wire: bytes, a: Addr) {
    && 0 <= a.port < 65536
    && var port := [a.port / 256, a.port % 256];
       || (|a.ip| == 4 && wire == [1] + a.ip + port)
       || (|a.ip| == 16 && wire == [4] + a.ip + port)
       || (a.ip == [] && |a.fqdn| < 256 && wire == [3, |a.fqdn|] + a.fqdn + port)
  }

  /** What is written spells the address, with an IPv4 address in IPv6 clothing as IPv4; only an address without
      an IP address of either length and without a name is refused. */
  lemma WriteSpells(a: Addr)
    requires 0 <= a.port < 65536 && (a.ip == [] ==> |a.fqdn| < 256)
    ensures Write(a).None? <==> |a.ip| != 4 && |a.ip| != 16 && a.fqdn == []
    ensures Write(a).Some? && (a.ip == [] || |a.ip| == 4 || |a.ip| == 16) ==>
      Spells(Write(a).value, if IsMapped(a.ip) then a.(ip := a.ip[12..]) else a)
  {
    U16Bytes(a.port);
    hide U16;
    if a.ip == [] && a.fqdn != [] {
      assert [FQDN] + [|a.fqdn|] == [3, |a.fqdn|];
    }
  }

  lemma PortIsRead(a: Addr, input: bytes)
    ensures ReadPort(a, input) ==
      if |input| < 2 then None else Some((a.(port := Number16(input, 0)), input[2..]))
  {
    if |input| >= 2 {
      ReadIsNumber16(input, 0);
    }
  }

  /** Reading accepts exactly the input that begins with the bytes of an address, and gives that address and
      what follows it. */
  lemma ReadExactly(input: bytes, a: Addr, rest: bytes)
    ensures Read(NO_ADDR, input) == Some((a, rest)) <==>
      && |rest| <= |input| && input[|input| - |rest|..] == rest
      && Spells(input[..|input| - |rest|], a) && (a.ip == [] || a.fqdn == [])
  {
    if Read(NO_ADDR, input) == Some((a, rest)) {
      var n := AddressLength(input);
      PortIsRead(NO_ADDR.(ip := input[1..n]), input[n..]);
      PortIsRead(NO_ADDR.(fqdn := input[2..n]), input[n..]);
      hide ReadPort;
      ReadSpells(input, a, rest, n);
    }
    if |rest| <= |input| && input[|input| - |rest|..] == rest && Spells(input[..|input| - |rest|], a)
       && (a.ip == [] || a.fqdn == []) {
      SpelledIsRead(input, a, rest);
    }
  }

  /** Where the port begins. */
  function AddressLength(input: bytes): int {
    if input == [] then 0 else if input[0] == 1 then 5 else if input[0] == 4 then 17
    else if |input| < 2 then 0 else 2 + (input[1] as int)
  }

  lemma PairOf(x: bytes, p: byte, q: byte)
    requires |x| == 2 && x[0] == p && x[1] == q
    ensures x == [p, q]
  {
  }

  lemma ReadSpells(input: bytes, a: Addr, rest: bytes, n: nat)
    requires 0 < n <= |input| - 2 && rest == input[n + 2..] && a.port == Number16(input, n)
    requires || (input[0] == 1 && n == 5 && a.ip == input[1..5] && a.fqdn == [])
             || (input[0] == 4 && n == 17 && a.ip == input[1..17] && a.fqdn == [])
             || (input[0] == 3 && n - 2 == input[1] && a.fqdn == input[2..n] && a.ip == [])
    ensures |rest| <= |input| && input[|input| - |rest|..] == rest && Spells(input[..|input| - |rest|], a)
  {
    var wire := input[..n + 2];
    assert wire == wire[..n] + wire[n..];
    PairOf(wire[n..], a.port / 256, a.port % 256);
    if a.ip == [] {
      assert wire[..n] == [3, |a.fqdn|] + a.fqdn;
    } else {
      assert wire[..n] == [input[0]] + a.ip;
    }
  }

  lemma SpelledIsRead(input: bytes, a: Addr, rest: bytes)
    requires |rest| <= |input| && input[|input| - |rest|..] == rest && Spells(input[..|input| - |rest|], a)
    requires a.ip == [] || a.fqdn == []
    ensures Read(NO_ADDR, input) == Some((a, rest))
  {
    var wire := input[..|input| - |rest|];
    var k := |wire| - 2;
    assert input == wire + rest;
    var port := [a.port / 256, a.port % 256];
    assert wire[k..] == port && wire[k] == port[0] && wire[k + 1] == port[1];
    assert input[k] == a.port / 256 && input[k + 1] == a.port % 256 && input[k + 2..] == rest;
    if |a.ip| == 4 && wire == [1] + a.ip + port {
      assert input[1..5] == a.ip && input[5..][2..] == rest;
      PortIsRead(NO_ADDR.(ip := a.ip), input[5..]);
    } else if |a.ip| == 16 && wire == [4] + a.ip + port {
      assert input[1..17] == a.ip && input[17..][2..] == rest;
      PortIsRead(NO_ADDR.(ip := a.ip), input[17..]);
    } else {
      var m := |a.fqdn|;
      assert input[1] == m && input[2..2 + m] == a.fqdn && input[2 + m..][2..] == rest;
      PortIsRead(NO_ADDR.(fqdn := a.fqdn), input[2 + m..]);
    }
  }

  lemma PortRoundTrip(a: Addr, port: uint16, rest: bytes)
    ensures ReadPort(a, U16(port) + rest) == Some((a.(port := port), rest))
  {
    var input := U16(port) + rest;
    assert input[0..2] == U16(port) && input[2..] == rest;
    ReadsU16(input, 0, port);
  }

  /** Reading undoes writing and takes exactly the written bytes, whatever follows. */
  lemma AddrRoundTrip(a: Addr, rest: bytes)
    requires NormalForm(a)
    ensures Write(a).Some? && Read(NO_ADDR, Write(a).value + rest) == Some((a, rest))
  {
    hide ReadPort, U16;
    var port := U16(a.port);
    var input := Write(a).value + rest;
    if |a.ip| == 4 {
      assert input[1..5] == a.ip && input[5..] == port + rest;
      PortRoundTrip(NO_ADDR.(ip := a.ip), a.port, rest);
    } else if |a.ip| == 16 {
      assert input[1..17] == a.ip && input[17..] == port + rest;
      PortRoundTrip(NO_ADDR.(ip := a.ip), a.port, rest);
    } else {
      var n := |a.fqdn|;
      assert input[1] == n && input[2..2 + n] == a.fqdn && input[2 + n..] == port + rest;
      PortRoundTrip(NO_ADDR.(fqdn := a.fqdn), a.port, rest);
    }
  }

  /** Outside the normal form, what is read back is never what was written: the round trip holds if and
      only if the address is in normal form. */
  lemma RoundTripIffNormalForm(a: Addr, rest: bytes)
    requires Write(a).Some?
    ensures Read(NO_ADDR, Write(a).value + rest) == Some((a, rest)) <==> NormalForm(a)
  {
    if NormalForm(a) {
      AddrRoundTrip(a, rest);
    } else {
      hide U16, ReadU16;
      var input := Write(a).value + rest;
      var r := Read(NO_ADDR, input);
      if To4(a.ip).None? && |a.ip| != 16 {
        assert input[0] == FQDN && input[1] == |a.fqdn| % 256;
      } else {
        assert input[0] == if To4(a.ip).Some? then IPV4 else IPV6;
      }
    }
  }

  /** No written address is the beginning of another, so what follows one is never mistaken. */
  lemma Unambiguous(a: Addr, b: Addr, x: bytes, y: bytes)
    requires NormalForm(a) && NormalForm(b) && Write(a).Some? && Write(b).Some?
    requires Write(a).value + x == Write(b).value + y
    ensures a == b && x == y
  {
    AddrRoundTrip(a, x);
    AddrRoundTrip(b, y);
  }

  // ---------------------------------------------------------------------------------------------
  // Requests and responses
  // ---------------------------------------------------------------------------------------------

  /** A request with its command, or a response with its reply, and the bytes that it was read from. */
  datatype Message = Message(code: byte, addr: Addr, raw: bytes)

  function WriteMessage(code: byte, addr: Addr): Option<bytes> {
    var a := Write(addr);
    if a.None? then None else Some([VERSION, code, 0] + a.value)
  }

  function ReadMessage(input: bytes): Option<(Message, bytes)> {
    if |input| < 3 || input[0] != VERSION then None
    else
      var r := Read(NO_ADDR, input[3..]);
      if r.None? then None
      else Some((Message(input[1], r.value.0, input[..|input| - |r.value.1|]), r.value.1))
  }

  /** A message followed by any data is read back, with its own bytes and nothing else recorded as
      its raw form, and the data is left. */
  lemma MessageRoundTrip(code: byte, addr: Addr, rest: bytes)
    requires NormalForm(addr)
    ensures WriteMessage(code, addr).Some?
    ensures var wire := WriteMessage(code, addr).value;
      && ReadMessage(wire + rest) == Some((Message(code, addr, wire), rest))
      && wire == [5, code, 0] + Write(addr).value
      && forall v: byte :: v != 5 ==> ReadMessage([v] + wire[1..] + rest).None?
  {
    hide Read, Write;
    AddrRoundTrip(addr, rest);
    var wire := WriteMessage(code, addr).value;
    assert (wire + rest)[3..] == Write(addr).value + rest;
    assert (wire + rest)[..|wire|] == wire;
  }
}
