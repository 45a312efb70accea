/** The replay cache in front of the stream reader: a connection that begins with bytes that the cache
    remembers is refused. */
module ReplayGuard {
  import opened Bytes
  import opened Ciphers
  import opened Metadata
  import opened PacketCodec
  import opened Replay
  import opened StreamCodec

  /** The header was submitted at time `t`, and everything since then is within what the cache remembers. */
  ghost predicate SeenRecently(c: Generations, settings: Settings, signature: nat, now: int) {
    exists c0: Generations, tag: string, t: int, between: seq<Call> ::
      && settings.interval > 0 && |between| < settings.capacity && t <= now <= t + settings.interval
      && (forall i :: 0 <= i < |between| ==> between[i].Submit? && t <= between[i].now <= now)
      && c == Run(After(c0, settings, Submit(signature, tag, t)).0, settings, between)
  }

  lemma SeenIsReported(c: Generations, settings: Settings, signature: nat, now: int)
    requires SeenRecently(c, settings, signature, now)
    ensures After(c, settings, Submit(signature, EMPTY_TAG, now)).1
  {
    hide After, Run;
    var c0: Generations, tag: string, t: int, between: seq<Call> :|
      && settings.interval > 0 && |between| < settings.capacity && t <= now <= t + settings.interval
      && (forall i :: 0 <= i < |between| ==> between[i].Submit? && t <= between[i].now <= now)
      && c == Run(After(c0, settings, Submit(signature, tag, t)).0, settings, between);
    ReplayDetected(c0, settings, signature, tag, t, between, now);
  }

  /** Reads one segment.  The first 16 bytes of its header go through the cache, but what the cache says
      counts only on a connection whose key a server has still to find. */
  method ReadOneSegment(u: StreamUnderlay, cache: ReplayCache, signature: bytes -> nat, minute: uint32, now: int)
    returns (r: Reading)
    requires u.Valid()
    modifies u`recv, u`input, cache
    ensures u.Valid() && (r.Received? ==> u.recv == Some(r.cipher) && u.input == r.rest)
    ensures !u.isClient && old(u.recv).None? && |old(u.input)| >= 72
            && SeenRecently(old(cache.View()), cache.settings, signature(old(u.input)[..16]), now) ==>
      r == Failed(ReplayAttack)
    ensures u.isClient || old(u.recv).Some? ==> r == old(u.NextReading(minute, false))
    ensures |old(u.input)| >= 72 ==>
      cache.View() == After(old(cache.View()), cache.settings, Submit(signature(old(u.input)[..16]), EMPTY_TAG, now)).0
  {
    var n := METADATA_LENGTH + OVERHEAD + if u.recv.None? then NONCE_SIZE else 0;
    var duplicate := false;
    if |u.input| >= n {
      ghost var c := cache.View();
      duplicate := cache.IsDuplicate(signature(u.input[..OVERHEAD]), EMPTY_TAG, now);
      if SeenRecently(c, cache.settings, signature(u.input[..16]), now) {
        SeenIsReported(c, cache.settings, signature(u.input[..16]), now);
      }
    }
    r := u.ReadOneSegment(minute, duplicate && u.recv.None?);
  }

  /** The header came from address `a` at time `t`, from no other address before as far as the cache remembers
      or since then, and everything is within what it remembers. */
  ghost predicate SeenFrom(c: Generations, settings: Settings, signature: nat, a: string, now: int) {
    exists c0: Generations, t: int, between: seq<Call> ::
      && settings.interval > 0 && |between| < settings.capacity && t <= now <= t + settings.interval
      && OnlyTag(c0, signature, a)
      && (forall i :: 0 <= i < |between| ==>
            between[i].Submit? && t <= between[i].now <= now && (between[i].signature == signature ==> between[i].tag == a))
      && c == Run(After(c0, settings, Submit(signature, a, t)).0, settings, between)
  }

  lemma SeenFromElsewhereIsReported(c: Generations, settings: Settings, signature: nat, a: string, b: string, now: int)
    requires SeenFrom(c, settings, signature, a, now)
    ensures After(c, settings, Submit(signature, b, now)).1 <==> a == "" || b == "" || a != b
  {
    hide After, Run;
    var c0: Generations, t: int, between: seq<Call> :|
      && settings.interval > 0 && |between| < settings.capacity && t <= now <= t + settings.interval
      && OnlyTag(c0, signature, a)
      && (forall i :: 0 <= i < |between| ==>
            between[i].Submit? && t <= between[i].now <= now && (between[i].signature == signature ==> between[i].tag == a))
      && c == Run(After(c0, settings, Submit(signature, a, t)).0, settings, between);
    ReplayReportedExactly(c0, settings, signature, a, b, t, between, now);
  }

  /** Reads one datagram.  A server drops one whose header has come from another address before, and takes the
      repetition of one from the same address. */
  method ReadDatagram(aead: Aead, key: bytes, isClient: bool, cache: ReplayCache, signature: bytes -> nat,
                      datagram: bytes, address: string, minute: uint32, now: int) returns (r: Parsed)
    modifies cache
    ensures r == Rejected || r == Parse(aead, key, datagram, minute)
    ensures isClient ==> r == Parse(aead, key, datagram, minute)
    ensures forall a :: !isClient && |datagram| >= 72
                        && SeenFrom(old(cache.View()), cache.settings, signature(datagram[..16]), a, now) ==>
      r == if a == "" || address == "" || a != address then Rejected else Parse(aead, key, datagram, minute)
  {
    if |datagram| < HEADER_LENGTH {
      return Rejected;
    }
    ghost var c := cache.View();
    var duplicate := cache.IsDuplicate(signature(datagram[..OVERHEAD]), address, now);
    forall a | SeenFrom(c, cache.settings, signature(datagram[..16]), a, now)
      ensures duplicate <==> a == "" || address == "" || a != address
    {
      SeenFromElsewhereIsReported(c, cache.settings, signature(datagram[..16]), a, address, now);
    }
    if duplicate && !isClient {
      return Rejected;
    }
    r := Parse(aead, key, datagram, minute);
  }
}
