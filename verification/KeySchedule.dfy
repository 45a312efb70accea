/** Keys that change with time: the salts of a moment, the cache of cipher lists, and when a client
    and a server agree on a key.  Times are in nanoseconds. */
module KeySchedule {
  import opened Bytes
  import opened Arithmetic

  const SECOND: int := 1_000_000_000
  const REFRESH: int := 120 * SECOND
  const CACHE_VALID: int := REFRESH / 4
  const CACHE_MAX_JITTER: int := 5 * SECOND
  const UNDERLAY_LIFETIME: int := REFRESH / 2

  /** The nearest multiple of the refresh interval; halfway goes up. */
  function Rounded(t: int): int {
    (t + REFRESH / 2) / REFRESH * REFRESH
  }

  /** Halfway between two multiples of two minutes goes to the later one, everything else to the nearer. */
  lemma RoundedIsNearest(t: int)
    ensures Rounded(t) % 120_000_000_000 == 0 && -60_000_000_000 < Rounded(t) - t <= 60_000_000_000
  {
    var q := (t + REFRESH / 2) / REFRESH;
    DivModUnique(q * REFRESH, REFRESH, q, 0);
  }

  /** The moments whose salts a key list made at time `t` covers; the middle one is the list's own. */
  function SaltTimes(t: int): seq<int> {
    [Rounded(t) - REFRESH, Rounded(t), Rounded(t) + REFRESH]
  }

  /** A client whose list is from `client` and a server whose list is from `server` agree: the salt
      that the client uses is one of the server's three. */
  predicate Agree(client: int, server: int) {
    SaltTimes(client)[1] in SaltTimes(server)
  }

  lemma AgreeIffClose(client: int, server: int)
    ensures Agree(client, server) <==> -REFRESH <= Rounded(server) - Rounded(client) <= REFRESH
  {
    var a, b := (client + REFRESH / 2) / REFRESH, (server + REFRESH / 2) / REFRESH;
    assert Rounded(server) - Rounded(client) == (b - a) * REFRESH;
    assert b - a >= 2 ==> (b - a) * REFRESH >= 2 * REFRESH;
    assert b - a <= -2 ==> (b - a) * REFRESH <= -2 * REFRESH;
  }

  lemma RoundedMonotone(s: int, t: int)
    requires s <= t
    ensures Rounded(s) <= Rounded(t)
  {
    var a, b := (s + REFRESH / 2) / REFRESH, (t + REFRESH / 2) / REFRESH;
    assert a <= b;
    MulMonotone(a, b, REFRESH);
  }

  lemma RoundedShift(t: int)
    ensures Rounded(t + REFRESH) == Rounded(t) + REFRESH
  {
    var q := (t + REFRESH / 2) / REFRESH;
    assert (t + REFRESH + REFRESH / 2) / REFRESH == q + 1;
  }

  /** Lists that were made at most one refresh interval apart agree, wherever in the interval. */
  lemma CloseListsAgree(client: int, server: int)
    requires -REFRESH <= server - client <= REFRESH
    ensures Agree(client, server)
  {
    RoundedMonotone(server, client + REFRESH);
    RoundedMonotone(client, server + REFRESH);
    RoundedShift(client);
    RoundedShift(server);
    AgreeIffClose(client, server);
  }

  predicate AgreeApart(t: int, d: int) {
    Agree(t, t + d)
  }

  /** And no longer distance is safe: lists that are `d` apart agree at every moment if and only if `d`
      is at most one refresh interval, which is two minutes. */
  lemma AgreementDistance(d: int)
    ensures (forall t :: AgreeApart(t, d)) <==> -REFRESH <= d <= REFRESH
  {
    if -REFRESH <= d <= REFRESH {
      forall t ensures AgreeApart(t, d) {
        CloseListsAgree(t, t + d);
      }
    } else if d > REFRESH {
      var t := REFRESH / 2 - 1;
      RoundedMonotone(3 * REFRESH / 2, t + d);
      assert Rounded(t) == 0 && Rounded(3 * REFRESH / 2) == 2 * REFRESH;
      AgreeIffClose(t, t + d);
      assert !AgreeApart(t, d);
    } else {
      var t := REFRESH / 2;
      RoundedMonotone(t + d, -REFRESH / 2 - 1);
      assert Rounded(t) == REFRESH && Rounded(-REFRESH / 2 - 1) == -REFRESH;
      AgreeIffClose(t, t + d);
      assert !AgreeApart(t, d);
    }
  }

  // ---------------------------------------------------------------------------------------------
  // The cache
  // ---------------------------------------------------------------------------------------------

  /** For every password, when its cached list was made. */
  class CipherCache {
    var created: map<bytes, int>

    ghost predicate Valid(now: int)
      reads this
    {
      forall p :: p in created ==> created[p] <= now
    }

    constructor ()
      ensures created == map[]
    {
      created := map[];
    }

    /** Gives the list for a password, from the cache unless it is too old.  The list is never older
        than a quarter of the refresh interval, whatever the jitter. */
    method GetList(password: bytes, now: int, jitter: int) returns (made: int)
      requires Valid(now) && 0 <= jitter < CACHE_MAX_JITTER
      modifies this
      ensures Valid(now) && made <= now <= made + CACHE_VALID
      ensures made == if password in old(created) && now <= old(created)[password] + 30_000_000_000 - jitter
                      then old(created)[password] else now
      ensures password in created && created[password] == made
      ensures created == old(created)[password := made]
    {
      if password in created && !(created[password] + (CACHE_VALID - jitter) < now) {
        return created[password];
      }
      created := created[password := now];
      made := now;
    }
  }

  /** A packet's history.  All times but `arrival` and `serverList` are on the client's clock: the client
      took its list from the cache when it made the underlay, sent the packet during the underlay's
      lifetime, and the server, whose list may come from its cache too, got it. */
  predicate Timing(clientList: int, underlay: int, sent: int, arrival: int, serverList: int) {
    && clientList <= underlay <= clientList + CACHE_VALID
    && underlay <= sent <= underlay + UNDERLAY_LIFETIME
    && serverList <= arrival <= serverList + CACHE_VALID
  }

  /** A packet that arrives `d` after it was sent, by the two clocks, meets a server that has its key. */
  predicate KeyKnown(d: int, clientList: int, underlay: int, sent: int, serverList: int) {
    Timing(clientList, underlay, sent, sent + d, serverList) ==> Agree(clientList, serverList)
  }

  /** The key agreement bound: whatever the caches and the underlay's age, the server has the client's
      key if and only if clock difference and delay together put the arrival at most a quarter of the
      refresh interval after the sending and at most three quarters before it. */
  lemma KeysAgree(d: int)
    ensures (forall clientList, underlay, sent, serverList :: KeyKnown(d, clientList, underlay, sent, serverList))
       <==> -3 * REFRESH / 4 <= d <= REFRESH / 4
  {
    if d > REFRESH / 4 {
      var clientList := REFRESH / 2 - 1;
      var underlay := clientList + CACHE_VALID;
      var sent := underlay + UNDERLAY_LIFETIME;
      RoundedMonotone(3 * REFRESH / 2, sent + d);
      assert Rounded(clientList) == 0 && Rounded(3 * REFRESH / 2) == 2 * REFRESH;
      AgreeIffClose(clientList, sent + d);
      assert !KeyKnown(d, clientList, underlay, sent, sent + d);
    } else if d < -3 * REFRESH / 4 {
      var sent := REFRESH / 2;
      RoundedMonotone(sent + d - CACHE_VALID, -REFRESH / 2 - 1);
      assert Rounded(sent) == REFRESH && Rounded(-REFRESH / 2 - 1) == -REFRESH;
      AgreeIffClose(sent, sent + d - CACHE_VALID);
      assert !KeyKnown(d, sent, sent, sent, sent + d - CACHE_VALID);
    } else {
      forall clientList, underlay, sent, serverList ensures KeyKnown(d, clientList, underlay, sent, serverList) {
        if Timing(clientList, underlay, sent, sent + d, serverList) {
          CloseListsAgree(clientList, serverList);
        }
      }
    }
  }
}
