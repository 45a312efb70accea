/** The replay cache: two generations of packet signatures.  The clock is read once per call and
    never goes back. */
module Replay {

  const EMPTY_TAG: string := ""

  /** The two generations; `expireTime` is when the current one becomes the previous one. */
  datatype Generations = Generations(expireTime: int, current: map<nat, string>, previous: map<nat, string>)

  datatype Settings = Settings(capacity: nat, interval: int)

  datatype Call = Submit(signature: nat, tag: string, now: int) | Clear

  function Rotated(c: Generations, settings: Settings, now: int): Generations {
    var c1 := if now - c.expireTime > settings.interval then Generations(now + settings.interval, map[], map[]) else c;
    if |c1.current| >= settings.capacity || now > c1.expireTime then
      Generations(now + settings.interval, map[], c1.current)
    else c1
  }

  predicate Conflicts(existing: string, tag: string) {
    existing == EMPTY_TAG || tag == EMPTY_TAG || existing != tag
  }

  function Reported(c: Generations, signature: nat, tag: string): bool {
    if signature in c.current then Conflicts(c.current[signature], tag)
    else signature in c.previous && Conflicts(c.previous[signature], tag)
  }

  function Remember(c: Generations, signature: nat, tag: string): Generations {
    if signature in c.current then c else c.(current := c.current[signature := tag])
  }

  /** The state after a call, and whether the call reports a duplicate. */
  function After(c: Generations, settings: Settings, call: Call): (Generations, bool) {
    match call
    case Clear => (c.(current := map[], previous := map[]), false)
    case Submit(signature, tag, now) =>
      if settings.capacity == 0 then (c, false)
      else
        var c1 := Rotated(c, settings, now);
        (Remember(c1, signature, tag), Reported(c1, signature, tag))
  }

  class ReplayCache {
    const settings: Settings
    var expireTime: int
    var current: map<nat, string>
    var previous: map<nat, string>

    function View(): Generations
      reads this
    {
      Generations(expireTime, current, previous)
    }

    constructor NewCache(capacity: nat, interval: int, now: int)
      requires interval > 0
      ensures settings == Settings(capacity, interval)
      ensures View() == Fresh(settings, now) == Generations(now + interval, map[], map[])
    {
      settings := Settings(capacity, interval);
      expireTime, current, previous := now + interval, map[], map[];
    }

    method IsDuplicate(signature: nat, tag: string, now: int) returns (duplicate: bool)
      modifies this
      ensures (View(), duplicate) == After(old(View()), settings, Submit(signature, tag, now))
      ensures settings.capacity == 0 ==> !duplicate && View() == old(View())
      ensures settings.capacity > 0 ==> signature in current
      ensures settings.capacity > 0 && signature in old(current) && now <= old(expireTime) + settings.interval ==>
        (duplicate <==> old(current)[signature] == "" || tag == "" || old(current)[signature] != tag)
      ensures signature !in old(current) && signature !in old(previous) ==> !duplicate
    {
      if settings.capacity == 0 {
        return false;
      }
      if now - expireTime > settings.interval {
        current, previous := map[], map[];
        expireTime := now + settings.interval;
      }
      if |current| >= settings.capacity || now > expireTime {
        previous := current;
        current := map[];
        expireTime := now + settings.interval;
      }
      if signature in current {
        var existing := current[signature];
        if existing == EMPTY_TAG || tag == EMPTY_TAG {
          return true;
        }
        return existing != tag;
      } else {
        current := current[signature := tag];
      }
      if signature in previous {
        var existing := previous[signature];
        if existing == EMPTY_TAG || tag == EMPTY_TAG {
          return true;
        }
        return existing != tag;
      }
      return false;
    }

    method ClearAll()
      modifies this`current, this`previous
      ensures View() == After(old(View()), settings, Clear).0 == Generations(old(expireTime), map[], map[])
    {
      current, previous := map[], map[];
    }
  }

  // ---------------------------------------------------------------------------------------------
  // Runs
  // ---------------------------------------------------------------------------------------------

  function Fresh(settings: Settings, now: int): Generations {
    Generations(now + settings.interval, map[], map[])
  }

  function Run(c: Generations, settings: Settings, calls: seq<Call>): Generations {
    if calls == [] then c
    else After(Run(c, settings, calls[..|calls| - 1]), settings, calls[|calls| - 1]).0
  }

  ghost predicate Submitted(calls: seq<Call>, signature: nat) {
    exists i :: 0 <= i < |calls| && calls[i].Submit? && calls[i].signature == signature
  }

  ghost predicate Known(c: Generations, signature: nat) {
    signature in c.current || signature in c.previous
  }

  /** Both generations stay within capacity, whatever happens. */
  lemma {:induction false} SizesWithinCapacity(settings: Settings, start: int, calls: seq<Call>)
    ensures var c := Run(Fresh(settings, start), settings, calls);
      |c.current| <= settings.capacity && |c.previous| <= settings.capacity
    decreases |calls|
  {
    if calls != [] {
      SizesWithinCapacity(settings, start, calls[..|calls| - 1]);
    }
  }

  /** Only what was submitted is ever known. */
  lemma {:induction false} KnownWasSubmitted(settings: Settings, start: int, calls: seq<Call>, signature: nat)
    requires Known(Run(Fresh(settings, start), settings, calls), signature)
    ensures Submitted(calls, signature)
    decreases |calls|
  {
    var init, last := calls[..|calls| - 1], calls[|calls| - 1];
    var c := Run(Fresh(settings, start), settings, init);
    if Known(c, signature) {
      KnownWasSubmitted(settings, start, init, signature);
      assert forall i :: 0 <= i < |init| ==> init[i] == calls[i];
    } else {
      assert last.Submit? && last.signature == signature;
    }
  }

  /** A signature that was never submitted is never reported. */
  lemma FreshNeverReported(settings: Settings, start: int, calls: seq<Call>, signature: nat, tag: string, now: int)
    requires !Submitted(calls, signature)
    ensures !After(Run(Fresh(settings, start), settings, calls), settings, Submit(signature, tag, now)).1
  {
    var c := Run(Fresh(settings, start), settings, calls);
    if Known(c, signature) {
      KnownWasSubmitted(settings, start, calls, signature);
    }
  }

  /** The generations know the signature under no other tag than this one. */
  ghost predicate OnlyTag(c: Generations, signature: nat, tag: string) {
    && (signature in c.current ==> c.current[signature] == tag)
    && (signature in c.previous ==> c.previous[signature] == tag)
  }

  lemma {:induction false} OneTagStays(settings: Settings, start: int, calls: seq<Call>, signature: nat, tag: string)
    requires forall i :: 0 <= i < |calls| && calls[i].Submit? && calls[i].signature == signature ==> calls[i].tag == tag
    ensures OnlyTag(Run(Fresh(settings, start), settings, calls), signature, tag)
    decreases |calls|
  {
    if calls != [] {
      var init := calls[..|calls| - 1];
      assert forall i :: 0 <= i < |init| ==> init[i] == calls[i];
      OneTagStays(settings, start, init, signature, tag);
    }
  }

  /** A sender that repeats its own packet under its own tag is never reported. */
  lemma SameTagNeverReported(settings: Settings, start: int, calls: seq<Call>, signature: nat, tag: string, now: int)
    requires tag != EMPTY_TAG
    requires forall i :: 0 <= i < |calls| && calls[i].Submit? && calls[i].signature == signature ==> calls[i].tag == tag
    ensures !After(Run(Fresh(settings, start), settings, calls), settings, Submit(signature, tag, now)).1
  {
    OneTagStays(settings, start, calls, signature, tag);
  }

  // ---------------------------------------------------------------------------------------------
  // Detection
  // ---------------------------------------------------------------------------------------------

  /** `m` calls after a submission at time `t`, the signature is in the current generation, or in the
      previous one with a current generation that is too young to expire and too small to be full. */
  ghost predicate Remembers(c: Generations, settings: Settings, signature: nat, t: int, m: nat) {
    || (signature in c.current && c.expireTime >= t)
    || (signature in c.previous && c.expireTime >= t + settings.interval && |c.current| <= m)
  }

  lemma SubmissionRemembered(c: Generations, settings: Settings, signature: nat, tag: string, t: int)
    requires settings.capacity > 0 && settings.interval > 0
    ensures Remembers(After(c, settings, Submit(signature, tag, t)).0, settings, signature, t, 0)
  {
  }

  lemma NextCallRemembers(c: Generations, settings: Settings, signature: nat, t: int, m: nat, call: Call)
    requires settings.interval > 0 && Remembers(c, settings, signature, t, m) && m < settings.capacity
    requires call.Submit? && t <= call.now <= t + settings.interval
    ensures Remembers(After(c, settings, call).0, settings, signature, t, m + 1)
    ensures call.signature == signature && call.tag == EMPTY_TAG ==> After(c, settings, call).1
  {
  }

  lemma {:induction false} RunRemembers(c: Generations, settings: Settings, signature: nat, t: int, calls: seq<Call>)
    requires settings.interval > 0 && Remembers(c, settings, signature, t, 0) && |calls| <= settings.capacity
    requires forall i :: 0 <= i < |calls| ==> calls[i].Submit? && t <= calls[i].now <= t + settings.interval
    ensures Remembers(Run(c, settings, calls), settings, signature, t, |calls|)
    decreases |calls|
  {
    if calls != [] {
      var init := calls[..|calls| - 1];
      RunRemembers(c, settings, signature, t, init);
      NextCallRemembers(Run(c, settings, init), settings, signature, t, |init|, calls[|calls| - 1]);
    }
  }

  /** A signature submitted at time `t` under any tag, and again under the empty tag within the expiry
      interval and with fewer calls in between than the capacity, is always reported, whatever
      happened before. */
  lemma ReplayDetected(c: Generations, settings: Settings, signature: nat, tag: string, t: int,
                       between: seq<Call>, now: int)
    requires settings.interval > 0 && |between| < settings.capacity && t <= now <= t + settings.interval
    requires forall i :: 0 <= i < |between| ==> between[i].Submit? && t <= between[i].now <= now
    ensures var c1 := After(c, settings, Submit(signature, tag, t)).0;
      After(Run(c1, settings, between), settings, Submit(signature, EMPTY_TAG, now)).1
  {
    var c1 := After(c, settings, Submit(signature, tag, t)).0;
    SubmissionRemembered(c, settings, signature, tag, t);
    RunRemembers(c1, settings, signature, t, between);
    NextCallRemembers(Run(c1, settings, between), settings, signature, t, |between|, Submit(signature, EMPTY_TAG, now));
  }

  /** As `Remembers`, and the tag that counts is this one. */
  ghost predicate RemembersTag(c: Generations, settings: Settings, signature: nat, tag: string, t: int, m: nat) {
    && OnlyTag(c, signature, tag)
    && Remembers(c, settings, signature, t, m)
  }

  lemma NextCallKeepsTag(c: Generations, settings: Settings, signature: nat, tag: string, t: int, m: nat, call: Call)
    requires settings.interval > 0 && RemembersTag(c, settings, signature, tag, t, m) && m < settings.capacity
    requires call.Submit? && t <= call.now <= t + settings.interval
    ensures call.signature != signature || call.tag == tag ==>
      RemembersTag(After(c, settings, call).0, settings, signature, tag, t, m + 1)
    ensures call.signature == signature ==>
      (After(c, settings, call).1 <==> tag == "" || call.tag == "" || call.tag != tag)
  {
  }

  lemma {:induction false} RunKeepsTag(c: Generations, settings: Settings, signature: nat, tag: string, t: int,
                                       calls: seq<Call>)
    requires settings.interval > 0 && RemembersTag(c, settings, signature, tag, t, 0) && |calls| <= settings.capacity
    requires forall i :: 0 <= i < |calls| ==>
      && calls[i].Submit? && t <= calls[i].now <= t + settings.interval
      && (calls[i].signature == signature ==> calls[i].tag == tag)
    ensures RemembersTag(Run(c, settings, calls), settings, signature, tag, t, |calls|)
    decreases |calls|
  {
    if calls != [] {
      var init := calls[..|calls| - 1];
      RunKeepsTag(c, settings, signature, tag, t, init);
      hide After, Run, RemembersTag;
      NextCallKeepsTag(Run(c, settings, init), settings, signature, tag, t, |init|, calls[|calls| - 1]);
      assert Run(c, settings, calls) == After(Run(c, settings, init), settings, calls[|calls| - 1]).0 by {
        LastCall(c, settings, calls);
      }
    }
  }

  lemma LastCall(c: Generations, settings: Settings, calls: seq<Call>)
    requires calls != []
    ensures Run(c, settings, calls) == After(Run(c, settings, calls[..|calls| - 1]), settings, calls[|calls| - 1]).0
  {
  }

  /** A signature submitted under tag `a`, and again under tag `b` within the expiry interval and with fewer
      calls in between than the capacity, is reported if and only if one of the tags is empty or they differ,
      given that nobody submits it under another tag than `a` meanwhile or is remembered to have done so. */
  lemma ReplayReportedExactly(c: Generations, settings: Settings, signature: nat, a: string, b: string, t: int,
                              between: seq<Call>, now: int)
    requires settings.interval > 0 && |between| < settings.capacity && t <= now <= t + settings.interval
    requires signature in c.current ==> c.current[signature] == a
    requires signature in c.previous ==> c.previous[signature] == a
    requires forall i :: 0 <= i < |between| ==>
      between[i].Submit? && t <= between[i].now <= now && (between[i].signature == signature ==> between[i].tag == a)
    ensures var c1 := After(c, settings, Submit(signature, a, t)).0;
      After(Run(c1, settings, between), settings, Submit(signature, b, now)).1 <==> a == "" || b == "" || a != b
  {
    var c1 := After(c, settings, Submit(signature, a, t)).0;
    SubmissionRemembered(c, settings, signature, a, t);
    assert OnlyTag(c1, signature, a);
    hide After, Run;
    RunKeepsTag(c1, settings, signature, a, t, between);
    NextCallKeepsTag(Run(c1, settings, between), settings, signature, a, t, |between|, Submit(signature, b, now));
  }

  /** As long as the current generation lasts, the first sender keeps its packet: another one's replay is
      reported, and the first sender's own repetition after that is not. */
  lemma FirstSenderKeepsPacket(c: Generations, settings: Settings, signature: nat, a: string, b: string, t: int,
                               u: int, now: int)
    requires settings.interval > 0 && a != "" && a != b
    requires signature !in c.current && signature !in c.previous
    requires t <= u <= now <= c.expireTime && |c.current| + 1 < settings.capacity
    ensures var c1 := After(c, settings, Submit(signature, a, t)).0;
      var (c2, reported) := After(c1, settings, Submit(signature, b, u));
      reported && !After(c2, settings, Submit(signature, a, now)).1
  {
  }

  /** A signature that was last submitted at time `t` is on its way out. */
  ghost predicate Fading(c: Generations, settings: Settings, signature: nat, t: int) {
    && (signature in c.current ==> c.expireTime <= t + settings.interval)
    && (signature in c.previous && signature !in c.current ==> c.expireTime <= t + 3 * settings.interval)
  }

  lemma NextCallFades(c: Generations, settings: Settings, signature: nat, t: int, call: Call)
    requires settings.interval > 0 && Fading(c, settings, signature, t)
    requires call.Submit? ==> call.signature != signature
    ensures Fading(After(c, settings, call).0, settings, signature, t)
  {
  }

  lemma {:induction false} RunFades(c: Generations, settings: Settings, signature: nat, t: int, calls: seq<Call>)
    requires settings.interval > 0 && Fading(c, settings, signature, t)
    requires forall i :: 0 <= i < |calls| && calls[i].Submit? ==> calls[i].signature != signature
    ensures Fading(Run(c, settings, calls), settings, signature, t)
    decreases |calls|
  {
    if calls != [] {
      var init := calls[..|calls| - 1];
      RunFades(c, settings, signature, t, init);
      NextCallFades(Run(c, settings, init), settings, signature, t, calls[|calls| - 1]);
    }
  }

  /** Nothing is remembered for ever: a signature that nobody has submitted for more than three intervals is not
      reported, and after more than two if the cache was not used meanwhile. */
  lemma Forgotten(c: Generations, settings: Settings, signature: nat, a: string, b: string, t: int, calls: seq<Call>,
                  now: int)
    requires settings.interval > 0 && c.expireTime <= t + settings.interval
    requires forall i :: 0 <= i < |calls| && calls[i].Submit? ==> calls[i].signature != signature
    requires now > t + (if calls == [] then 2 else 3) * settings.interval
    ensures var c1 := After(c, settings, Submit(signature, a, t)).0;
      !After(Run(c1, settings, calls), settings, Submit(signature, b, now)).1
  {
    var c1 := After(c, settings, Submit(signature, a, t)).0;
    assert settings.capacity > 0 ==> Fading(c1, settings, signature, t);
    if settings.capacity > 0 {
      RunFades(c1, settings, signature, t, calls);
    }
  }

  lemma {:induction false} RunAppend(c: Generations, settings: Settings, a: seq<Call>, b: seq<Call>)
    ensures Run(c, settings, a + b) == Run(Run(c, settings, a), settings, b)
    decreases |b|
  {
    if b == [] {
      assert a + b == a;
    } else {
      assert (a + b)[..|a + b| - 1] == a + b[..|b| - 1];
      RunAppend(c, settings, a, b[..|b| - 1]);
    }
  }

  /** `k` submissions of different signatures at one moment. */
  function Fill(first: nat, k: nat): seq<Call> {
    seq(k, i requires 0 <= i < k => Submit(first + i, EMPTY_TAG, 0))
  }

  lemma {:induction false} FillGrows(c: Generations, settings: Settings, first: nat, k: nat)
    requires c.expireTime > 0 && settings.interval > 0 && |c.current| + k <= settings.capacity
    requires forall s :: s in c.current ==> s < first
    ensures var c' := Run(c, settings, Fill(first, k));
      && c'.expireTime == c.expireTime && c'.previous == c.previous && |c'.current| == |c.current| + k
      && forall s :: s in c'.current ==> (s in c.current || s >= first) && s < first + k
    decreases k
  {
    if k > 0 {
      FillGrows(c, settings, first, k - 1);
      assert Fill(first, k)[..k - 1] == Fill(first, k - 1);
      assert Fill(first, k)[k - 1] == Submit(first + k - 1, EMPTY_TAG, 0);
      var c' := Run(c, settings, Fill(first, k - 1));
      assert Rotated(c', settings, 0) == c' && first + k - 1 !in c'.current;
    }
  }

  /** The bound on the calls in between is tight: for every capacity there is a run in which exactly
      that many calls come in between, at one moment, and the replay goes unnoticed. */
  lemma CallBoundIsTight(settings: Settings)
    requires settings.capacity >= 1 && settings.interval > 0
    ensures var n := settings.capacity;
      var c1 := Run(Fresh(settings, 0), settings, Fill(1, n - 1));
      var c2 := After(c1, settings, Submit(0, EMPTY_TAG, 0)).0;
      !After(Run(c2, settings, Fill(n, n)), settings, Submit(0, EMPTY_TAG, 0)).1
  {
    hide Run, Fill, After;
    var n := settings.capacity;
    FillGrows(Fresh(settings, 0), settings, 1, n - 1);
    var c1 := Run(Fresh(settings, 0), settings, Fill(1, n - 1));
    var c2 := After(c1, settings, Submit(0, EMPTY_TAG, 0)).0;
    FillsUp(c1, settings);
    FillSplits(c2, settings, n);
    FullMovesOn(c2, settings, n);
    var c3 := After(c2, settings, Submit(n, EMPTY_TAG, 0)).0;
    FillGrows(c3, settings, n + 1, n - 1);
    FullMovesOn(Run(c3, settings, Fill(n + 1, n - 1)), settings, 0);
  }

  /** The bound on the time is tight as well: one moment after the interval, with a single call in
      between, the replay can go unnoticed. */
  lemma TimeBoundIsTight(settings: Settings)
    requires settings.capacity >= 2 && settings.interval > 0
    ensures var n := settings.capacity;
      var c1 := Run(Fresh(settings, 0), settings, Fill(1, n - 1));
      var c2 := After(c1, settings, Submit(0, EMPTY_TAG, 0)).0;
      var c3 := After(c2, settings, Submit(n, EMPTY_TAG, 0)).0;
      !After(c3, settings, Submit(0, EMPTY_TAG, settings.interval + 1)).1
  {
    hide Run, Fill, After;
    var n := settings.capacity;
    FillGrows(Fresh(settings, 0), settings, 1, n - 1);
    var c1 := Run(Fresh(settings, 0), settings, Fill(1, n - 1));
    FillsUp(c1, settings);
    var c2 := After(c1, settings, Submit(0, EMPTY_TAG, 0)).0;
    FullMovesOn(c2, settings, n);
    ExpiredMovesOn(After(c2, settings, Submit(n, EMPTY_TAG, 0)).0, settings, 0);
  }

  /** One more signature fills the current generation. */
  lemma FillsUp(c: Generations, settings: Settings)
    requires settings.interval > 0 && c.expireTime == settings.interval
    requires |c.current| == settings.capacity - 1 && 0 !in c.current
    ensures After(c, settings, Submit(0, EMPTY_TAG, 0)).0 == c.(current := c.current[0 := EMPTY_TAG])
    ensures |c.current[0 := EMPTY_TAG]| == settings.capacity
  {
  }

  /** A full generation becomes the previous one, and what was in the previous one is forgotten. */
  lemma FullMovesOn(c: Generations, settings: Settings, signature: nat)
    requires settings.interval > 0 && c.expireTime == settings.interval
    requires |c.current| == settings.capacity > 0 && signature !in c.current
    ensures After(c, settings, Submit(signature, EMPTY_TAG, 0))
         == (Generations(settings.interval, map[signature := EMPTY_TAG], c.current), false)
  {
  }

  lemma ExpiredMovesOn(c: Generations, settings: Settings, signature: nat)
    requires settings.capacity > 0 && settings.interval > 0 && c.expireTime == settings.interval
    requires signature !in c.current
    ensures !After(c, settings, Submit(signature, EMPTY_TAG, settings.interval + 1)).1
  {
  }

  lemma FillSplits(c: Generations, settings: Settings, n: nat)
    requires n >= 1
    ensures Run(c, settings, Fill(n, n)) ==
            Run(After(c, settings, Submit(n, EMPTY_TAG, 0)).0, settings, Fill(n + 1, n - 1))
  {
    assert Fill(n, n) == Fill(n, 1) + Fill(n + 1, n - 1);
    hide After;
    RunAppend(c, settings, Fill(n, 1), Fill(n + 1, n - 1));
    assert Fill(n, 1)[..0] == [] && Fill(n, 1)[0] == Submit(n, EMPTY_TAG, 0);
  }
}
