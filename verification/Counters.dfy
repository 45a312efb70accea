/** The time-series counter: a history of increments whose old entries are rolled up to coarser
    resolutions, queried by binary search.  Times are in milliseconds; a clock reading is rounded
    up to the next whole one, which decides `now - t > d` the same way. */
module Counters {
  import opened Bytes
  import opened Arithmetic

  const SECOND: int := 1000
  const MINUTE: int := 60 * SECOND
  const HOUR: int := 60 * MINUTE
  const DAY: int := 24 * HOUR

  const ROLL_UP_INTERVAL: nat := 1000
  const ROLL_UP_TO_SECOND: int := 2 * SECOND
  const ROLL_UP_SECOND_TO_MINUTE: int := 120 * SECOND
  const ROLL_UP_MINUTE_TO_HOUR: int := 120 * MINUTE
  const ROLL_UP_HOUR_TO_DAY: int := 8 * DAY

  /** One call that increased the counter. */
  datatype Increment = Increment(time: int, delta: int)

  /** Roll-up labels in the order of their codes: 0 is an entry as added, 4 a whole day. */
  type Level = x: int | 0 <= x <= 4

  datatype Entry = Entry(time: int, delta: int, level: Level)

  function Unit(level: Level): (u: int)
    ensures u > 0
  {
    match level
    case 0 => 1
    case 1 => SECOND
    case 2 => MINUTE
    case 3 => HOUR
    case 4 => DAY
  }

  function Truncate(time: int, unit: int): int
    requires unit > 0
  {
    time - time % unit
  }

  function Total(increments: seq<Increment>): int {
    if increments == [] then 0
    else Total(increments[..|increments| - 1]) + increments[|increments| - 1].delta
  }

  /** What the plain list of increments says was added up to time `c`. */
  function AddedUpTo(increments: seq<Increment>, c: int): int {
    if increments == [] then 0
    else
      var last := increments[|increments| - 1];
      AddedUpTo(increments[..|increments| - 1], c) + if last.time <= c then last.delta else 0
  }

  /** What the history says was added up to time `c`. */
  function RecordedUpTo(history: seq<Entry>, c: int): int {
    if history == [] then 0
    else
      var last := history[|history| - 1];
      RecordedUpTo(history[..|history| - 1], c) + if last.time <= c then last.delta else 0
  }

  function Flatten(groups: seq<seq<Increment>>): seq<Increment> {
    if groups == [] then [] else Flatten(groups[..|groups| - 1]) + groups[|groups| - 1]
  }

  // ---------------------------------------------------------------------------------------------
  // What an entry stands for
  // ---------------------------------------------------------------------------------------------

  /** The entry stands for these increments: it carries their sum, and its time is the time of each
      of them, truncated to the resolution of its level. */
  ghost predicate StandsFor(h: Entry, group: seq<Increment>) {
    && group != []
    && h.delta == Total(group)
    && forall i :: 0 <= i < |group| ==> h.time == Truncate(group[i].time, Unit(h.level))
  }

  ghost predicate Grouped(history: seq<Entry>, groups: seq<seq<Increment>>) {
    |history| == |groups| && forall i :: 0 <= i < |history| ==> StandsFor(history[i], groups[i])
  }

  ghost predicate Descending(levels: seq<int>) {
    forall i, j :: 0 <= i < j < |levels| ==> levels[i] >= levels[j]
  }

  function Levels(history: seq<Entry>): seq<int> {
    seq(|history|, i requires 0 <= i < |history| => history[i].level)
  }

  /** Roll-up labels go from coarse to fine. */
  ghost predicate CoarseToFine(history: seq<Entry>) {
    Descending(Levels(history))
  }

  ghost predicate TimesSorted(history: seq<Entry>) {
    forall i, j :: 0 <= i < j < |history| ==> history[i].time <= history[j].time
  }

  /** No increment was stored after one that is later by more than `skew`.  A caller reads the clock
      before it waits for the lock, so two callers can store their increments in the wrong order. */
  ghost predicate NearlySorted(increments: seq<Increment>, skew: nat) {
    forall i, j :: 0 <= i < j < |increments| ==> increments[i].time <= increments[j].time + skew
  }

  ghost predicate Sorted(increments: seq<Increment>) {
    NearlySorted(increments, 0)
  }

  // ---------------------------------------------------------------------------------------------
  // Arithmetic of truncation
  // ---------------------------------------------------------------------------------------------

  lemma TruncateBounds(t: int, u: int)
    requires u > 0
    ensures t - u < Truncate(t, u) <= t
  {
  }

  ghost predicate MultipleOf(x: int, u: int) {
    exists a :: x == a * u
  }

  lemma TruncateIsMultiple(t: int, u: int)
    requires u > 0
    ensures MultipleOf(Truncate(t, u), u)
  {
    assert Truncate(t, u) == (t / u) * u;
  }

  /** Truncation gives the greatest multiple that is not later. */
  lemma TruncateGreatest(x: int, t: int, u: int)
    requires u > 0 && MultipleOf(x, u) && x <= t
    ensures x <= Truncate(t, u)
  {
    var a :| x == a * u;
    var q := t / u;
    assert t == q * u + t % u && (q + 1) * u == q * u + u;
    if a > q {
      MulMonotone(q + 1, a, u);
      assert false;
    }
    MulMonotone(a, q, u);
  }

  lemma UnitsDivide(x: int, fine: Level, coarse: Level)
    requires fine <= coarse && MultipleOf(x, Unit(coarse))
    ensures MultipleOf(x, Unit(fine))
  {
    var a :| x == a * Unit(coarse);
    var ratio := Unit(coarse) / Unit(fine);
    assert Unit(coarse) == ratio * Unit(fine);
    assert x == (a * ratio) * Unit(fine);
  }

  /** Truncating at a resolution and then at a coarser one is truncating at the coarser one. */
  lemma TruncateTwice(t: int, fine: Level, coarse: Level)
    requires fine <= coarse
    ensures Truncate(Truncate(t, Unit(fine)), Unit(coarse)) == Truncate(t, Unit(coarse))
  {
    var once, both := Truncate(t, Unit(coarse)), Truncate(Truncate(t, Unit(fine)), Unit(coarse));
    TruncateIsMultiple(t, Unit(coarse));
    UnitsDivide(once, fine, coarse);
    TruncateGreatest(once, t, Unit(fine));
    TruncateGreatest(once, Truncate(t, Unit(fine)), Unit(coarse));
    TruncateIsMultiple(Truncate(t, Unit(fine)), Unit(coarse));
    TruncateBounds(t, Unit(fine));
    TruncateBounds(Truncate(t, Unit(fine)), Unit(coarse));
    TruncateGreatest(both, t, Unit(coarse));
  }

  /** A coarser resolution never gives a later time, and truncation keeps the order. */
  lemma TruncateMonotone(s: int, t: int, fine: Level, coarse: Level)
    requires s <= t && fine <= coarse
    ensures Truncate(s, Unit(coarse)) <= Truncate(t, Unit(fine))
  {
    TruncateBounds(s, Unit(coarse));
    TruncateIsMultiple(s, Unit(coarse));
    UnitsDivide(Truncate(s, Unit(coarse)), fine, coarse);
    TruncateGreatest(Truncate(s, Unit(coarse)), t, Unit(fine));
  }

  /** The last millisecond of an hour separates times the same way after truncation to at most an
      hour. */
  lemma HourEndSeparates(t: int, level: Level, c: int)
    requires level <= 3 && (c + 1) % HOUR == 0
    ensures t <= c <==> Truncate(t, Unit(level)) <= c
  {
    TruncateBounds(t, Unit(level));
    if t > c {
      assert c + 1 == ((c + 1) / HOUR) * Unit(3);
      UnitsDivide(c + 1, level, 3);
      TruncateGreatest(c + 1, t, Unit(level));
    }
  }

  // ---------------------------------------------------------------------------------------------
  // One roll-up pass
  // ---------------------------------------------------------------------------------------------

  /** How old an entry has to be before it is rolled up to the level. */
  function Age(to: Level): int
    requires to >= 1
  {
    match to
    case 1 => ROLL_UP_TO_SECOND
    case 2 => ROLL_UP_SECOND_TO_MINUTE
    case 3 => ROLL_UP_MINUTE_TO_HOUR
    case 4 => ROLL_UP_HOUR_TO_DAY
  }

  predicate Rolls(h: Entry, from: Level, to: Level, now: int)
    requires to >= 1
  {
    h.level == from && now - h.time > Age(to)
  }

  /** What a pass makes of one entry. */
  function Rolled(h: Entry, from: Level, to: Level, now: int): Entry
    requires to >= 1
  {
    if Rolls(h, from, to, now) then Entry(Truncate(h.time, Unit(to)), h.delta, to) else h
  }

  function TargetLevel(h: Entry, from: Level, to: Level, now: int): Level
    requires to >= 1
  {
    if Rolls(h, from, to, now) then to else h.level
  }

  /** The levels after a pass over the first `n` entries, before equal neighbours merge; the clock
      is read once for each entry. */
  function TargetLevels(history: seq<Entry>, from: Level, to: Level, clock: nat -> int, n: nat): seq<int>
    requires to >= 1 && n <= |history|
  {
    seq(n, i requires 0 <= i < n => TargetLevel(history[i], from, to, clock(i)))
  }

  /** Increments that were rolled up to a day are more than eight days old, less the hour that the
      truncation before may have taken off. */
  ghost predicate DaysAreOld(history: seq<Entry>, groups: seq<seq<Increment>>, now: int)
    requires |history| == |groups|
  {
    forall i :: 0 <= i < |history| && history[i].level == 4 ==> AllBefore(groups[i], now - ROLL_UP_HOUR_TO_DAY + HOUR)
  }

  ghost predicate AllBefore(group: seq<Increment>, t: int) {
    forall j :: 0 <= j < |group| ==> group[j].time < t
  }

  /** The history is a grouping of the increments. */
  ghost predicate Represents(history: seq<Entry>, groups: seq<seq<Increment>>, increments: seq<Increment>, now: int) {
    Grouped(history, groups) && Flatten(groups) == increments && DaysAreOld(history, groups, now)
  }

  lemma RolledStandsFor(h: Entry, group: seq<Increment>, from: Level, to: Level)
    requires StandsFor(h, group) && h.level == from <= to
    ensures StandsFor(Entry(Truncate(h.time, Unit(to)), h.delta, to), group)
  {
    forall i | 0 <= i < |group| ensures Truncate(h.time, Unit(to)) == Truncate(group[i].time, Unit(to)) {
      TruncateTwice(group[i].time, from, to);
    }
  }

  /** An entry that is rolled up to a day stands for increments that are old enough. */
  lemma RolledIsOld(h: Entry, group: seq<Increment>, from: Level, now: int)
    requires StandsFor(h, group) && Rolls(h, from, 4, now) && from == 3
    ensures AllBefore(group, now - ROLL_UP_HOUR_TO_DAY + HOUR)
  {
    forall i | 0 <= i < |group| ensures group[i].time < now - ROLL_UP_HOUR_TO_DAY + HOUR {
      TruncateBounds(group[i].time, HOUR);
    }
  }

  lemma {:induction false} TotalAppend(a: seq<Increment>, b: seq<Increment>)
    ensures Total(a + b) == Total(a) + Total(b)
  {
    if b == [] {
      assert a + b == a;
    } else {
      assert (a + b)[..|a + b| - 1] == a + b[..|b| - 1];
      TotalAppend(a, b[..|b| - 1]);
    }
  }

  lemma MergedStandsFor(h1: Entry, g1: seq<Increment>, h2: Entry, g2: seq<Increment>)
    requires StandsFor(h1, g1) && StandsFor(h2, g2) && h1.time == h2.time && h1.level == h2.level
    ensures StandsFor(Entry(h1.time, h1.delta + h2.delta, h1.level), g1 + g2)
  {
    TotalAppend(g1, g2);
  }

  lemma FlattenSnoc(groups: seq<seq<Increment>>, g: seq<Increment>)
    ensures Flatten(groups + [g]) == Flatten(groups) + g
  {
    assert (groups + [g])[..|groups|] == groups;
  }

  lemma AppendCell(history: seq<Entry>, groups: seq<seq<Increment>>, increments: seq<Increment>, now: int,
                   h: Entry, g: seq<Increment>)
    requires Represents(history, groups, increments, now) && StandsFor(h, g)
    requires h.level == 4 ==> AllBefore(g, now - ROLL_UP_HOUR_TO_DAY + HOUR)
    ensures Represents(history + [h], groups + [g], increments + g, now)
  {
    FlattenSnoc(groups, g);
  }

  lemma MergeCell(history: seq<Entry>, groups: seq<seq<Increment>>, increments: seq<Increment>, now: int,
                  last: Entry, h: Entry, g: seq<Increment>) returns (groups': seq<seq<Increment>>)
    requires Represents(history + [last], groups, increments, now) && StandsFor(h, g)
    requires h.time == last.time && h.level == last.level
    requires h.level == 4 ==> AllBefore(g, now - ROLL_UP_HOUR_TO_DAY + HOUR)
    ensures Represents(history + [Entry(last.time, last.delta + h.delta, last.level)], groups', increments + g, now)
  {
    var init, lastGroup := groups[..|history|], groups[|history|];
    assert (history + [last])[|history|] == last;
    assert groups == init + [lastGroup];
    FlattenSnoc(init, lastGroup);
    assert Represents(history, init, Flatten(init), now) by {
      assert forall i :: 0 <= i < |history| ==> (history + [last])[i] == history[i] && groups[i] == init[i];
    }
    MergedStandsFor(last, lastGroup, h, g);
    groups' := init + [lastGroup + g];
    AppendCell(history, init, Flatten(init), now, Entry(last.time, last.delta + h.delta, last.level), lastGroup + g);
    assert Flatten(init) + (lastGroup + g) == increments + g;
  }

  lemma DescendingSnoc(levels: seq<int>, x: int)
    ensures Descending(levels + [x]) <==> Descending(levels) && (levels != [] ==> levels[|levels| - 1] >= x)
  {
    var all := levels + [x];
    if Descending(all) {
      assert forall i :: 0 <= i < |levels| ==> all[i] == levels[i];
      assert levels != [] ==> all[|levels| - 1] >= all[|levels|];
    }
  }

  /** What a pass has produced so far keeps pace with the levels it is meant to produce. */
  ghost predicate InStep(out: seq<Entry>, targets: seq<int>) {
    && (out == [] <==> targets == [])
    && (out != [] ==> out[|out| - 1].level == targets[|targets| - 1])
    && (CoarseToFine(out) <==> Descending(targets))
  }

  lemma InStepAppend(out: seq<Entry>, targets: seq<int>, h: Entry)
    requires InStep(out, targets)
    ensures InStep(out + [h], targets + [h.level])
  {
    assert Levels(out + [h]) == Levels(out) + [h.level];
    DescendingSnoc(Levels(out), h.level);
    DescendingSnoc(targets, h.level);
  }

  lemma InStepMerge(out: seq<Entry>, last: Entry, last': Entry, targets: seq<int>)
    requires InStep(out + [last], targets) && last'.level == last.level
    ensures InStep(out + [last'], targets + [last.level])
  {
    assert Levels(out + [last']) == Levels(out + [last]);
    DescendingSnoc(targets, last.level);
  }

  // ---------------------------------------------------------------------------------------------
  // What a pass rolls up and merges
  // ---------------------------------------------------------------------------------------------

  /** Every entry is as old as its level demands. */
  ghost predicate Aged(history: seq<Entry>, now: int) {
    forall i :: 0 <= i < |history| && history[i].level >= 1 ==> now - history[i].time > Age(history[i].level)
  }

  /** No entry below the level is old enough for the next one. */
  ghost predicate NoneOverdue(history: seq<Entry>, now: int, level: int) {
    forall i :: 0 <= i < |history| && history[i].level < level && history[i].level < 4 ==>
      now - history[i].time <= Age(history[i].level + 1)
  }

  /** A history after a roll-up: no entry is old enough for a coarser level, and no two neighbours that were
      rolled up to the same level have the same time. */
  ghost predicate RolledUp(history: seq<Entry>, now: int) {
    NoneOverdue(history, now, 4) && forall l :: 1 <= l <= 4 ==> TwinFree(history, l)
  }

  lemma NoneBelowZero(history: seq<Entry>, now: int)
    ensures NoneOverdue(history, now, 0)
  {
  }

  /** No two neighbours of the level have the same time. */
  ghost predicate TwinFree(history: seq<Entry>, level: int) {
    forall i :: 0 < i < |history| && history[i - 1].level == level == history[i].level ==>
      history[i - 1].time != history[i].time
  }

  /** The entry is one of the first `n` that the pass leaves as it is. */
  ghost predicate LeftAlone(e: Entry, history: seq<Entry>, from: Level, to: Level, clock: nat -> int, n: nat)
    requires to >= 1 && n <= |history|
  {
    exists j :: 0 <= j < n && history[j] == e && !Rolls(history[j], from, to, clock(j))
  }

  ghost predicate AllRoll(history: seq<Entry>, level: Level, clock: nat -> int)
    requires level >= 1
  {
    forall i :: 0 <= i < |history| && history[i].level == level ==> Rolls(history[i], level, level, clock(i))
  }

  /** What a pass has made of the first `n` entries; `collecting` is whether its last entry may still grow. */
  ghost predicate PassSoFar(history: seq<Entry>, out: seq<Entry>, from: Level, to: Level, clock: nat -> int, now: int,
                            n: nat, collecting: bool)
    requires to >= 1 && n <= |history|
  {
    && (forall k :: 0 <= k < |out| ==>
          (out[k].level == to && now - out[k].time > Age(to)) || LeftAlone(out[k], history, from, to, clock, n))
    && (collecting ==> out != [] && out[|out| - 1].level == to && now - out[|out| - 1].time > Age(to))
    && (!collecting && n > 0 ==>
          out != [] && out[|out| - 1] == history[n - 1] && !Rolls(history[n - 1], from, to, clock(n - 1)))
    && (forall l :: l != to && TwinFree(history, l) ==> TwinFree(out, l))
    && (from == to && AllRoll(history, to, clock) ==> TwinFree(out, to))
  }

  lemma NothingPassed(history: seq<Entry>, from: Level, to: Level, clock: nat -> int, now: int)
    requires to >= 1
    ensures PassSoFar(history, [], from, to, clock, now, 0, false)
  {
  }

  lemma StillLeftAlone(e: Entry, history: seq<Entry>, from: Level, to: Level, clock: nat -> int, n: nat)
    requires to >= 1 && n < |history| && LeftAlone(e, history, from, to, clock, n)
    ensures LeftAlone(e, history, from, to, clock, n + 1)
  {
  }

  lemma TwinFreeSnoc(out: seq<Entry>, e: Entry, level: int)
    requires TwinFree(out, level)
    requires out != [] && out[|out| - 1].level == level == e.level ==> out[|out| - 1].time != e.time
    ensures TwinFree(out + [e], level)
  {
  }

  lemma PassLeaves(history: seq<Entry>, out: seq<Entry>, from: Level, to: Level, clock: nat -> int, now: int,
                   n: nat, collecting: bool)
    requires to >= 1 && n < |history| && PassSoFar(history, out, from, to, clock, now, n, collecting)
    requires !Rolls(history[n], from, to, clock(n)) && (n == 0 ==> out == [] && !collecting)
    ensures PassSoFar(history, out + [history[n]], from, to, clock, now, n + 1, false)
  {
    var h := history[n];
    forall k | 0 <= k < |out| && !(out[k].level == to && now - out[k].time > Age(to))
      ensures LeftAlone(out[k], history, from, to, clock, n + 1)
    {
      StillLeftAlone(out[k], history, from, to, clock, n);
    }
    forall l | l != to && TwinFree(history, l) ensures TwinFree(out + [h], l) {
      TwinFreeSnoc(out, h, l);
    }
    if from == to && AllRoll(history, to, clock) {
      TwinFreeSnoc(out, h, to);
    }
  }

  lemma PassRolls(history: seq<Entry>, out: seq<Entry>, from: Level, to: Level, clock: nat -> int, now: int,
                  n: nat, collecting: bool, e: Entry)
    requires to >= 1 && n < |history| && PassSoFar(history, out, from, to, clock, now, n, collecting)
    requires Rolls(history[n], from, to, clock(n)) && clock(n) <= now && (n == 0 ==> out == [] && !collecting)
    requires e == Entry(Truncate(history[n].time, Unit(to)), history[n].delta, to)
    requires collecting ==> out[|out| - 1].time != e.time
    ensures PassSoFar(history, out + [e], from, to, clock, now, n + 1, true)
  {
    TruncateBounds(history[n].time, Unit(to));
    forall k | 0 <= k < |out| && !(out[k].level == to && now - out[k].time > Age(to))
      ensures LeftAlone(out[k], history, from, to, clock, n + 1)
    {
      StillLeftAlone(out[k], history, from, to, clock, n);
    }
    forall l | l != to && TwinFree(history, l) ensures TwinFree(out + [e], l) {
      TwinFreeSnoc(out, e, l);
    }
    if from == to && AllRoll(history, to, clock) {
      TwinFreeSnoc(out, e, to);
    }
  }

  lemma PassMerges(history: seq<Entry>, front: seq<Entry>, last: Entry, from: Level, to: Level, clock: nat -> int,
                   now: int, n: nat, last': Entry)
    requires to >= 1 && n < |history| && PassSoFar(history, front + [last], from, to, clock, now, n, true)
    requires Rolls(history[n], from, to, clock(n)) && last.level == to
    requires last'.time == last.time && last'.level == last.level
    ensures PassSoFar(history, front + [last'], from, to, clock, now, n + 1, true)
  {
    var out, out' := front + [last], front + [last'];
    forall k | 0 <= k < |out'| && !(out'[k].level == to && now - out'[k].time > Age(to))
      ensures LeftAlone(out'[k], history, from, to, clock, n + 1)
    {
      assert out[|out| - 1] == last;
      assert k < |front| && out[k] == out'[k];
      StillLeftAlone(out[k], history, from, to, clock, n);
    }
    forall l | TwinFree(out, l) ensures TwinFree(out', l) {
      assert forall i :: 0 <= i < |out| ==> out'[i].time == out[i].time && out'[i].level == out[i].level;
    }
  }

  /** What a finished pass has done: entries are still as old as their levels demand, none below the target
      level is overdue, and no two neighbours of the target level have the same time if all of them rolled. */
  lemma PassResults(history: seq<Entry>, out: seq<Entry>, from: Level, to: Level, clock: nat -> int, now: int,
                    collecting: bool)
    requires 1 <= to && to - 1 <= from <= to && PassSoFar(history, out, from, to, clock, now, |history|, collecting)
    ensures Aged(history, now) ==> Aged(out, now)
    ensures (forall i :: clock(i) == now) && NoneOverdue(history, now, from) ==> NoneOverdue(out, now, to)
    ensures forall l :: l != to && TwinFree(history, l) ==> TwinFree(out, l)
    ensures from == to && (forall i :: clock(i) == now) && Aged(history, now) ==> TwinFree(out, to)
  {
    if (forall i :: clock(i) == now) && Aged(history, now) && from == to {
      assert AllRoll(history, to, clock);
    }
  }

  // ---------------------------------------------------------------------------------------------
  // When a pass keeps the labels and the times in order
  // ---------------------------------------------------------------------------------------------

  /** Among the entries of one level, those that roll up come before those that do not. */
  ghost predicate RolledComeFirst(history: seq<Entry>, from: Level, to: Level, clock: nat -> int)
    requires to >= 1
  {
    forall i, j :: 0 <= i < j < |history| && history[i].level == from && Rolls(history[j], from, to, clock(j)) ==>
      Rolls(history[i], from, to, clock(i))
  }

  /** A pass to the next coarser level keeps the labels in order if and only if the entries that its
      clock readings roll up come first. */
  lemma OrderKeptIffRolledComeFirst(history: seq<Entry>, from: Level, to: Level, clock: nat -> int)
    requires CoarseToFine(history) && to == from + 1
    ensures Descending(TargetLevels(history, from, to, clock, |history|)) <==> RolledComeFirst(history, from, to, clock)
  {
    var targets := TargetLevels(history, from, to, clock, |history|);
    assert forall i :: 0 <= i < |history| ==> Levels(history)[i] == history[i].level;
    assert forall i :: 0 <= i < |history| ==> targets[i] == TargetLevel(history[i], from, to, clock(i));
  }

  /** A pass within one level changes no label. */
  lemma SameLevelKeepsOrder(history: seq<Entry>, to: Level, clock: nat -> int)
    requires CoarseToFine(history) && to >= 1
    ensures Descending(TargetLevels(history, to, to, clock, |history|))
  {
    var targets := TargetLevels(history, to, to, clock, |history|);
    assert forall i :: 0 <= i < |history| ==> targets[i] == TargetLevel(history[i], to, to, clock(i));
    assert forall i :: 0 <= i < |history| ==> Levels(history)[i] == history[i].level;
  }

  ghost predicate Steady(clock: nat -> int) {
    forall i :: clock(i) == clock(0)
  }

  /** A clock that does not advance during the pass rolls up a prefix. */
  lemma SteadyKeepsOrder(history: seq<Entry>, groups: seq<seq<Increment>>, from: Level, to: Level, clock: nat -> int)
    requires CoarseToFine(history) && Grouped(history, groups) && Sorted(Flatten(groups)) && Steady(clock)
    requires 1 <= to && to - 1 <= from <= to
    ensures Descending(TargetLevels(history, from, to, clock, |history|))
  {
    if from == to {
      SameLevelKeepsOrder(history, to, clock);
    } else {
      TimesAreSorted(history, groups);
      OrderKeptIffRolledComeFirst(history, from, to, clock);
    }
  }

  /** The code reads the clock for every entry.  When it advances between two entries of the same
      age, the later one may roll up alone, and labels and times are out of order. */
  lemma AdvancingClockBreaksOrder()
    ensures var history := [Entry(1500, 1, 0), Entry(1500, 1, 0)];
      var clock := (i: nat) => if i == 0 then 3500 else 3501;
      && CoarseToFine(history) && !Descending(TargetLevels(history, 0, 1, clock, 2))
      && TimesSorted(history)
      && !TimesSorted([Rolled(history[0], 0, 1, clock(0)), Rolled(history[1], 0, 1, clock(1))])
  {
    var history := [Entry(1500, 1, 0), Entry(1500, 1, 0)];
    var clock := (i: nat) => if i == 0 then 3500 else 3501;
    assert clock(0) == 3500 && clock(1) == 3501;
    var targets := TargetLevels(history, 0, 1, clock, 2);
    assert targets[0] == TargetLevel(history[0], 0, 1, 3500) == 0;
    assert targets[1] == TargetLevel(history[1], 0, 1, 3501) == 1;
    var after := [Rolled(history[0], 0, 1, clock(0)), Rolled(history[1], 0, 1, clock(1))];
    assert after[0].time == 1500 && after[1].time == 1000;
  }

  lemma {:induction false} FlattenAt(groups: seq<seq<Increment>>, i: nat)
    requires i < |groups| && groups[i] != []
    ensures |Flatten(groups[..i])| + |groups[i]| <= |Flatten(groups)|
    ensures Flatten(groups)[|Flatten(groups[..i])|] == groups[i][0]
    decreases |groups|
  {
    var init := groups[..|groups| - 1];
    if i < |init| {
      FlattenAt(init, i);
      assert init[..i] == groups[..i];
    }
  }

  lemma FlattenGrows(groups: seq<seq<Increment>>, i: nat, j: nat)
    requires i < j <= |groups|
    ensures |Flatten(groups[..i])| + |groups[i]| <= |Flatten(groups[..j])|
  {
    if groups[i] != [] {
      assert groups[..j][..i] == groups[..i];
      FlattenAt(groups[..j], i);
    } else {
      FlattenPrefix(groups, i, j);
    }
  }

  lemma {:induction false} FlattenPrefix(groups: seq<seq<Increment>>, i: nat, j: nat)
    requires i <= j <= |groups|
    ensures |Flatten(groups[..i])| <= |Flatten(groups[..j])|
    decreases j
  {
    if i < j {
      assert groups[..j][..j - 1] == groups[..j - 1];
      FlattenPrefix(groups, i, j - 1);
    }
  }

  /** Labels in order and increments in order make the history's times sorted. */
  lemma TimesAreSorted(history: seq<Entry>, groups: seq<seq<Increment>>)
    requires CoarseToFine(history) && Grouped(history, groups) && Sorted(Flatten(groups))
    ensures TimesSorted(history)
  {
    forall i, j | 0 <= i < j < |history| ensures history[i].time <= history[j].time {
      FlattenAt(groups, i);
      FlattenAt(groups, j);
      FlattenGrows(groups, i, j);
      assert StandsFor(history[i], groups[i]) && StandsFor(history[j], groups[j]);
      assert Levels(history)[i] >= Levels(history)[j];
      TruncateMonotone(groups[i][0].time, groups[j][0].time, history[j].level, history[i].level);
    }
  }

  // ---------------------------------------------------------------------------------------------
  // What a query of the history tells about the increments
  // ---------------------------------------------------------------------------------------------

  ghost predicate NonNegative(increments: seq<Increment>) {
    forall i :: 0 <= i < |increments| ==> increments[i].delta >= 0
  }

  lemma {:induction false} AddedAppend(a: seq<Increment>, b: seq<Increment>, c: int)
    ensures AddedUpTo(a + b, c) == AddedUpTo(a, c) + AddedUpTo(b, c)
  {
    if b == [] {
      assert a + b == a;
    } else {
      assert (a + b)[..|a + b| - 1] == a + b[..|b| - 1];
      AddedAppend(a, b[..|b| - 1], c);
    }
  }

  lemma {:induction false} AddedBounds(g: seq<Increment>, c: int)
    requires NonNegative(g)
    ensures 0 <= AddedUpTo(g, c) <= Total(g)
    ensures AllBefore(g, c + 1) ==> AddedUpTo(g, c) == Total(g)
    ensures (forall i :: 0 <= i < |g| ==> g[i].time > c) ==> AddedUpTo(g, c) == 0
  {
    if g != [] {
      var init := g[..|g| - 1];
      AddedBounds(init, c);
      assert AllBefore(g, c + 1) ==> AllBefore(init, c + 1) && g[|g| - 1].time < c + 1;
    }
  }

  lemma NonNegativeParts(a: seq<Increment>, b: seq<Increment>)
    requires NonNegative(a + b)
    ensures NonNegative(a) && NonNegative(b)
  {
    assert forall i :: 0 <= i < |a| ==> (a + b)[i] == a[i];
    assert forall i :: 0 <= i < |b| ==> (a + b)[|a| + i] == b[i];
  }

  lemma IncrementWithinHour(h: Entry, g: seq<Increment>, j: nat, now: int, c: int)
    requires StandsFor(h, g) && j < |g| && h.time <= c && c >= now - 7 * DAY
    requires h.level == 4 ==> AllBefore(g, now - ROLL_UP_HOUR_TO_DAY + HOUR)
    ensures g[j].time < c + HOUR && ((c + 1) % HOUR == 0 ==> g[j].time <= c)
  {
    if h.level < 4 {
      TruncateBounds(g[j].time, Unit(h.level));
      if (c + 1) % HOUR == 0 {
        HourEndSeparates(g[j].time, h.level, c);
      }
    }
  }

  lemma {:induction false} AddedMonotone(g: seq<Increment>, c: int, d: int)
    requires NonNegative(g) && c <= d
    ensures AddedUpTo(g, c) <= AddedUpTo(g, d)
  {
    if g != [] {
      AddedMonotone(g[..|g| - 1], c, d);
    }
  }

  lemma {:induction false} FlattenSplit(groups: seq<seq<Increment>>, k: nat)
    requires k <= |groups|
    ensures Flatten(groups) == Flatten(groups[..k]) + Flatten(groups[k..])
    decreases |groups|
  {
    if k == |groups| {
      assert groups[..k] == groups;
    } else {
      var init := groups[..|groups| - 1];
      FlattenSplit(init, k);
      assert init[..k] == groups[..k] && groups[k..][..|groups| - k - 1] == init[k..];
    }
  }

  /** The entries before position `k` carry what the increments that they stand for add up to. */
  lemma {:induction false} DeltasAreTotals(history: seq<Entry>, groups: seq<seq<Increment>>, k: nat)
    requires Grouped(history, groups) && k <= |history|
    ensures Deltas(history[..k]) == Total(Flatten(groups[..k]))
    decreases k
  {
    if k > 0 {
      DeltasAreTotals(history, groups, k - 1);
      assert history[..k][..k - 1] == history[..k - 1] && groups[..k][..k - 1] == groups[..k - 1];
      TotalAppend(Flatten(groups[..k - 1]), groups[k - 1]);
      assert StandsFor(history[k - 1], groups[k - 1]);
    }
  }

  /** What a binary search finds, in any history: the entry before is not later than `t` and the entry
      itself is. */
  ghost predicate Cut(history: seq<Entry>, t: int, k: nat) {
    k <= |history| && (k > 0 ==> history[k - 1].time <= t) && (k < |history| ==> history[k].time > t)
  }

  /** The first increment from a cut on was added after it. */
  lemma FirstAfterCut(history: seq<Entry>, groups: seq<seq<Increment>>, c: int, k: nat)
    requires Grouped(history, groups) && Cut(history, c, k) && k < |history|
    ensures Flatten(groups[k..]) != [] && Flatten(groups[k..])[0].time > c
  {
    assert StandsFor(history[k], groups[k]);
    TruncateBounds(groups[k][0].time, Unit(history[k].level));
    FlattenAt(groups[k..], 0);
  }

  lemma RestIsLater(before: seq<Increment>, after: seq<Increment>, skew: nat, c: int)
    requires NearlySorted(before + after, skew) && after != [] && after[0].time > c
    ensures forall i :: 0 <= i < |after| ==> after[i].time > c - skew
  {
    forall i | 0 <= i < |after| ensures after[i].time > c - skew {
      assert (before + after)[|before|] == after[0] && (before + after)[|before| + i] == after[i];
    }
  }

  /** Nothing from a cut on was added before it, up to the skew. */
  lemma NothingBeforeCut(history: seq<Entry>, groups: seq<seq<Increment>>, skew: nat, c: int, k: nat)
    requires Grouped(history, groups) && NearlySorted(Flatten(groups), skew) && Cut(history, c, k)
    ensures var after := Flatten(groups[k..]);
      forall i :: 0 <= i < |after| ==> after[i].time > c - skew
  {
    if k < |history| {
      hide Flatten, NearlySorted, StandsFor;
      FlattenSplit(groups, k);
      FirstAfterCut(history, groups, c, k);
      RestIsLater(Flatten(groups[..k]), Flatten(groups[k..]), skew, c);
    }
  }

  /** Nothing before a cut was added much later than it: not later than the entry before the cut allows. */
  lemma NothingAfterCut(groups: seq<seq<Increment>>, skew: nat, d: int, k: nat)
    requires k <= |groups| && NearlySorted(Flatten(groups), skew)
    requires k > 0 ==> groups[k - 1] != [] && AllBefore(groups[k - 1], d + 1)
    ensures AllBefore(Flatten(groups[..k]), d + skew + 1)
  {
    FlattenSplit(groups, k);
    if k > 0 {
      var before, all := Flatten(groups[..k - 1]), Flatten(groups[..k]);
      assert groups[..k][..k - 1] == groups[..k - 1];
      assert all == before + groups[k - 1];
      forall i | 0 <= i < |all| ensures all[i].time < d + skew + 1 {
        assert all[i] == Flatten(groups)[i] && Flatten(groups)[|before|] == groups[k - 1][0];
      }
    }
  }

  /** What comes before a cut adds up to what the increments there add up to. */
  lemma CutParts(history: seq<Entry>, groups: seq<seq<Increment>>, k: nat)
    requires Grouped(history, groups) && NonNegative(Flatten(groups)) && k <= |history|
    ensures var before, after := Flatten(groups[..k]), Flatten(groups[k..]);
      && Flatten(groups) == before + after && NonNegative(before) && NonNegative(after)
      && Deltas(history[..k]) == Total(before)
  {
    FlattenSplit(groups, k);
    NonNegativeParts(Flatten(groups[..k]), Flatten(groups[k..]));
    DeltasAreTotals(history, groups, k);
  }

  /** The accuracy of a cut: what comes before it is at least what was added up to `c` and at most what
      was added up to `d`, both up to the skew. */
  lemma CutBounds(history: seq<Entry>, groups: seq<seq<Increment>>, skew: nat, c: int, d: int, k: nat)
    requires Grouped(history, groups) && NonNegative(Flatten(groups)) && NearlySorted(Flatten(groups), skew)
    requires k <= |history| == |groups| && Cut(history, c, k)
    requires k > 0 ==> groups[k - 1] != [] && AllBefore(groups[k - 1], d + 1)
    ensures AddedUpTo(Flatten(groups), c - skew) <= Deltas(history[..k]) <= AddedUpTo(Flatten(groups), d + skew)
  {
    hide Grouped, NearlySorted, NonNegative, AllBefore, Cut, Flatten, AddedUpTo, Total, Deltas;
    NothingBeforeCut(history, groups, skew, c, k);
    NothingAfterCut(groups, skew, d, k);
    CutParts(history, groups, k);
    PrefixBounds(Flatten(groups[..k]), Flatten(groups[k..]), c - skew, d + skew);
  }

  lemma PrefixBounds(before: seq<Increment>, after: seq<Increment>, lo: int, hi: int)
    requires NonNegative(before) && NonNegative(after)
    requires AllBefore(before, hi + 1) && forall i :: 0 <= i < |after| ==> after[i].time > lo
    ensures AddedUpTo(before + after, lo) <= Total(before) <= AddedUpTo(before + after, hi)
  {
    AddedAppend(before, after, lo);
    AddedAppend(before, after, hi);
    AddedBounds(before, lo);
    AddedBounds(before, hi);
    AddedBounds(after, lo);
    AddedBounds(after, hi);
  }

  /** At a point in time that is at most seven days ago, nothing that was added is missing before the
      cut, nothing counts that was added an hour later or more, and at the last millisecond of an
      hour the cut is exact; however long ago, it is less than a day ahead.  The skew comes on top. */
  lemma HistoryAccuracy(history: seq<Entry>, groups: seq<seq<Increment>>, increments: seq<Increment>, now: int,
                        skew: nat, c: int, k: nat)
    requires Represents(history, groups, increments, now) && NonNegative(increments)
    requires NearlySorted(increments, skew) && Cut(history, c, k)
    ensures AddedUpTo(increments, c - skew) <= Deltas(history[..k]) <= AddedUpTo(increments, c + DAY - 1 + skew)
    ensures c >= now - 7 * DAY ==> Deltas(history[..k]) <= AddedUpTo(increments, c + HOUR - 1 + skew)
    ensures c >= now - 7 * DAY && (c + 1) % HOUR == 0 ==> Deltas(history[..k]) <= AddedUpTo(increments, c + skew)
  {
    if k > 0 {
      var h, g := history[k - 1], groups[k - 1];
      assert StandsFor(h, g);
      forall j | 0 <= j < |g| ensures g[j].time < c + DAY
        && (c >= now - 7 * DAY ==> g[j].time < c + HOUR && ((c + 1) % HOUR == 0 ==> g[j].time <= c))
      {
        TruncateBounds(g[j].time, Unit(h.level));
        if c >= now - 7 * DAY {
          IncrementWithinHour(h, g, j, now, c);
        }
      }
    }
    CutBounds(history, groups, skew, c, c + DAY - 1, k);
    if c >= now - 7 * DAY {
      CutBounds(history, groups, skew, c, c + HOUR - 1, k);
      if (c + 1) % HOUR == 0 {
        CutBounds(history, groups, skew, c, c, k);
      }
    }
  }

  // ---------------------------------------------------------------------------------------------
  // The counter
  // ---------------------------------------------------------------------------------------------

  class Counter {
    var value: int
    var op: nat
    var history: seq<Entry>

    // the plain list of increments, how the history groups it, the latest clock reading, and how
    // far out of order callers have stored their increments
    ghost var increments: seq<Increment>
    ghost var groups: seq<seq<Increment>>
    ghost var now: int
    ghost var skew: nat

    ghost predicate Valid()
      reads this
    {
      && Represents(history, groups, increments, now)
      && value == Total(increments)
      && NearlySorted(increments, skew) && NonNegative(increments)
      && AllBefore(increments, now + 1) && Aged(history, now)
    }

    constructor ()
      ensures Valid() && value == 0 && increments == [] && skew == 0 && CoarseToFine(history)
    {
      value, op, history, increments, groups, now, skew := 0, 0, [], [], [], 0, 0;
    }

    /** One roll-up pass.  It keeps what the history stands for, and keeps the labels in order if and
        only if the entries that the clock readings make it roll up come first. */
    method DoRollUp(from: Level, to: Level, clock: nat -> int)
      requires 1 <= to && to - 1 <= from <= to
      requires Represents(history, groups, increments, now) && forall i :: clock(i) <= now
      modifies this`history, this`groups
      ensures Represents(history, groups, increments, now)
      ensures CoarseToFine(history) <==> Descending(TargetLevels(old(history), from, to, clock, |old(history)|))
      ensures exists collecting :: PassSoFar(old(history), history, from, to, clock, now, |old(history)|, collecting)
    {
      hide Represents, InStep, TargetLevels, Flatten, CoarseToFine, Descending, Rolls, PassSoFar;
      var newHistory: seq<Entry> := [];
      var last: Option<Entry> := None;
      PassBegins(history, groups, increments, from, to, clock, now);
      NothingPassed(history, from, to, clock, now);
      ghost var out: seq<Entry> := [];
      ghost var outGroups: seq<seq<Increment>> := [];
      for i := 0 to |history|
        invariant history == old(history) && groups == old(groups)
        invariant out == newHistory + (if last.Some? then [last.value] else [])
        invariant last.Some? ==> last.value.level == to
        invariant Represents(out, outGroups, Flatten(groups[..i]), now)
        invariant InStep(out, TargetLevels(history, from, to, clock, i))
        invariant PassSoFar(history, out, from, to, clock, now, i, last.Some?) && (i == 0 ==> out == [] && last.None?)
      {
        var h := history[i];
        ghost var collecting := last.Some?;
        NextCell(history, groups, increments, now, from, to, clock, i);
        if !Rolls(h, from, to, clock(i)) {
          newHistory := newHistory + (if last.Some? then [last.value] else []) + [h];
          last := None;
          AppendCell(out, outGroups, Flatten(groups[..i]), now, h, groups[i]);
          InStepAppend(out, TargetLevels(history, from, to, clock, i), h);
          PassLeaves(history, out, from, to, clock, now, i, collecting);
          out, outGroups := out + [h], outGroups + [groups[i]];
        } else {
          var rolled := Rolled(h, from, to, clock(i));
          RolledCell(history, groups, increments, i, from, to, clock(i), now);
          if last.Some? && last.value.time == rolled.time {
            var merged := Entry(last.value.time, last.value.delta + h.delta, to);
            outGroups := MergeCell(newHistory, outGroups, Flatten(groups[..i]), now, last.value, rolled, groups[i]);
            InStepMerge(newHistory, last.value, merged, TargetLevels(history, from, to, clock, i));
            PassMerges(history, newHistory, last.value, from, to, clock, now, i, merged);
            last := Some(merged);
            out := newHistory + [merged];
          } else {
            newHistory := newHistory + (if last.Some? then [last.value] else []);
            last := Some(rolled);
            AppendCell(out, outGroups, Flatten(groups[..i]), now, rolled, groups[i]);
            InStepAppend(out, TargetLevels(history, from, to, clock, i), rolled);
            PassRolls(history, out, from, to, clock, now, i, collecting, rolled);
            out, outGroups := out + [rolled], outGroups + [groups[i]];
          }
        }
      }
      PassEnds(history, groups, increments, now, out, TargetLevels(history, from, to, clock, |history|));
      history := newHistory + (if last.Some? then [last.value] else []);
      groups := outGroups;
    }

    /** A pass whose clock does not advance keeps the labels in order. */
    method Pass(from: Level, to: Level, clock: nat -> int)
      requires 1 <= to && to - 1 <= from <= to
      requires Represents(history, groups, increments, now) && forall i :: clock(i) <= now
      modifies this`history, this`groups
      ensures Represents(history, groups, increments, now)
      ensures old(CoarseToFine(history)) && Sorted(increments) && Steady(clock) ==> CoarseToFine(history)
      ensures old(Aged(history, now)) ==> Aged(history, now)
      ensures (forall i :: clock(i) == now) && old(NoneOverdue(history, now, from)) ==> NoneOverdue(history, now, to)
      ensures forall l :: l != to && TwinFree(old(history), l) ==> TwinFree(history, l)
      ensures from == to && (forall i :: clock(i) == now) && old(Aged(history, now)) ==> TwinFree(history, to)
    {
      hide Represents, PassSoFar, CoarseToFine, NearlySorted, TargetLevels, Descending, Aged, NoneOverdue, TwinFree;
      if CoarseToFine(history) && Sorted(increments) && Steady(clock) {
        RepresentsGrouped(history, groups, increments, now);
        SteadyKeepsOrder(history, groups, from, to, clock);
      }
      ghost var before := history;
      DoRollUp(from, to, clock);
      ghost var collecting :| PassSoFar(before, history, from, to, clock, now, |before|, collecting);
      PassResults(before, history, from, to, clock, now, collecting);
    }

    /** Every thousandth operation rolls up the history, level by level; `clock(p, i)` is the clock
        reading for entry `i` in pass `p`. */
    method RollUp(clock: (nat, nat) -> int)
      requires Represents(history, groups, increments, now) && forall p, i :: clock(p, i) <= now
      modifies this`history, this`groups
      ensures Represents(history, groups, increments, now)
      ensures old(CoarseToFine(history)) && Sorted(increments) && SteadyPasses(clock) ==> CoarseToFine(history)
      ensures op % 1000 != 0 ==> history == old(history)
      ensures old(Aged(history, now)) ==> Aged(history, now)
      ensures op % 1000 == 0 && old(Aged(history, now)) && (forall p, i :: clock(p, i) == now) ==> RolledUp(history, now)
    {
      hide Represents, CoarseToFine, Sorted, Aged, NoneOverdue, TwinFree;
      if op % ROLL_UP_INTERVAL != 0 {
        return;
      }
      NoneBelowZero(history, now);
      for p := 0 to 8
        invariant Represents(history, groups, increments, now)
        invariant old(CoarseToFine(history)) && Sorted(increments) && SteadyPasses(clock) ==> CoarseToFine(history)
        invariant old(Aged(history, now)) ==> Aged(history, now)
        invariant (forall q, i :: clock(q, i) == now) ==> NoneOverdue(history, now, (p + 1) / 2)
        invariant old(Aged(history, now)) && (forall q, i :: clock(q, i) == now) ==>
          forall l :: 1 <= l <= p / 2 ==> TwinFree(history, l)
      {
        var to := p / 2 + 1;
        var from := if p % 2 == 0 then to - 1 else to;
        Pass(from, to, (i: nat) => clock(p, i));
      }
    }

    /** Appends an increment as an entry of its own. */
    method Append(delta: int, t: int)
      requires Valid() && delta >= 0 && t <= now
      modifies this`value, this`history, this`groups, this`increments, this`skew
      ensures Valid() && value == old(value) + delta
      ensures increments == old(increments) + [Increment(t, delta)]
      ensures skew == LaterSkew(old(increments), old(skew), now, t)
      ensures old(CoarseToFine(history)) ==> CoarseToFine(history)
      ensures history == old(history) + [Entry(t, delta, 0)]
    {
      hide Represents, CoarseToFine;
      ghost var x := Increment(t, delta);
      AddIncrement(history, groups, increments, now, x);
      AddSkew(increments, skew, now, x);
      value := value + delta;
      history := history + [Entry(t, delta, 0)];
      groups := groups + [[x]];
      skew := LaterSkew(increments, skew, now, t);
      increments := increments + [x];
    }

    /** Adds to the counter at time `t`, which is not after `read`, the latest clock reading. */
    method AddWithTime(delta: int, t: int, clock: (nat, nat) -> int, ghost read: int) returns (result: int)
      requires Valid() && delta >= 0
      requires t <= read && now <= read && forall p, i :: clock(p, i) <= read
      modifies this
      ensures Valid() && now == read && result == value
      ensures increments == old(increments) + if delta == 0 then [] else [Increment(t, delta)]
      ensures value == old(value) + delta
      ensures AllBefore(old(increments), t + 1) ==> skew == old(skew)
      ensures old(CoarseToFine(history)) && skew == 0 && SteadyPasses(clock) ==> CoarseToFine(history)
      ensures op == old(op) + 1 && (delta == 0 ==> history == old(history))
      ensures delta > 0 && op % 1000 != 0 ==> history == old(history) + [Entry(t, delta, 0)]
      ensures delta > 0 && op % 1000 == 0 && (forall p, i :: clock(p, i) == read) ==> RolledUp(history, read)
    {
      LaterRepresents(history, groups, increments, now, read);
      hide Represents, CoarseToFine, SteadyPasses, NearlySorted, RolledUp;
      now := read;
      op := op + 1;
      if delta == 0 {
        return value;
      }
      Append(delta, t);
      RollUp(clock);
      result := value;
    }

    /** The first entry after time `t`, by binary search: a cut of any history, and all entries up to
        `t` if their times are sorted. */
    method FirstAfter(t: int) returns (k: nat)
      ensures k <= |history| && Cut(history, t, k)
      ensures TimesSorted(history) ==> SplitsAt(history, t, k)
    {
      var lo, hi := 0, |history|;
      while lo < hi
        invariant 0 <= lo <= hi <= |history|
        invariant lo > 0 ==> history[lo - 1].time <= t
        invariant hi < |history| ==> history[hi].time > t
      {
        var mid := (lo + hi) / 2;
        if history[mid].time > t {
          hi := mid;
        } else {
          lo := mid + 1;
        }
      }
      k := lo;
    }

    /** The increment after `t1` and up to `t2`, in any history, in order or not. */
    method DeltaBetween(t1: int, t2: int) returns (sum: int, ghost k1: nat, ghost k2: nat)
      requires Valid() && t1 <= t2
      modifies this`op
      ensures op == old(op) + 1
      ensures Cut(history, t1, k1) && Cut(history, t2, k2) && sum == Between(history, k1, k2)
      ensures TimesSorted(history) ==> sum == RecordedUpTo(history, t2) - RecordedUpTo(history, t1)
      ensures WithinUnits(increments, skew, t1, UnitBefore(history, k1), t2, UnitBefore(history, k2), sum)
      ensures Accurate(increments, now, skew, t1, t2, sum)
    {
      hide Represents, Accurate, Cut, Between, RecordedUpTo, NearlySorted, WithinUnits, UnitBefore;
      op := op + 1;
      var i1 := FirstAfter(t1);
      var i2 := FirstAfter(t2);
      k1, k2 := i1, i2;
      sum := SumOf(i1, i2);
      QueryIsAccurate(history, groups, increments, now, skew, t1, t2, i1, i2);
      QueryIsWithinUnits(history, groups, increments, now, skew, t1, t2, i1, i2);
      if TimesSorted(history) {
        QueryIsFilter(history, t1, t2, i1, i2);
      }
    }

    method SumOf(i1: nat, i2: nat) returns (sum: int)
      requires i1 <= |history| && i2 <= |history|
      ensures sum == Between(history, i1, i2)
    {
      sum := 0;
      var i := i1;
      while i < i2
        invariant i1 <= i <= i2 || i2 < i1 == i
        invariant i1 <= i2 ==> sum == Deltas(history[..i]) - Deltas(history[..i1])
        invariant i2 < i1 ==> sum == 0
      {
        assert history[..i + 1][..i] == history[..i];
        sum := sum + history[i].delta;
        i := i + 1;
      }
    }
  }

  /** The sum of the entries from one position up to another, none if they are in the wrong order. */
  function Between(history: seq<Entry>, i1: nat, i2: nat): int
    requires i1 <= |history| && i2 <= |history|
  {
    if i1 <= i2 then Deltas(history[..i2]) - Deltas(history[..i1]) else 0
  }

  /** What a query may answer.  Between last milliseconds of an hour, of which the first is at most
      seven days ago: what was added after `t1` and up to `t2`, exactly if no two increments were
      stored out of order.  Up to now: never more than was added after `t1`, and at most an hour's
      worth less, or a day's worth if `t1` is longer ago.  The skew widens every bound. */
  ghost predicate Accurate(increments: seq<Increment>, now: int, skew: nat, t1: int, t2: int, sum: int) {
    && (t1 >= now - 7 * DAY && (t1 + 1) % HOUR == (t2 + 1) % HOUR == 0 ==>
          AddedUpTo(increments, t2 - skew) - AddedUpTo(increments, t1 + skew) <= sum
          <= AddedUpTo(increments, t2 + skew) - AddedUpTo(increments, t1 - skew))
    && (t2 >= now ==>
          && sum <= Total(increments) - AddedUpTo(increments, t1 - skew)
          && sum >= Total(increments) - AddedUpTo(increments, t1 + DAY - 1 + skew)
          && (t1 >= now - 7 * DAY ==> sum >= Total(increments) - AddedUpTo(increments, t1 + HOUR - 1 + skew)))
  }

  /** How exactly the entry before a position tells its time. */
  function UnitBefore(history: seq<Entry>, k: nat): int
    requires k <= |history|
  {
    if k == 0 then 1 else Unit(history[k - 1].level)
  }

  /** The answer is what was added after `t1` and up to `t2`, as exactly as the entries before the two cuts tell
      their times: where they are entries as added, and none was stored out of order, it is exact. */
  ghost predicate WithinUnits(increments: seq<Increment>, skew: nat, t1: int, unit1: int, t2: int, unit2: int,
                              sum: int) {
    AddedUpTo(increments, t2 - skew) - AddedUpTo(increments, t1 + unit1 - 1 + skew) <= sum
    <= AddedUpTo(increments, t2 + unit2 - 1 + skew) - AddedUpTo(increments, t1 - skew)
  }

  lemma CutWithinUnit(history: seq<Entry>, groups: seq<seq<Increment>>, increments: seq<Increment>, now: int,
                      skew: nat, c: int, k: nat)
    requires Represents(history, groups, increments, now) && NonNegative(increments)
    requires NearlySorted(increments, skew) && Cut(history, c, k)
    ensures AddedUpTo(increments, c - skew) <= Deltas(history[..k])
         <= AddedUpTo(increments, c + UnitBefore(history, k) - 1 + skew)
  {
    if k > 0 {
      var h, g := history[k - 1], groups[k - 1];
      assert StandsFor(h, g);
      forall j | 0 <= j < |g| ensures g[j].time < c + Unit(h.level) {
        TruncateBounds(g[j].time, Unit(h.level));
      }
    }
    CutBounds(history, groups, skew, c, c + UnitBefore(history, k) - 1, k);
  }

  lemma QueryIsWithinUnits(history: seq<Entry>, groups: seq<seq<Increment>>, increments: seq<Increment>, now: int,
                           skew: nat, t1: int, t2: int, i1: nat, i2: nat)
    requires Represents(history, groups, increments, now) && NonNegative(increments) && t1 <= t2
    requires NearlySorted(increments, skew) && i1 <= |history| && i2 <= |history|
    requires Cut(history, t1, i1) && Cut(history, t2, i2)
    ensures WithinUnits(increments, skew, t1, UnitBefore(history, i1), t2, UnitBefore(history, i2), Between(history, i1, i2))
  {
    CutWithinUnit(history, groups, increments, now, skew, t1, i1);
    CutWithinUnit(history, groups, increments, now, skew, t2, i2);
    if i1 > i2 {
      DeltasMonotone(history, groups, i2, i1);
      assert UnitBefore(history, i2) > 0;
      AddedMonotone(increments, t1 - skew, t2 + UnitBefore(history, i2) - 1 + skew);
    }
  }

  /** Where the times are sorted, the answer is what a filter of the history gives. */
  lemma QueryIsFilter(history: seq<Entry>, t1: int, t2: int, i1: nat, i2: nat)
    requires SplitsAt(history, t1, i1) && SplitsAt(history, t2, i2) && t1 <= t2
    ensures Between(history, i1, i2) == RecordedUpTo(history, t2) - RecordedUpTo(history, t1)
  {
    SearchIsFilter(history, t1, i1);
    SearchIsFilter(history, t2, i2);
  }

  /** A query between two cuts among entries as added, none of them stored out of order, is exact. */
  lemma ExactAmongEntries(increments: seq<Increment>, t1: int, t2: int, sum: int)
    requires WithinUnits(increments, 0, t1, 1, t2, 1, sum)
    ensures sum == AddedUpTo(increments, t2) - AddedUpTo(increments, t1)
  {
  }

  lemma {:induction false} DeltasMonotone(history: seq<Entry>, groups: seq<seq<Increment>>, i: nat, j: nat)
    requires Grouped(history, groups) && NonNegative(Flatten(groups)) && i <= j <= |history|
    ensures Deltas(history[..i]) <= Deltas(history[..j])
    decreases j
  {
    if i < j {
      DeltasMonotone(history, groups, i, j - 1);
      assert history[..j][..j - 1] == history[..j - 1] && groups[..j][..j - 1] == groups[..j - 1];
      assert StandsFor(history[j - 1], groups[j - 1]);
      FlattenSplit(groups, j);
      NonNegativeParts(Flatten(groups[..j]), Flatten(groups[j..]));
      NonNegativeParts(Flatten(groups[..j - 1]), groups[j - 1]);
      AddedBounds(groups[j - 1], 0);
    }
  }

  /** A cut at the present comes after everything. */
  lemma CutAtPresent(history: seq<Entry>, groups: seq<seq<Increment>>, increments: seq<Increment>, now: int, t: int,
                     k: nat)
    requires Represents(history, groups, increments, now) && AllBefore(increments, now + 1)
    requires Cut(history, t, k) && t >= now
    ensures k == |history| && Deltas(history[..k]) == Total(increments)
  {
    if k < |history| {
      FlattenAt(groups, k);
      assert StandsFor(history[k], groups[k]);
      TruncateBounds(groups[k][0].time, Unit(history[k].level));
      assert false;
    }
    DeltasAreTotals(history, groups, k);
    assert groups[..k] == groups;
  }

  lemma QueryIsAccurate(history: seq<Entry>, groups: seq<seq<Increment>>, increments: seq<Increment>, now: int,
                        skew: nat, t1: int, t2: int, i1: nat, i2: nat)
    requires Represents(history, groups, increments, now) && NonNegative(increments) && t1 <= t2
    requires NearlySorted(increments, skew) && AllBefore(increments, now + 1)
    requires Cut(history, t1, i1) && Cut(history, t2, i2)
    ensures Accurate(increments, now, skew, t1, t2, Between(history, i1, i2))
  {
    HistoryAccuracy(history, groups, increments, now, skew, t1, i1);
    HistoryAccuracy(history, groups, increments, now, skew, t2, i2);
    if t2 >= now {
      CutAtPresent(history, groups, increments, now, t2, i2);
    }
    if i1 > i2 {
      DeltasMonotone(history, groups, i2, i1);
    }
    AddedMonotone(increments, t1 - skew, t2 + skew);
  }

  ghost predicate SteadyPasses(clock: (nat, nat) -> int) {
    forall p, i :: clock(p, i) == clock(p, 0)
  }

  /** `k` is where the entries up to `t` end. */
  ghost predicate SplitsAt(history: seq<Entry>, t: int, k: nat) {
    k <= |history| && forall i :: 0 <= i < |history| ==> (history[i].time <= t <==> i < k)
  }

  function Deltas(history: seq<Entry>): int {
    if history == [] then 0 else Deltas(history[..|history| - 1]) + history[|history| - 1].delta
  }

  /** The binary search finds what a filter of the whole history finds. */
  lemma {:induction false} SearchIsFilter(history: seq<Entry>, t: int, k: nat)
    requires SplitsAt(history, t, k)
    ensures RecordedUpTo(history, t) == Deltas(history[..k])
    decreases |history|
  {
    if history != [] {
      var init := history[..|history| - 1];
      if k < |history| {
        SearchIsFilter(init, t, k);
        assert init[..k] == history[..k];
      } else {
        SearchIsFilter(init, t, k - 1);
        assert init[..k - 1] == init && history[..k] == history;
      }
    }
  }

  lemma RepresentsGrouped(history: seq<Entry>, groups: seq<seq<Increment>>, increments: seq<Increment>, now: int)
    requires Represents(history, groups, increments, now)
    ensures Grouped(history, groups) && Flatten(groups) == increments
  {
  }

  lemma LaterRepresents(history: seq<Entry>, groups: seq<seq<Increment>>, increments: seq<Increment>, now: int,
                        later: int)
    requires Represents(history, groups, increments, now) && now <= later
    ensures Represents(history, groups, increments, later)
  {
    forall i | 0 <= i < |history| && history[i].level == 4
      ensures AllBefore(groups[i], later - ROLL_UP_HOUR_TO_DAY + HOUR)
    {
      assert AllBefore(groups[i], now - ROLL_UP_HOUR_TO_DAY + HOUR);
    }
  }

  lemma AddIncrement(history: seq<Entry>, groups: seq<seq<Increment>>, increments: seq<Increment>, now: int,
                     x: Increment)
    requires Represents(history, groups, increments, now)
    ensures Represents(history + [Entry(x.time, x.delta, 0)], groups + [[x]], increments + [x], now)
    ensures Total(increments + [x]) == Total(increments) + x.delta
    ensures CoarseToFine(history) ==> CoarseToFine(history + [Entry(x.time, x.delta, 0)])
  {
    var h := Entry(x.time, x.delta, 0);
    assert Total([x]) == x.delta by { assert [x][..0] == []; }
    AppendCell(history, groups, increments, now, h, [x]);
    TotalAppend(increments, [x]);
    assert Levels(history + [h]) == Levels(history) + [0];
    DescendingSnoc(Levels(history), 0);
  }

  /** How far out of order the increments are once one at time `t` is stored; all others are not later
      than `now`. */
  ghost function LaterSkew(increments: seq<Increment>, skew: nat, now: int, t: int): nat
    requires t <= now
  {
    if AllBefore(increments, t + 1) then skew else Max(skew, now - t)
  }

  lemma AddSkew(increments: seq<Increment>, skew: nat, now: int, x: Increment)
    requires NearlySorted(increments, skew) && AllBefore(increments, now + 1) && x.time <= now
    requires NonNegative(increments) && x.delta >= 0
    ensures NearlySorted(increments + [x], LaterSkew(increments, skew, now, x.time))
    ensures AllBefore(increments + [x], now + 1) && NonNegative(increments + [x])
  {
  }

  lemma PassBegins(history: seq<Entry>, groups: seq<seq<Increment>>, increments: seq<Increment>,
                   from: Level, to: Level, clock: nat -> int, now: int)
    requires Represents(history, groups, increments, now) && to >= 1
    ensures |groups| == |history|
    ensures Represents([], [], Flatten(groups[..0]), now)
    ensures InStep([], TargetLevels(history, from, to, clock, 0))
  {
  }

  lemma NextCell(history: seq<Entry>, groups: seq<seq<Increment>>, increments: seq<Increment>, now: int,
                 from: Level, to: Level, clock: nat -> int, i: nat)
    requires Represents(history, groups, increments, now) && i < |history| && to >= 1
    ensures |groups| == |history| && Flatten(groups[..i + 1]) == Flatten(groups[..i]) + groups[i]
    ensures StandsFor(history[i], groups[i])
    ensures history[i].level == 4 ==> AllBefore(groups[i], now - ROLL_UP_HOUR_TO_DAY + HOUR)
    ensures TargetLevels(history, from, to, clock, i + 1)
         == TargetLevels(history, from, to, clock, i) + [TargetLevel(history[i], from, to, clock(i))]
  {
    assert groups[..i + 1] == groups[..i] + [groups[i]];
    FlattenSnoc(groups[..i], groups[i]);
  }

  lemma PassEnds(history: seq<Entry>, groups: seq<seq<Increment>>, increments: seq<Increment>, now: int,
                 out: seq<Entry>, targets: seq<int>)
    requires Represents(history, groups, increments, now) && InStep(out, targets)
    ensures |groups| == |history| && Flatten(groups[..|history|]) == increments
    ensures CoarseToFine(out) <==> Descending(targets)
  {
    assert groups[..|history|] == groups;
  }

  lemma RolledCell(history: seq<Entry>, groups: seq<seq<Increment>>, increments: seq<Increment>, i: nat,
                   from: Level, to: Level, read: int, now: int)
    requires Represents(history, groups, increments, now) && i < |history|
    requires 1 <= to && to - 1 <= from <= to && read <= now && Rolls(history[i], from, to, read)
    ensures |groups| == |history|
    ensures StandsFor(Rolled(history[i], from, to, read), groups[i])
    ensures to == 4 ==> AllBefore(groups[i], now - ROLL_UP_HOUR_TO_DAY + HOUR)
  {
    RolledStandsFor(history[i], groups[i], from, to);
    if to == 4 && from == 3 {
      RolledIsOld(history[i], groups[i], from, read);
    }
  }
}
