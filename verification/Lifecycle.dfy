/** The life of a session under concurrent callers: some move its state forward with a compare-and-swap
    loop, some close it.  A step is one atomic operation of one caller. */
module Lifecycle {

  const CLOSED: nat := 3

  /** What a caller wants: to move the state to `target`, or to close the session, which includes moving
      the state to closed. */
  datatype Caller = Caller(closing: bool, target: nat)

  /** Where a caller stands; `won` tells whether a closing caller was the first. */
  datatype Place = Enter | Load | Compare(seen: nat) | Body | Finished(won: bool)

  /** The shared variables, the places of the callers, and who entered the close body. */
  datatype World = World(state: nat, closeRequested: bool, closes: nat, gauge: int, places: seq<Place>, winner: int)

  predicate WellFormed(callers: seq<Caller>) {
    forall i :: 0 <= i < |callers| && callers[i].closing ==> callers[i].target == CLOSED
  }

  function Start(callers: seq<Caller>, state: nat, gauge: int): World {
    World(state, false, 0, gauge,
          seq(|callers|, i requires 0 <= i < |callers| => if callers[i].closing then Enter else Load), -1)
  }

  predicate CanStep(w: World, i: nat) {
    i < |w.places| && !w.places[i].Finished?
  }

  function AfterForward(c: Caller): Place {
    if c.closing then Body else Finished(true)
  }

  function Step(callers: seq<Caller>, w: World, i: nat): World
    requires |w.places| == |callers| && CanStep(w, i)
  {
    var c := callers[i];
    match w.places[i]
    case Enter =>
      if w.closeRequested then w.(places := w.places[i := Finished(false)])
      else w.(closeRequested := true, winner := i, places := w.places[i := Load])
    case Load =>
      w.(places := w.places[i := if c.target <= w.state then AfterForward(c) else Compare(w.state)])
    case Compare(seen) =>
      if w.state == seen then w.(state := c.target, places := w.places[i := AfterForward(c)])
      else w.(places := w.places[i := Load])
    case Body => w.(closes := w.closes + 1, gauge := w.gauge - 1, places := w.places[i := Finished(true)])
  }

  /** An interleaving: any callers, in any order, each where it can take a step. */
  predicate CanRun(callers: seq<Caller>, w: World, schedule: seq<nat>)
    requires |w.places| == |callers|
    decreases |schedule|
  {
    schedule == [] || (CanStep(w, schedule[0]) && CanRun(callers, Step(callers, w, schedule[0]), schedule[1..]))
  }

  function Run(callers: seq<Caller>, w: World, schedule: seq<nat>): World
    requires |w.places| == |callers| && CanRun(callers, w, schedule)
    decreases |schedule|
  {
    if schedule == [] then w else Run(callers, Step(callers, w, schedule[0]), schedule[1..])
  }

  // ---------------------------------------------------------------------------------------------
  // What every step keeps
  // ---------------------------------------------------------------------------------------------

  ghost predicate StateOk(callers: seq<Caller>, w: World, initial: nat)
    requires |w.places| == |callers|
  {
    && w.state >= initial
    && (w.state == initial || exists i :: 0 <= i < |callers| && w.state == callers[i].target)
    && (forall i :: 0 <= i < |callers| && (w.places[i].Body? || w.places[i] == Finished(true)) ==>
          w.state >= callers[i].target)
    && (forall i :: 0 <= i < |callers| && w.places[i].Compare? ==> w.places[i].seen < callers[i].target)
  }

  ghost predicate CloseOk(callers: seq<Caller>, w: World, gauge: int)
    requires |w.places| == |callers|
  {
    && w.closeRequested == (w.winner >= 0) && w.winner < |callers|
    && (forall i :: 0 <= i < |callers| && !callers[i].closing ==>
          !w.places[i].Enter? && !w.places[i].Body? && w.places[i] != Finished(false))
    && (forall i :: 0 <= i < |callers| && callers[i].closing && i != w.winner ==>
          w.places[i].Enter? || w.places[i] == Finished(false))
    && (forall i :: 0 <= i < |callers| && w.places[i] == Finished(false) ==> w.winner >= 0)
    && (w.winner >= 0 ==> callers[w.winner].closing && !w.places[w.winner].Enter? && w.places[w.winner] != Finished(false))
    && w.closes == (if w.winner >= 0 && w.places[w.winner].Finished? then 1 else 0)
    && w.gauge == gauge - w.closes
  }

  lemma StepKeepsState(callers: seq<Caller>, w: World, i: nat, initial: nat)
    requires |w.places| == |callers| && CanStep(w, i) && StateOk(callers, w, initial)
    ensures StateOk(callers, Step(callers, w, i), initial)
    ensures Step(callers, w, i).state >= w.state
  {
    var w' := Step(callers, w, i);
    if w'.state != w.state {
      assert w'.state == callers[i].target;
    }
  }

  lemma StepKeepsClose(callers: seq<Caller>, w: World, i: nat, gauge: int)
    requires |w.places| == |callers| && CanStep(w, i) && CloseOk(callers, w, gauge)
    ensures CloseOk(callers, Step(callers, w, i), gauge)
  {
  }

  lemma {:induction false} RunKeeps(callers: seq<Caller>, w: World, schedule: seq<nat>, initial: nat, gauge: int)
    requires |w.places| == |callers| && CanRun(callers, w, schedule)
    requires StateOk(callers, w, initial) && CloseOk(callers, w, gauge)
    ensures var w' := Run(callers, w, schedule);
      |w'.places| == |callers| && StateOk(callers, w', initial) && CloseOk(callers, w', gauge) && w'.state >= w.state
    decreases |schedule|
  {
    if schedule != [] {
      StepKeepsState(callers, w, schedule[0], initial);
      StepKeepsClose(callers, w, schedule[0], gauge);
      RunKeeps(callers, Step(callers, w, schedule[0]), schedule[1..], initial, gauge);
    }
  }

  // ---------------------------------------------------------------------------------------------
  // Every interleaving
  // ---------------------------------------------------------------------------------------------

  /** `x` is the largest of the initial state and everything that was asked for. */
  ghost predicate LargestRequest(callers: seq<Caller>, initial: nat, x: nat) {
    && (x == initial || exists i :: 0 <= i < |callers| && x == callers[i].target)
    && x >= initial && forall i :: 0 <= i < |callers| ==> x >= callers[i].target
  }

  predicate AllFinished(w: World) {
    forall i :: 0 <= i < |w.places| ==> w.places[i].Finished?
  }

  /** In every interleaving, up to every point of it, the state has not moved back, the close body has
      run at most once, and the gauge has dropped as often. */
  lemma EveryInterleavingSafe(callers: seq<Caller>, initial: nat, gauge: int, schedule: seq<nat>)
    requires WellFormed(callers) && CanRun(callers, Start(callers, initial, gauge), schedule)
    ensures var w := Run(callers, Start(callers, initial, gauge), schedule);
      w.state >= initial && w.closes <= 1 && w.gauge == gauge - w.closes
  {
    RunKeeps(callers, Start(callers, initial, gauge), schedule, initial, gauge);
  }

  /** When all callers are done, the state is the largest that any of them asked for, and the close body
      has run exactly once if any caller closed the session, by exactly one of them. */
  lemma EveryInterleavingSettles(callers: seq<Caller>, initial: nat, gauge: int, schedule: seq<nat>)
    requires WellFormed(callers) && CanRun(callers, Start(callers, initial, gauge), schedule)
    requires AllFinished(Run(callers, Start(callers, initial, gauge), schedule))
    ensures var w := Run(callers, Start(callers, initial, gauge), schedule);
      && LargestRequest(callers, initial, w.state)
      && w.closes == (if exists i :: 0 <= i < |callers| && callers[i].closing then 1 else 0)
      && |w.places| == |callers|
      && forall i :: 0 <= i < |callers| && callers[i].closing ==> (w.places[i] == Finished(true) <==> i == w.winner)
  {
    RunKeeps(callers, Start(callers, initial, gauge), schedule, initial, gauge);
    var w := Run(callers, Start(callers, initial, gauge), schedule);
    forall i | 0 <= i < |callers| ensures w.state >= callers[i].target {
      if callers[i].closing {
        assert w.places[i].Finished? && w.winner >= 0 && w.places[w.winner].Finished?;
        assert w.places[w.winner] == Finished(true);
      } else {
        assert w.places[i] == Finished(true);
      }
    }
  }

  // ---------------------------------------------------------------------------------------------
  // Every caller can finish
  // ---------------------------------------------------------------------------------------------

  /** How many more steps the caller needs if nobody interferes. */
  function StepsLeft(callers: seq<Caller>, w: World, i: nat): nat
    requires |w.places| == |callers| && i < |callers|
  {
    match w.places[i]
    case Enter => 4
    case Load => 3
    case Compare(seen) => if w.state == seen then 2 else 4
    case Body => 1
    case Finished(_) => 0
  }

  lemma StepAlone(callers: seq<Caller>, w: World, i: nat)
    requires |w.places| == |callers| && CanStep(w, i)
    ensures var w' := Step(callers, w, i);
      && |w'.places| == |callers| && StepsLeft(callers, w', i) < StepsLeft(callers, w, i)
      && forall j :: 0 <= j < |callers| && j != i ==> w'.places[j] == w.places[j]
  {
  }

  lemma {:induction false} RunAppend(callers: seq<Caller>, w: World, a: seq<nat>, b: seq<nat>)
    requires |w.places| == |callers| && CanRun(callers, w, a)
    requires |Run(callers, w, a).places| == |callers| && CanRun(callers, Run(callers, w, a), b)
    ensures CanRun(callers, w, a + b) && Run(callers, w, a + b) == Run(callers, Run(callers, w, a), b)
    decreases |a|
  {
    if a == [] {
      assert a + b == b;
    } else {
      RunAppend(callers, Step(callers, w, a[0]), a[1..], b);
      assert (a + b)[0] == a[0] && (a + b)[1..] == a[1..] + b;
    }
  }

  /** Wherever a caller stands and whatever the others have done, it finishes within four steps of its own if
      they pause: nobody ever waits for another. */
  lemma {:induction false} CallerFinishesAlone(callers: seq<Caller>, w: World, i: nat) returns (schedule: seq<nat>)
    requires |w.places| == |callers| && i < |callers|
    ensures |schedule| <= 4 && (forall k :: 0 <= k < |schedule| ==> schedule[k] == i) && CanRun(callers, w, schedule)
    ensures var w' := Run(callers, w, schedule);
      && |w'.places| == |callers| && w'.places[i].Finished?
      && forall j :: 0 <= j < |callers| && j != i ==> w'.places[j] == w.places[j]
    ensures |schedule| <= StepsLeft(callers, w, i)
    decreases StepsLeft(callers, w, i)
  {
    if w.places[i].Finished? {
      schedule := [];
    } else {
      StepAlone(callers, w, i);
      var others := CallerFinishesAlone(callers, Step(callers, w, i), i);
      schedule := [i] + others;
      assert schedule[1..] == others;
    }
  }

  lemma {:induction false} FirstCanFinish(callers: seq<Caller>, w: World, n: nat) returns (schedule: seq<nat>)
    requires |w.places| == |callers| && n <= |callers|
    ensures CanRun(callers, w, schedule)
    ensures var w' := Run(callers, w, schedule);
      |w'.places| == |callers| && forall i :: 0 <= i < n ==> w'.places[i].Finished?
    decreases n
  {
    if n == 0 {
      schedule := [];
    } else {
      var a := FirstCanFinish(callers, w, n - 1);
      var b := CallerFinishesAlone(callers, Run(callers, w, a), n - 1);
      RunAppend(callers, w, a, b);
      schedule := a + b;
    }
  }

  /** So from every state all callers can finish. */
  lemma AllCanFinish(callers: seq<Caller>, w: World) returns (schedule: seq<nat>)
    requires |w.places| == |callers|
    ensures CanRun(callers, w, schedule) && AllFinished(Run(callers, w, schedule))
  {
    schedule := FirstCanFinish(callers, w, |callers|);
  }
}
