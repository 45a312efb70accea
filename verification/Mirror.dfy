/** What holds of one direction holds of the other: a prompt run of two sessions is a prompt run of the same
    two with their places exchanged. */
module Mirror {
  import opened Arq
  import opened ArqSafety
  import opened ArqProgress

  function Flipped(acts: seq<Action>): seq<Action> {
    if acts == [] then []
    else Flipped(acts[..|acts| - 1]) + [Action(!acts[|acts| - 1].atA, acts[|acts| - 1].event)]
  }

  lemma FlippedStep(s: System, act: Action)
    requires CanStep(Swap(s), act) && Prompt(Swap(s), act)
    ensures var flipped := Action(!act.atA, act.event);
      CanStep(s, flipped) && Prompt(s, flipped) && Step(s, flipped) == Swap(Step(Swap(s), act))
  {
  }

  lemma {:induction false} FlippedRun(s: System, acts: seq<Action>)
    requires PromptRun(Swap(s), acts)
    ensures PromptRun(s, Flipped(acts)) && Execute(s, Flipped(acts)) == Swap(Execute(Swap(s), acts))
    decreases |acts|
  {
    hide CanStep, Step, Prompt;
    if acts != [] {
      var init, last := acts[..|acts| - 1], acts[|acts| - 1];
      FlippedRun(s, init);
      FlippedStep(Execute(s, Flipped(init)), last);
      ExecuteLast(s, Flipped(init), Action(!last.atA, last.event));
      assert Flipped(acts)[..|Flipped(init)|] == Flipped(init);
    }
  }

  lemma FlippedReaches(s: System, s': System)
    requires Reaches(Swap(s), s')
    ensures Reaches(s, Swap(s'))
  {
    hide CanExecute, Execute, Prompt;
    var acts :| PromptRun(Swap(s), acts) && Execute(Swap(s), acts) == s';
    FlippedRun(s, acts);
  }

  lemma SwapKeepsInv(s: System)
    requires Inv(s)
    ensures Inv(Swap(s))
  {
  }

  lemma {:induction false} PromptAppend(s: System, a: seq<Action>, b: seq<Action>)
    requires PromptRun(s, a) && PromptRun(Execute(s, a), b)
    ensures PromptRun(s, a + b) && Execute(s, a + b) == Execute(Execute(s, a), b)
    decreases |b|
  {
    hide CanStep, Step, Prompt;
    if b == [] {
      assert a + b == a;
    } else {
      var init, last := b[..|b| - 1], b[|b| - 1];
      PromptAppend(s, a, init);
      ExecuteLast(s, a + init, last);
      assert a + b == (a + init) + [last];
      assert (a + b)[..|a + b| - 1] == a + init;
    }
  }
}
