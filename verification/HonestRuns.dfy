/** Runs of prompt steps, of the steps of A's writer, with the receive window of the moment, and of the
    step in which B answers the open request. */
module HonestRuns {
  import opened Arq
  import opened ArqSafety
  import opened ArqProgress

  ghost predicate Honest(s: System, act: Action) {
    || Prompt(s, act)
    || act == Action(false, Tx(QueueOpenResponse))
    || (act.atA && act.event.Tx? &&
        match act.event.tx
        case QueueOpenRequest(_) => true
        case Reserve(_) => true
        case QueueFragment(_, window, _) => window == ReceiveWindow(s.a)
        case _ => false)
  }

  ghost predicate HonestRun(s: System, acts: seq<Action>)
    decreases |acts|
  {
    && CanExecute(s, acts)
    && (acts == [] || (HonestRun(s, acts[..|acts| - 1]) && Honest(Execute(s, acts[..|acts| - 1]), acts[|acts| - 1])))
  }

  ghost predicate Leads(s: System, s': System) {
    exists acts :: HonestRun(s, acts) && Execute(s, acts) == s'
  }

  lemma LeadsSelf(s: System)
    ensures Leads(s, s)
  {
    assert HonestRun(s, []) && Execute(s, []) == s;
  }

  lemma HonestLast(s: System, acts: seq<Action>, act: Action)
    requires HonestRun(s, acts) && CanStep(Execute(s, acts), act) && Honest(Execute(s, acts), act)
    ensures HonestRun(s, acts + [act]) && Execute(s, acts + [act]) == Step(Execute(s, acts), act)
  {
    hide CanStep, Step, CanExecute, Execute, Honest;
    ExecuteLast(s, acts, act);
    assert (acts + [act])[..|acts|] == acts;
  }

  lemma {:induction false} HonestAppend(s: System, a: seq<Action>, b: seq<Action>)
    requires HonestRun(s, a) && HonestRun(Execute(s, a), b)
    ensures HonestRun(s, a + b) && Execute(s, a + b) == Execute(Execute(s, a), b)
    decreases |b|
  {
    hide CanStep, Step, Honest;
    if b == [] {
      assert a + b == a;
    } else {
      var init, last := b[..|b| - 1], b[|b| - 1];
      HonestAppend(s, a, init);
      HonestLast(s, a + init, last);
      assert a + b == (a + init) + [last];
    }
  }

  lemma LeadsOn(s0: System, s: System, s': System)
    requires Leads(s0, s) && Leads(s, s')
    ensures Leads(s0, s')
  {
    hide CanExecute, Execute, Honest;
    var a :| HonestRun(s0, a) && Execute(s0, a) == s;
    var b :| HonestRun(s, b) && Execute(s, b) == s';
    HonestAppend(s0, a, b);
  }

  lemma LeadsStep(s0: System, s: System, act: Action) returns (s': System)
    requires Leads(s0, s) && Inv(s) && CanStep(s, act) && Honest(s, act)
    ensures Leads(s0, s') && Inv(s') && s' == Step(s, act)
  {
    hide CanExecute, Execute, CanStep, Step, Inv, Honest;
    var acts :| HonestRun(s0, acts) && Execute(s0, acts) == s;
    HonestLast(s0, acts, act);
    StepKeepsInv(s, act);
    s' := Step(s, act);
  }

  lemma {:induction false} PromptIsHonest(s: System, acts: seq<Action>)
    requires PromptRun(s, acts)
    ensures HonestRun(s, acts)
    decreases |acts|
  {
    if acts != [] {
      PromptIsHonest(s, acts[..|acts| - 1]);
    }
  }

  lemma ReachesLeads(s: System, s': System)
    requires Reaches(s, s')
    ensures Leads(s, s')
  {
    var acts :| PromptRun(s, acts) && Execute(s, acts) == s';
    PromptIsHonest(s, acts);
  }
}
