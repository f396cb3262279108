/** What a caller of the flights can count on: when it leads and when it joins, when it gets a
    slot, and which result it returns. */
module FlightLaws {
  import opened Ids
  import opened Flights

  ghost predicate Reaches(steps: seq<Step>, s: State) { Run(START, steps) == Some(s) }

  /** A leader that waits for a slot can go on exactly if fewer than four sync bodies run. */
  lemma {:induction false} SlotIsFreeIff(steps: seq<Step>, s: State, t: Caller)
    requires Reaches(steps, s) && PhaseOf(s, t).Leading? && PhaseOf(s, t).stage == WantsSlot
    ensures Enabled(s, Acquire(t)) <==> |Holders(s)| < 4
    ensures |Holders(s)| <= 4 && t !in Holders(s) && Enabled(s, GiveUp(t))
    ensures Enabled(s, Acquire(t)) ==> Holders(Next(s, Acquire(t))) == Holders(s) + {t}
  {
    RunsKeepInv(steps);
    if Enabled(s, Acquire(t)) {
      assert PhaseFits(s.group, t, PhaseOf(s, t)) && TakesSlot(PhaseOf(s, t).key);
      HoldersChange(s, t, Next(s, Acquire(t)).callers[t]);
      assert Holders(Next(s, Acquire(t))) == Holders(Go(s, t, Next(s, Acquire(t)).callers[t]));
    }
  }

  /** A caller joins the flight of its key if there is one, and starts a new one if not: a
      mail or calendar flight waits for a slot first, any other runs at once. */
  lemma {:induction false} JoinsIffInFlight(steps: seq<Step>, s: State, t: Caller, key: Key)
    requires Reaches(steps, s) && Enabled(s, Enter(t, key))
    ensures var p := PhaseOf(Next(s, Enter(t, key)), t);
      if u :| PhaseOf(s, u).Leading? && PhaseOf(s, u).key == key then
        p == Waiting(key, PhaseOf(s, u).call)
      else
        p.Leading? && p.key == key && p.call !in s.group.records && p.stage == if key.Other? then Running else WantsSlot
  {
    RunsKeepInv(steps);
    if u :| PhaseOf(s, u).Leading? && PhaseOf(s, u).key == key {
      assert PhaseFits(s.group, u, PhaseOf(s, u));
    }
    if key in s.group.calls {
      var c := s.group.calls[key];
      var leader := s.group.records[c].leader;
      assert s.group.records[c].open && PhaseFits(s.group, leader, PhaseOf(s, leader));
    }
  }

  /** What the leader's function leaves as the result: its value, nothing if it panicked, the
      context's error if it never got a slot. */
  function Outcome(step: Step): Result
    requires step.BodyReturns? || step.BodyPanics? || step.GiveUp?
  {
    match step
    case BodyReturns(_, result) => result
    case BodyPanics(_) => Zero
    case GiveUp(_) => ContextError
  }

  ghost predicate NotBy(steps: seq<Step>, t: Caller) { forall step :: step in steps ==> step.t != t }

  lemma {:induction false} OthersLeaveIt(s: State, steps: seq<Step>, t: Caller)
    requires Inv(s) && Run(s, steps).Some? && NotBy(steps, t)
    ensures Inv(Run(s, steps).value) && PhaseOf(Run(s, steps).value, t) == PhaseOf(s, t)
    decreases |steps|
  {
    if steps != [] {
      var init, step := steps[..|steps| - 1], steps[|steps| - 1];
      assert steps == init + [step] && step in steps;
      assert NotBy(init, t);
      OthersLeaveIt(s, init, t);
      var r := Run(s, init).value;
      if step.Enter? { EnterKeepsInv(r, step.t, step.key); }
      else if step.Finish? { FinishKeepsInv(r, step.t); }
      else { StageKeepsInv(r, step); }
    }
  }

  lemma {:induction false} EndingReleases(s: State, step: Step)
    requires Inv(s) && Enabled(s, step) && (step.BodyReturns? || step.BodyPanics? || step.GiveUp?)
    ensures var p, q := PhaseOf(s, step.t), PhaseOf(Next(s, step), step.t);
      && q == Leading(p.key, p.call, Ending(Outcome(step)))
      && Holders(Next(s, step)) == Holders(s) - {step.t}
  {
    var s' := Next(s, step);
    HoldersChange(s, step.t, s'.callers[step.t]);
    assert Holders(s') == Holders(Go(s, step.t, s'.callers[step.t]));
  }

  /** The result a leader's function ended with is the one it returns, whatever others do in
      between; its slot is free at once, and its key as soon as it returns. */
  lemma {:induction false} LeadersKeepTheirResult(steps: seq<Step>, s: State, step: Step, later: seq<Step>)
    requires Reaches(steps, s) && Enabled(s, step) && (step.BodyReturns? || step.BodyPanics? || step.GiveUp?)
    requires Run(Next(s, step), later).Some? && NotBy(later, step.t)
    ensures var t, p, end := step.t, PhaseOf(s, step.t), Run(Next(s, step), later).value;
      && step.t !in Holders(Next(s, step)) && Enabled(end, Finish(t))
      && PhaseOf(Next(end, Finish(t)), t) == Done(p.call, Outcome(step), true)
      && p.key !in Next(end, Finish(t)).group.calls
  {
    RunsKeepInv(steps);
    EndingReleases(s, step);
    StageKeepsInv(s, step);
    OthersLeaveIt(Next(s, step), later, step.t);
    var end := Run(Next(s, step), later).value;
    assert PhaseFits(end.group, step.t, PhaseOf(end, step.t));
  }
}
