/** Singleflight and the four-slot sync gate, as interleaved steps of any number of
    callers.  Each step is one critical section or one channel operation. */
module Flights {
  import opened Ids

  /** The flight keys in use; keys that synchronise a folder take a slot of the gate. */
  datatype Key = SyncMail(folderID: string) | SyncCalendar | Other(name: string)

  datatype Result = Returned(value: int) | Error(code: int) | ContextError | Zero

  type Caller = nat
  type CallID = nat

  /** flightCall: `open` is the done channel not yet closed. */
  datatype Call = Call(key: Key, leader: Caller, open: bool, result: Result)

  datatype Stage = WantsSlot | Running | Ending(result: Result)

  datatype Phase =
    | Idle
    | Waiting(key: Key, call: CallID)
    | Leading(key: Key, call: CallID, stage: Stage)
    | Done(call: CallID, result: Result, joined: bool)   // joined: result comes from the call, not from the context

  /** flightGroup together with every call it ever made. */
  datatype Group = Group(calls: map<Key, CallID>, records: map<CallID, Call>, next: CallID)

  datatype State = State(group: Group, gate: nat, callers: map<Caller, Phase>)

  const MAX_CONCURRENT_SYNCS := 4

  predicate TakesSlot(key: Key) { !key.Other? }

  // ---------- the critical sections of DoContext ----------

  function BeginCall(g: Group, key: Key, t: Caller): (Group, CallID, bool) {
    if key in g.calls then (g, g.calls[key], false)
    else (Group(g.calls[key := g.next], g.records[g.next := Call(key, t, true, Zero)], g.next + 1), g.next, true)
  }

  function CompleteCall(g: Group, key: Key, call: CallID, result: Result): Group
    requires call in g.records
  {
    g.(calls := g.calls - {key}, records := g.records[call := g.records[call].(open := false, result := result)])
  }

  // ---------- steps ----------

  datatype Step =
    | Enter(t: Caller, key: Key)
    | Join(t: Caller)                     // the done channel is closed
    | Abandon(t: Caller)                  // the joiner's context ends
    | Acquire(t: Caller)                  // the gate has room
    | GiveUp(t: Caller)                   // the leader's context ends while it waits for a slot
    | BodyReturns(t: Caller, result: Result)
    | BodyPanics(t: Caller)
    | Finish(t: Caller)                   // the deferred clean-up

  function PhaseOf(s: State, t: Caller): Phase { if t in s.callers then s.callers[t] else Idle }

  /** Whether the step can be taken now; a step that is not enabled would block. */
  predicate Enabled(s: State, step: Step) {
    var p := PhaseOf(s, step.t);
    match step
    case Enter(_, _) => p.Idle? || p.Done?
    case Join(_) => p.Waiting? && p.call in s.group.records && !s.group.records[p.call].open
    case Abandon(_) => p.Waiting?
    case Acquire(_) => p.Leading? && p.stage == WantsSlot && s.gate < MAX_CONCURRENT_SYNCS
    case GiveUp(_) => p.Leading? && p.stage == WantsSlot
    case BodyReturns(_, _) => p.Leading? && p.stage == Running && (TakesSlot(p.key) ==> s.gate > 0)
    case BodyPanics(_) => p.Leading? && p.stage == Running && (TakesSlot(p.key) ==> s.gate > 0)
    case Finish(_) => p.Leading? && p.stage.Ending? && p.call in s.group.records
  }

  function Go(s: State, t: Caller, p: Phase): State { s.(callers := s.callers[t := p]) }

  function EndBody(s: State, t: Caller, p: Phase, result: Result): State
    requires p.Leading? && (TakesSlot(p.key) ==> s.gate > 0)
  {
    Go(s.(gate := if TakesSlot(p.key) then s.gate - 1 else s.gate), t, p.(stage := Ending(result)))
  }

  function Next(s: State, step: Step): State
    requires Enabled(s, step)
  {
    var t, p := step.t, PhaseOf(s, step.t);
    match step
    case Enter(_, key) =>
      var (g, call, leads) := BeginCall(s.group, key, t);
      Go(s.(group := g), t,
         if leads then Leading(key, call, if TakesSlot(key) then WantsSlot else Running) else Waiting(key, call))
    case Join(_) => Go(s, t, Done(p.call, s.group.records[p.call].result, true))
    case Abandon(_) => Go(s, t, Done(p.call, ContextError, false))
    case Acquire(_) => Go(s.(gate := s.gate + 1), t, p.(stage := Running))
    case GiveUp(_) => Go(s, t, p.(stage := Ending(ContextError)))
    case BodyReturns(_, result) => EndBody(s, t, p, result)
    case BodyPanics(_) => EndBody(s, t, p, Zero)
    case Finish(_) =>
      Go(s.(group := CompleteCall(s.group, p.key, p.call, p.stage.result)), t, Done(p.call, p.stage.result, true))
  }

  // ---------- the invariant ----------

  predicate HoldsSlot(p: Phase) { p.Leading? && p.stage == Running && TakesSlot(p.key) }

  function Holders(s: State): set<Caller> { set t | t in s.callers && HoldsSlot(s.callers[t]) }

  /** A call is in the map exactly while its channel is open. */
  ghost predicate MapIsOpenCalls(g: Group) {
    && (forall k :: k in g.calls ==>
          g.calls[k] in g.records && g.records[g.calls[k]].open && g.records[g.calls[k]].key == k)
    && (forall c :: c in g.records && g.records[c].open ==>
          g.records[c].key in g.calls && g.calls[g.records[c].key] == c)
    && (forall c :: c in g.records ==> c < g.next)
  }

  ghost predicate PhaseFits(g: Group, t: Caller, p: Phase) {
    match p
    case Idle => true
    case Waiting(key, c) => c in g.records && g.records[c].key == key
    case Leading(key, c, _) =>
      c in g.records && g.records[c].open && g.records[c].key == key && g.records[c].leader == t
    case Done(c, r, joined) =>
      c in g.records && if joined then !g.records[c].open && g.records[c].result == r else r == ContextError
  }

  ghost predicate OpenCallsAreLed(s: State) {
    forall c :: c in s.group.records && s.group.records[c].open ==>
      var p := PhaseOf(s, s.group.records[c].leader);
      p.Leading? && p.call == c
  }

  ghost predicate Inv(s: State) {
    && MapIsOpenCalls(s.group)
    && (forall t :: t in s.callers ==> PhaseFits(s.group, t, s.callers[t]))
    && OpenCallsAreLed(s)
    && s.gate == |Holders(s)| <= MAX_CONCURRENT_SYNCS
    && (forall t :: t in s.callers && s.callers[t].Leading? && s.callers[t].stage == WantsSlot ==>
        TakesSlot(s.callers[t].key))
  }

  const START := State(Group(map[], map[], 0), 0, map[])

  // ---------- every step keeps it ----------

  lemma {:induction false} HoldersChange(s: State, t: Caller, p: Phase)
    ensures Holders(Go(s, t, p)) == if HoldsSlot(p) then Holders(s) + {t} else Holders(s) - {t}
  {
  }

  lemma {:induction false} CountHolders(s: State, t: Caller, p: Phase)
    ensures |Holders(Go(s, t, p))| ==
      |Holders(s)| - (if HoldsSlot(PhaseOf(s, t)) then 1 else 0) + (if HoldsSlot(p) then 1 else 0)
  {
    HoldersChange(s, t, p);
    assert t in Holders(s) <==> HoldsSlot(PhaseOf(s, t));
    var rest := Holders(s) - {t};
    assert Holders(s) == if t in Holders(s) then rest + {t} else rest;
    assert Holders(Go(s, t, p)) == if HoldsSlot(p) then rest + {t} else rest;
  }

  lemma {:induction false} BeginKeepsMap(g: Group, key: Key, t: Caller)
    requires MapIsOpenCalls(g)
    ensures MapIsOpenCalls(BeginCall(g, key, t).0)
  {
  }

  lemma {:induction false} CompleteKeepsMap(g: Group, key: Key, call: CallID, result: Result)
    requires MapIsOpenCalls(g) && call in g.records && g.records[call].open && g.records[call].key == key
    ensures MapIsOpenCalls(CompleteCall(g, key, call, result))
  {
    var g' := CompleteCall(g, key, call, result);
    forall c | c in g'.records && g'.records[c].open
      ensures g'.records[c].key in g'.calls && g'.calls[g'.records[c].key] == c
    {
      assert c != call && g.records[c].open;
    }
  }

  lemma {:induction false} EnterKeepsGate(s: State, t: Caller, key: Key)
    requires Enabled(s, Enter(t, key)) && s.gate == |Holders(s)|
    ensures var s' := Next(s, Enter(t, key)); s'.gate == s.gate == |Holders(s')|
  {
    var s' := Next(s, Enter(t, key));
    CountHolders(s.(group := s'.group), t, s'.callers[t]);
    assert Holders(s.(group := s'.group)) == Holders(s);
  }

  lemma {:induction false} EnterKeepsInv(s: State, t: Caller, key: Key)
    requires Inv(s) && Enabled(s, Enter(t, key))
    ensures Inv(Next(s, Enter(t, key)))
  {
    BeginKeepsMap(s.group, key, t);
    EnterKeepsGate(s, t, key);
    EnterKeepsLeaders(s, t, key);
  }

  lemma {:induction false} EnterKeepsLeaders(s: State, t: Caller, key: Key)
    requires Inv(s) && Enabled(s, Enter(t, key))
    ensures OpenCallsAreLed(Next(s, Enter(t, key)))
  {
    var s' := Next(s, Enter(t, key));
    forall c | c in s'.group.records && s'.group.records[c].open
      ensures var p := PhaseOf(s', s'.group.records[c].leader); p.Leading? && p.call == c
    {
      if c in s.group.records { assert s.group.records[c].open; }
    }
  }

  lemma {:induction false} StageKeepsGate(s: State, step: Step)
    requires Inv(s) && Enabled(s, step) && !step.Enter? && !step.Finish?
    ensures var s' := Next(s, step); s'.gate == |Holders(s')| <= MAX_CONCURRENT_SYNCS
  {
    var s', t := Next(s, step), step.t;
    CountHolders(s, t, s'.callers[t]);
    assert Holders(s') == Holders(Go(s, t, s'.callers[t]));
  }

  lemma {:induction false} StageKeepsLeaders(s: State, step: Step)
    requires Inv(s) && Enabled(s, step) && !step.Enter? && !step.Finish?
    ensures OpenCallsAreLed(Next(s, step))
  {
    var s' := Next(s, step);
    forall c | c in s'.group.records && s'.group.records[c].open
      ensures var p := PhaseOf(s', s'.group.records[c].leader); p.Leading? && p.call == c
    {
      assert PhaseOf(s, s.group.records[c].leader).Leading?;
    }
  }

  lemma {:induction false} StageKeepsInv(s: State, step: Step)
    requires Inv(s) && Enabled(s, step) && !step.Enter? && !step.Finish?
    ensures Inv(Next(s, step))
  {
    StageKeepsGate(s, step);
    StageKeepsLeaders(s, step);
  }

  lemma {:induction false} FinishKeepsInv(s: State, t: Caller)
    requires Inv(s) && Enabled(s, Finish(t))
    ensures Inv(Next(s, Finish(t)))
  {
    var s', p := Next(s, Finish(t)), PhaseOf(s, t);
    CompleteKeepsMap(s.group, p.key, p.call, p.stage.result);
    CountHolders(s.(group := s'.group), t, s'.callers[t]);
    assert Holders(s.(group := s'.group)) == Holders(s);
    forall u | u in s'.callers ensures PhaseFits(s'.group, u, s'.callers[u]) {
      if u != t {
        assert PhaseFits(s.group, u, s.callers[u]);
        if s.callers[u].Leading? { assert s.callers[u].call != p.call; }
      }
    }
    forall c | c in s'.group.records && s'.group.records[c].open
      ensures var q := PhaseOf(s', s'.group.records[c].leader); q.Leading? && q.call == c
    {
      assert c != p.call && s.group.records[c].open;
    }
  }

  function Run(s: State, steps: seq<Step>): Option<State>
    decreases |steps|
  {
    if steps == [] then Some(s)
    else
      var r := Run(s, steps[..|steps| - 1]);
      if r.Some? && Enabled(r.value, steps[|steps| - 1]) then Some(Next(r.value, steps[|steps| - 1])) else None
  }

  lemma {:induction false} RunsKeepInv(steps: seq<Step>)
    ensures Run(START, steps).Some? ==> Inv(Run(START, steps).value)
    decreases |steps|
  {
    if steps == [] {
      assert Holders(START) == {};
    } else {
      RunsKeepInv(steps[..|steps| - 1]);
      var r, step := Run(START, steps[..|steps| - 1]), steps[|steps| - 1];
      if r.Some? && Enabled(r.value, step) {
        if step.Enter? { EnterKeepsInv(r.value, step.t, step.key); }
        else if step.Finish? { FinishKeepsInv(r.value, step.t); }
        else { StageKeepsInv(r.value, step); }
      }
    }
  }

  // ---------- what this gives ----------

  /** In every interleaving: one function runs per key, so one sync per folder; at most
      four sync bodies run; a body that ends can release its slot at once. */
  lemma {:induction false} ExclusionHolds(steps: seq<Step>, t: Caller, u: Caller)
    requires Run(START, steps).Some?
    ensures var s := Run(START, steps).value;
      && (PhaseOf(s, t).Leading? && PhaseOf(s, u).Leading? && PhaseOf(s, t).key == PhaseOf(s, u).key ==> t == u)
      && |Holders(s)| <= 4
      && (PhaseOf(s, t).Leading? && PhaseOf(s, t).stage == Running ==> Enabled(s, BodyPanics(t)))
  {
    RunsKeepInv(steps);
    var s := Run(START, steps).value;
    var p, q := PhaseOf(s, t), PhaseOf(s, u);
    if p.Leading? && q.Leading? && p.key == q.key {
      assert PhaseFits(s.group, t, p) && PhaseFits(s.group, u, q);
      assert s.group.calls[p.key] == p.call == q.call;
    }
    if HoldsSlot(p) { assert t in Holders(s); }
  }

  lemma {:induction false} ResultsStay(s: State, steps: seq<Step>, c: CallID)
    requires Inv(s) && c in s.group.records && !s.group.records[c].open && Run(s, steps).Some?
    ensures Inv(Run(s, steps).value)
    ensures c in Run(s, steps).value.group.records && Run(s, steps).value.group.records[c] == s.group.records[c]
    decreases |steps|
  {
    if steps != [] {
      ResultsStay(s, steps[..|steps| - 1], c);
      var r, step := Run(s, steps[..|steps| - 1]).value, steps[|steps| - 1];
      if step.Enter? { EnterKeepsInv(r, step.t, step.key); }
      else if step.Finish? {
        FinishKeepsInv(r, step.t);
        assert PhaseFits(r.group, step.t, PhaseOf(r, step.t));
      }
      else { StageKeepsInv(r, step); }
    }
  }

  /** A call's result is fixed when its channel closes: whoever joined it returns what
      its own leader returned, however much later, or its own context's error. */
  lemma {:induction false} JoinersGetTheirLeadersResult(steps: seq<Step>, t: Caller, later: seq<Step>, u: Caller)
    requires Run(START, steps).Some? && Enabled(Run(START, steps).value, Finish(t))
    requires Run(Next(Run(START, steps).value, Finish(t)), later).Some?
    ensures var led := PhaseOf(Run(START, steps).value, t);
      var end := PhaseOf(Run(Next(Run(START, steps).value, Finish(t)), later).value, u);
      end.Done? && end.call == led.call ==> end.result == if end.joined then led.stage.result else ContextError
  {
    RunsKeepInv(steps);
    var s := Run(START, steps).value;
    FinishKeepsInv(s, t);
    ResultsStay(Next(s, Finish(t)), later, PhaseOf(s, t).call);
    var end := Run(Next(s, Finish(t)), later).value;
    if u in end.callers { assert PhaseFits(end.group, u, end.callers[u]); }
  }

  // ---------- progress, with bodies that wait for other flights ----------

  predicate Active(p: Phase) { p.Waiting? || p.Leading? }

  predicate Internal(step: Step) { step.Join? || step.Acquire? || step.BodyReturns? || step.Finish? }

  const FULL := "full:"

  /** How deep a key's body may nest: building a full message joins the flights of its
      attachments, every other body joins none. */
  function Depth(key: Key): nat { if key.Other? && FULL <= key.name then 1 else 0 }

  /** `waits[t]` is the caller through which t's running body joined another flight. */
  ghost predicate Nested(s: State, waits: map<Caller, Caller>) {
    forall t :: t in waits && Active(PhaseOf(s, waits[t])) ==>
      && PhaseOf(s, t).Leading? && PhaseOf(s, t).stage == Running
      && Depth(PhaseOf(s, waits[t]).key) < Depth(PhaseOf(s, t).key)
  }

  /** A body cannot return before the flight it waits for has given it a result. */
  predicate Unblocked(s: State, waits: map<Caller, Caller>, step: Step) {
    step.BodyReturns? && step.t in waits ==> !Active(PhaseOf(s, waits[step.t]))
  }

  ghost predicate CanGoOn(s: State, waits: map<Caller, Caller>, step: Step) {
    Internal(step) && Enabled(s, step) && Unblocked(s, waits, step)
  }

  lemma {:induction false} LeaderCanGoOn(s: State, waits: map<Caller, Caller>, t: Caller) returns (step: Step)
    requires Inv(s) && Nested(s, waits) && PhaseOf(s, t).Leading?
    ensures CanGoOn(s, waits, step)
    decreases Depth(PhaseOf(s, t).key), 0
  {
    var p := PhaseOf(s, t);
    assert PhaseFits(s.group, t, p);
    match p.stage
    case WantsSlot =>
      if s.gate < MAX_CONCURRENT_SYNCS {
        step := Acquire(t);
      } else {
        var u :| u in Holders(s);
        step := BodyReturns(u, Zero);
      }
    case Running =>
      if HoldsSlot(p) { assert t in Holders(s); }
      if t in waits && Active(PhaseOf(s, waits[t])) {
        step := CallerCanGoOn(s, waits, waits[t]);
      } else {
        step := BodyReturns(t, Zero);
      }
    case Ending(_) => step := Finish(t);
  }

  lemma {:induction false} CallerCanGoOn(s: State, waits: map<Caller, Caller>, t: Caller) returns (step: Step)
    requires Inv(s) && Nested(s, waits) && Active(PhaseOf(s, t))
    ensures CanGoOn(s, waits, step)
    decreases Depth(PhaseOf(s, t).key), 1
  {
    var p := PhaseOf(s, t);
    assert PhaseFits(s.group, t, p);
    if p.Leading? {
      step := LeaderCanGoOn(s, waits, t);
    } else if s.group.records[p.call].open {
      var leader := s.group.records[p.call].leader;
      assert PhaseFits(s.group, leader, PhaseOf(s, leader));
      step := LeaderCanGoOn(s, waits, leader);
    } else {
      step := Join(t);
    }
  }

  /** Nobody waits for ever on a call or a slot that no one is going to release, and nested
      flights do not wait for each other in a circle: however the callers are interleaved,
      and whichever full messages wait for attachments, while a caller is active somebody
      can go on, without any context ending, whose body waits for no one. */
  lemma {:induction false} SomeoneCanGoOn(steps: seq<Step>, waits: map<Caller, Caller>, t: Caller)
    requires Run(START, steps).Some? && Active(PhaseOf(Run(START, steps).value, t))
    requires Nested(Run(START, steps).value, waits)
    ensures exists step :: CanGoOn(Run(START, steps).value, waits, step)
  {
    RunsKeepInv(steps);
    var step := CallerCanGoOn(Run(START, steps).value, waits, t);
  }

  /** The order of depths is needed: a body that joined its own flight would wait for ever. */
  lemma {:induction false} OwnFlightNeverEnds(s: State, waits: map<Caller, Caller>, t: Caller, u: Caller)
    requires Inv(s) && s.callers.Keys == {t, u} && t != u
    requires PhaseOf(s, t).Leading? && PhaseOf(s, t).stage == Running
    requires PhaseOf(s, u) == Waiting(PhaseOf(s, t).key, PhaseOf(s, t).call)
    requires t in waits && waits[t] == u
    ensures forall step :: !CanGoOn(s, waits, step)
  {
    assert PhaseFits(s.group, t, PhaseOf(s, t));
  }

  // ---------- the same critical sections, in place ----------

  class FlightGroup {
    var calls: map<Key, CallID>
    var records: map<CallID, Call>
    var next: CallID

    function Value(): Group
      reads this
    {
      Group(calls, records, next)
    }

    constructor ()
      ensures Value() == START.group
    {
      calls, records, next := map[], map[], 0;
    }

    /** The head of DoContext, under the mutex: join the running call or start one. */
    method Begin(key: Key, t: Caller) returns (call: CallID, leads: bool)
      modifies this
      ensures (Value(), call, leads) == BeginCall(old(Value()), key, t)
    {
      if key in calls {
        return calls[key], false;
      }
      call, leads := next, true;
      records := records[call := Call(key, t, true, Zero)];
      calls := calls[key := call];
      next := next + 1;
    }

    /** The deferred clean-up: forget the key, publish the result, close the channel. */
    method Complete(key: Key, call: CallID, result: Result)
      requires call in records
      modifies this
      ensures Value() == CompleteCall(old(Value()), key, call, result)
    {
      calls := calls - {key};
      records := records[call := records[call].(open := false, result := result)];
    }
  }
}
