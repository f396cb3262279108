/** The global circuit breaker for transient failures of the server. */
module Breaker {

  /** How a sync attempt ended, as far as the breaker looks. */
  datatype Ending = Success | Transient | Unrelated

  datatype Observation = Observation(ending: Ending, now: int)

  /** transientEASBackoff; times are seconds since Go's zero time. */
  datatype State = State(failures: nat, nextRetry: int)

  const CLOSED := State(0, 0)
  const STEPS: seq<nat> := [5, 30, 120, 300]

  function StepOf(n: nat): (s: nat)
    requires n > 0
    ensures s > 0
  {
    STEPS[(if n < |STEPS| then n else |STEPS|) - 1]
  }

  /** The time the first n steps take together. */
  function Total(n: nat): nat { if n == 0 then 0 else Total(n - 1) + StepOf(n) }

  function Track(s: State, o: Observation): State {
    match o.ending
    case Success => CLOSED
    case Unrelated => s
    case Transient => if o.now < s.nextRetry then s else State(s.failures + 1, o.now + StepOf(s.failures + 1))
  }

  /** transientBackoffError: no request goes out before nextRetry. */
  predicate Blocks(s: State, now: int) { now < s.nextRetry }

  class TransientBackoff {
    var failures: nat
    var nextRetry: int

    function Value(): State
      reads this
    {
      State(failures, nextRetry)
    }

    constructor ()
      ensures Value() == CLOSED
    {
      failures, nextRetry := 0, 0;
    }

    /** trackTransientEASResult. */
    method TrackResult(ending: Ending, now: int)
      modifies this
      ensures Value() == Track(old(Value()), Observation(ending, now))
    {
      if ending == Success {
        failures, nextRetry := 0, 0;
        return;
      }
      if ending != Transient || now < nextRetry {
        return;
      }
      failures := failures + 1;
      nextRetry := now + STEPS[(if failures < |STEPS| then failures else |STEPS|) - 1];
    }
  }

  // ---------- any sequence of results ----------

  function TrackAll(obs: seq<Observation>): State
    decreases |obs|
  {
    if obs == [] then CLOSED else Track(TrackAll(obs[..|obs| - 1]), obs[|obs| - 1])
  }

  /** When the first failure after the last success was counted. */
  function FirstCounted(obs: seq<Observation>): int
    decreases |obs|
  {
    if obs == [] then 0
    else if TrackAll(obs).failures == 1 && TrackAll(obs[..|obs| - 1]).failures == 0 then obs[|obs| - 1].now
    else FirstCounted(obs[..|obs| - 1])
  }

  ghost predicate ClockMovesForward(obs: seq<Observation>) {
    && (forall i, j :: 0 <= i < j < |obs| ==> obs[i].now <= obs[j].now)
    && (forall i :: 0 <= i < |obs| ==> 0 <= obs[i].now)
  }

  lemma {:induction false} OpenSince(obs: seq<Observation>)
    requires ClockMovesForward(obs)
    ensures var s := TrackAll(obs);
      && (s.failures == 0 ==> s == CLOSED)
      && (s.failures > 0 ==> s.nextRetry >= FirstCounted(obs) + Total(s.failures))
      && (s.failures > 0 ==> obs != [] && s.nextRetry - StepOf(s.failures) <= obs[|obs| - 1].now)
    decreases |obs|
  {
    if obs != [] {
      var init := obs[..|obs| - 1];
      OpenSince(init);
      if init != [] { assert init[|init| - 1] == obs[|obs| - 2]; }
    }
  }

  /** However many in-flight requests fail together: the n-th failure is counted only
      after the first n-1 steps have passed since the first one. */
  lemma {:induction false} FailuresAreSpreadOut(obs: seq<Observation>)
    requires ClockMovesForward(obs) && TrackAll(obs).failures > 0
    ensures obs != [] && obs[|obs| - 1].now >= FirstCounted(obs) + Total(TrackAll(obs).failures - 1)
  {
    OpenSince(obs);
  }

  /** The longest wait after the latest result is five minutes. */
  lemma {:induction false} RequestsResume(obs: seq<Observation>, now: int)
    requires ClockMovesForward(obs) && obs != [] && now >= obs[|obs| - 1].now + 300
    ensures !Blocks(TrackAll(obs), now)
  {
    OpenSince(obs);
  }

  /** A burst of failures while the breaker is open changes nothing. */
  lemma {:induction false} BurstsCountOnce(s: State, burst: seq<Observation>)
    requires forall o :: o in burst ==> o.ending != Success && Blocks(s, o.now)
    ensures TrackFrom(s, burst) == s
    decreases |burst|
  {
    if burst != [] {
      assert burst[|burst| - 1] in burst;
      BurstsCountOnce(s, burst[..|burst| - 1]);
    }
  }

  function TrackFrom(s: State, obs: seq<Observation>): State
    decreases |obs|
  {
    if obs == [] then s else Track(TrackFrom(s, obs[..|obs| - 1]), obs[|obs| - 1])
  }

  function Related(obs: seq<Observation>): seq<Observation>
    decreases |obs|
  {
    if obs == [] then []
    else Related(obs[..|obs| - 1]) + if obs[|obs| - 1].ending == Unrelated then [] else [obs[|obs| - 1]]
  }

  /** Errors of other kinds neither open nor close the breaker, wherever they come. */
  lemma {:induction false} UnrelatedIsIgnored(obs: seq<Observation>)
    ensures TrackAll(Related(obs)) == TrackAll(obs)
    decreases |obs|
  {
    if obs != [] {
      var init, last := obs[..|obs| - 1], obs[|obs| - 1];
      UnrelatedIsIgnored(init);
      if last.ending == Unrelated {
        assert Related(init) + [] == Related(init);
      } else {
        assert (Related(init) + [last])[..|Related(init)|] == Related(init);
      }
    }
  }

  /** Whatever happened before, a failure that is not inside an open period blocks requests
      for 5 seconds if it is the first since the last success, then for 30, for 120, and for
      300 from the fourth on. */
  lemma {:induction false} WaitsGrow(obs: seq<Observation>, now: int)
    requires !Blocks(TrackAll(obs), now)
    ensures var n := TrackAll(obs).failures;
      var wait := if n == 0 then 5 else if n == 1 then 30 else if n == 2 then 120 else 300;
      TrackAll(obs + [Observation(Transient, now)]) == State(n + 1, now + wait)
  {
    var more := obs + [Observation(Transient, now)];
    assert more[..|more| - 1] == obs;
  }

  function FailuresAt(times: seq<int>): seq<Observation> {
    seq(|times|, i requires 0 <= i < |times| => Observation(Transient, times[i]))
  }

  /** Four failures, each as soon as requests go out again, and a fifth: the waits are 5, 30,
      120, 300 and 300 seconds; a success in between begins again. */
  lemma {:induction false} FourWaits(t: int)
    requires t >= 0
    ensures TrackAll(FailuresAt([t])) == State(1, t + 5)
    ensures TrackAll(FailuresAt([t, t + 5])) == State(2, t + 35)
    ensures TrackAll(FailuresAt([t, t + 5, t + 35])) == State(3, t + 155)
    ensures TrackAll(FailuresAt([t, t + 5, t + 35, t + 155])) == State(4, t + 455)
    ensures TrackAll(FailuresAt([t, t + 5, t + 35, t + 155, t + 455])) == State(5, t + 755)
  {
    assert [] + [t] == [t] && [t] + [t + 5] == [t, t + 5] && [t, t + 5] + [t + 35] == [t, t + 5, t + 35];
    assert [t, t + 5, t + 35] + [t + 155] == [t, t + 5, t + 35, t + 155];
    assert [t, t + 5, t + 35, t + 155] + [t + 455] == [t, t + 5, t + 35, t + 155, t + 455];
    OneMoreFailure([], t);
    OneMoreFailure([t], t + 5);
    OneMoreFailure([t, t + 5], t + 35);
    OneMoreFailure([t, t + 5, t + 35], t + 155);
    OneMoreFailure([t, t + 5, t + 35, t + 155], t + 455);
    assert TrackAll(FailuresAt([])) == CLOSED;
  }

  lemma {:induction false} OneMoreFailure(times: seq<int>, now: int)
    requires !Blocks(TrackAll(FailuresAt(times)), now)
    ensures var n := TrackAll(FailuresAt(times)).failures;
      TrackAll(FailuresAt(times + [now])) ==
        State(n + 1, now + if n == 0 then 5 else if n == 1 then 30 else if n == 2 then 120 else 300)
  {
    WaitsGrow(FailuresAt(times), now);
    assert FailuresAt(times + [now]) == FailuresAt(times) + [Observation(Transient, now)];
  }

  /** After a success requests go out at once, and waits begin with the shortest. */
  lemma {:induction false} SuccessBeginsAgain(obs: seq<Observation>, then_: int, now: int)
    requires now >= 0
    ensures !Blocks(TrackAll(obs + [Observation(Success, then_)]), now)
    ensures TrackAll(obs + [Observation(Success, then_), Observation(Transient, now)]) == State(1, now + 5)
  {
    var closed := obs + [Observation(Success, then_)];
    assert closed[..|closed| - 1] == obs;
    WaitsGrow(closed, now);
    assert obs + [Observation(Success, then_), Observation(Transient, now)] == closed + [Observation(Transient, now)];
  }
}
