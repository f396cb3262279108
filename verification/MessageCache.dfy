/** One message in the cache, while fetches and mail merges interleave.  A fetch looks for
    the message in the cache, reads its summary, asks the server, and writes the cache in
    the end; a merge changes the summary under the lock and removes the cached message
    afterwards. */
module MessageCache {
  import opened Ids
  import opened Mail
  import opened Message

  type Fetch = nat

  /** A fetch in flight, once it has read the summary. */
  datatype Flight = Missed | Asking(summary: EmailItem)

  /** `cached` is the summary the cached message was fetched for; `due` counts the removals
      that merges still have to make. */
  datatype State = State(summary: Option<EmailItem>, cached: Option<EmailItem>, fetches: map<Fetch, Flight>, due: nat)

  datatype Step =
    | Miss(f: Fetch)                                     // the cache has no file of the message
    | Look(f: Fetch)                                     // cachedEmailItem, under the lock
    | Store(f: Fetch, complete: bool)                    // the replies are in; only a whole message is cached
    | Merge(after: Option<EmailItem>, written: bool, added: bool)  // mutateFolder; added: the round lists it as new
    | Remove                                             // invalidateMessageCache

  /** Equal for rendering, or both gone. */
  predicate Same(a: Option<EmailItem>, b: Option<EmailItem>) {
    match (a, b)
    case (Some(x), Some(y)) => MIMEContentEqual(x, y)
    case (None, None) => true
    case _ => false
  }

  /** The removal list has the message if it is new or reads differently, and is used only
      when the merged list was written. */
  predicate Removes(s: State, step: Step)
    requires step.Merge?
  {
    step.written && (step.added || !Same(s.summary, step.after))
  }

  predicate Enabled(s: State, step: Step) {
    match step
    case Miss(f) => s.cached.None? && f !in s.fetches
    case Look(f) => f in s.fetches && s.fetches[f].Missed?
    case Store(f, _) => f in s.fetches && s.fetches[f].Asking?
    case Merge(_, _, _) => true
    case Remove => s.due > 0
  }

  function Next(s: State, step: Step): State
    requires Enabled(s, step)
  {
    match step
    case Miss(f) => s.(fetches := s.fetches[f := Missed])
    case Look(f) =>
      s.(fetches := if s.summary.Some? then s.fetches[f := Asking(s.summary.value)] else s.fetches - {f})
    case Store(f, complete) =>
      s.(fetches := s.fetches - {f}, cached := if complete then Some(s.fetches[f].summary) else s.cached)
    case Merge(after, _, _) => s.(summary := after, due := if Removes(s, step) then s.due + 1 else s.due)
    case Remove => s.(cached := None, due := s.due - 1)
  }

  // ---------- freshness ----------

  /** What is cached was fetched for a summary that reads as the present one. */
  predicate Fresh(s: State) { s.cached.Some? ==> Same(s.cached, s.summary) }

  /** What holds between the steps: a cached message that is not fresh is about to be removed. */
  predicate Inv(s: State) { s.due > 0 || Fresh(s) }

  /** A fetch in flight has read a summary that reads otherwise than the present one. */
  predicate Overtaken(s: State, f: Fetch) {
    f in s.fetches && s.fetches[f].Asking? && !Same(Some(s.fetches[f].summary), s.summary)
  }

  /** When a step keeps the invariant: an overtaken fetch must not cache its message after the
      removal, and a merge that could not be written must not have changed a cached message. */
  predicate Timely(s: State, step: Step) {
    match step
    case Store(f, complete) => s.due > 0 || !complete || !Overtaken(s, f)
    case Merge(after, written, _) => s.due > 0 || written || s.cached.None? || Same(s.summary, after)
    case _ => true
  }

  lemma {:induction false} SameIsTransitive(a: Option<EmailItem>, b: Option<EmailItem>, c: Option<EmailItem>)
    ensures Same(a, b) && Same(b, c) ==> Same(a, c)
    ensures Same(a, b) <==> Same(b, a)
  {
  }

  lemma {:induction false} RemovalKeepsInv(s: State)
    requires Inv(s) && s.due > 0
    ensures Inv(Next(s, Remove)) && Next(s, Remove).cached.None?
  {
  }

  /** A fetch asks with the summary that is present when it looks, and is over if there is none;
      nothing else changes. */
  lemma {:induction false} LookTakesThePresent(s: State, f: Fetch)
    requires Enabled(s, Look(f))
    ensures var t := Next(s, Look(f));
      && (s.summary.Some? ==> f in t.fetches && t.fetches[f] == Asking(s.summary.value))
      && (s.summary.None? ==> f !in t.fetches)
      && t.cached == s.cached && t.due == s.due && t.summary == s.summary
      && (forall g :: g != f ==> (g in t.fetches <==> g in s.fetches))
      && (forall g :: g != f && g in s.fetches ==> t.fetches[g] == s.fetches[g])
  {
  }

  /** From a fresh state nothing but an untimely step leaves a stale message behind. */
  lemma {:induction false} StepKeepsInvIffTimely(s: State, step: Step)
    requires Inv(s) && Enabled(s, step)
    ensures Inv(Next(s, step)) <==> Timely(s, step)
  {
    match step
    case Store(f, complete) =>
    case Merge(after, _, _) =>
      SameIsTransitive(s.cached, s.summary, after);
      SameIsTransitive(s.summary, s.cached, after);
    case Miss(_) =>
    case Look(_) =>
    case Remove => RemovalKeepsInv(s);
  }

  ghost predicate TimelyRun(s: State, steps: seq<Step>)
    decreases |steps|
  {
    steps == [] || (Enabled(s, steps[0]) && Timely(s, steps[0]) && TimelyRun(Next(s, steps[0]), steps[1..]))
  }

  ghost predicate Possible(s: State, steps: seq<Step>)
    decreases |steps|
  {
    steps == [] || (Enabled(s, steps[0]) && Possible(Next(s, steps[0]), steps[1..]))
  }

  function After(s: State, steps: seq<Step>): State
    decreases |steps|
  {
    if steps == [] || !Enabled(s, steps[0]) then s else After(Next(s, steps[0]), steps[1..])
  }

  /** Over any number of fetches and merges, interleaved in any way: when no removal is due,
      what the cache serves reads as the summary does. */
  lemma {:induction false} TimelyRunsAreFresh(s: State, steps: seq<Step>)
    requires Inv(s) && TimelyRun(s, steps)
    ensures Inv(After(s, steps)) && (After(s, steps).due == 0 ==> Fresh(After(s, steps)))
    decreases |steps|
  {
    if steps != [] {
      StepKeepsInvIffTimely(s, steps[0]);
      TimelyRunsAreFresh(Next(s, steps[0]), steps[1..]);
    }
  }

  // ---------- when a removal is enough ----------

  predicate NoMerge(steps: seq<Step>) { forall step :: step in steps ==> !step.Merge? }

  ghost predicate StaysFresh(s: State) {
    forall steps :: Possible(s, steps) && NoMerge(steps) ==> Fresh(After(s, steps))
  }

  lemma {:induction false} NobodyOvertaken(s: State, steps: seq<Step>)
    requires Fresh(s) && (forall f :: !Overtaken(s, f)) && Possible(s, steps) && NoMerge(steps)
    ensures Fresh(After(s, steps))
    decreases |steps|
  {
    if steps != [] {
      var step := steps[0];
      assert step in steps && forall st :: st in steps[1..] ==> st in steps;
      var t := Next(s, step);
      forall f ensures !Overtaken(t, f) {
        assert !Overtaken(s, f);
        if s.summary.Some? { SameIsTransitive(s.summary, s.summary, s.summary); }
      }
      assert Fresh(t) by { if step.Store? { assert !Overtaken(s, step.f); } }
      NobodyOvertaken(t, steps[1..]);
    }
  }

  lemma {:induction false} OneStore(s: State, f: Fetch)
    requires Overtaken(s, f)
    ensures Possible(s, [Store(f, true)]) && After(s, [Store(f, true)]) == Next(s, Store(f, true))
    ensures !Fresh(After(s, [Store(f, true)]))
  {
    assert [Store(f, true)][1..] == [];
    var t := Next(s, Store(f, true));
    assert Possible(t, []) && After(t, []) == t;
  }

  /** After the removal, the message served stays the present one, whatever the fetches do,
      exactly if no fetch in flight has read a summary that reads otherwise. */
  lemma {:induction false} RemovalIsEnoughIff(s: State)
    requires s.due == 0
    ensures StaysFresh(s) <==> Fresh(s) && forall f :: !Overtaken(s, f)
  {
    if StaysFresh(s) {
      assert Possible(s, []) && NoMerge([]) && After(s, []) == s;
      forall f ensures !Overtaken(s, f) {
        if Overtaken(s, f) {
          OneStore(s, f);
          assert NoMerge([Store(f, true)]);
          assert false;
        }
      }
    }
    if Fresh(s) && forall f :: !Overtaken(s, f) {
      forall steps | Possible(s, steps) && NoMerge(steps) ensures Fresh(After(s, steps)) {
        NobodyOvertaken(s, steps);
      }
    }
  }

  /** The failing run: a fetch reads the summary, a merge changes it and removes the cached
      message, the fetch caches the old one. */
  lemma {:induction false} OvertakenFetchIsCached(old_: EmailItem, new_: EmailItem, f: Fetch)
    requires !MIMEContentEqual(old_, new_)
    ensures var start := State(Some(old_), None, map[], 0);
      var steps := [Miss(f), Look(f), Merge(Some(new_), true, false), Remove, Store(f, true)];
      Possible(start, steps) && After(start, steps) == State(Some(new_), Some(old_), map[], 0)
  {
    var s0 := State(Some(old_), None, map[], 0);
    var s1 := Next(s0, Miss(f));
    var s2 := Next(s1, Look(f));
    var s3 := Next(s2, Merge(Some(new_), true, false));
    var s4 := Next(s3, Remove);
    var s5 := Next(s4, Store(f, true));
    assert s5 == State(Some(new_), Some(old_), map[], 0);
    assert Possible(s5, []) && After(s5, []) == s5;
    OneMore(s4, Store(f, true), []);
    OneMore(s3, Remove, [Store(f, true)]);
    OneMore(s2, Merge(Some(new_), true, false), [Remove, Store(f, true)]);
    OneMore(s1, Look(f), [Merge(Some(new_), true, false), Remove, Store(f, true)]);
    OneMore(s0, Miss(f), [Look(f), Merge(Some(new_), true, false), Remove, Store(f, true)]);
  }

  lemma {:induction false} OneMore(s: State, step: Step, rest: seq<Step>)
    requires Enabled(s, step) && Possible(Next(s, step), rest)
    ensures Possible(s, [step] + rest) && After(s, [step] + rest) == After(Next(s, step), rest)
  {
    assert ([step] + rest)[1..] == rest;
  }

  /** It is then served until the next merge that changes the message: the cache is looked at
      first, so no fetch begins. */
  lemma {:induction false} StaleIsServedOn(s: State, steps: seq<Step>)
    requires s.cached.Some? && s.fetches == map[] && s.due == 0 && Possible(s, steps)
    requires forall step :: step in steps && step.Merge? ==> !step.added && Same(s.summary, step.after)
    ensures var t := After(s, steps);
      t.cached == s.cached && t.fetches == map[] && t.due == 0 && Same(s.summary, t.summary)
    decreases |steps|
  {
    SameIsTransitive(s.summary, s.summary, s.summary);
    if steps != [] {
      var step := steps[0];
      assert step in steps && step.Merge?;
      var t := Next(s, step);
      forall st | st in steps[1..] && st.Merge? ensures !st.added && Same(t.summary, st.after) {
        assert st in steps;
        SameIsTransitive(t.summary, s.summary, st.after);
      }
      StaleIsServedOn(t, steps[1..]);
      SameIsTransitive(s.summary, t.summary, After(t, steps[1..]).summary);
    }
  }

  /** What freshness means for the reader: the cached source is the one that the same replies
      would make of the present summary, if the date is in the same zone. */
  lemma {:induction false} FreshSourceIsCurrent(s: State, valid: seq<int> -> bool, raw: Option<EmailItem>,
          html: Option<EmailItem>, plain: Option<EmailItem>)
    requires Fresh(s) && s.cached.Some?
    requires s.summary.Some? && s.cached.value.dateReceived.zone == s.summary.value.dateReceived.zone
    ensures var was, now := FetchSource(valid, s.cached.value, raw, html, plain),
                            FetchSource(valid, s.summary.value, raw, html, plain);
      SameMessage(was.item, now.item) && was.plainBody == now.plainBody && was.rawMIME == now.rawMIME
  {
    SameSummarySameSource(valid, s.cached.value, s.summary.value, raw, html, plain);
  }
}
