/** One calendar round as a run of steps: what the page loop does call by call, and the laws
    of the whole round. */
module CalendarRound {
  import opened Ids
  import opened Calendar
  import opened CalendarLaws
  import opened EventLog
  import opened CalendarRun
  import CalendarReplay

  /** One reply of the server to a SyncCalendar request. */
  datatype Reply = PageReply(page: Page) | Status5 | Failure

  datatype Outcome = Completed | Stalled | Failed | NotSaved | TooManyPages

  /** Whether a line could be appended to the log, and whether the main file was written. */
  datatype Saved = Saved(line: bool, main: bool)

  /** A CalDAV client's write, which may come whenever the lock is free. */
  datatype LocalWrite = Upsert(ev: Event, saved: Saved) | Remove(id: string, saved: Saved)

  // ---------- a round as a run of steps ----------

  ghost function LocalStep(w: LocalWrite): Step {
    match w
    case Upsert(ev, saved) => if saved.line then LocalUpsertStep(ev) else UnloggedUpsertStep(ev)
    case Remove(id, saved) => if saved.line then LocalDeleteStep(id) else UnloggedDeleteStep(id)
  }

  ghost function LocalSteps(ws: seq<LocalWrite>): seq<Step>
    decreases |ws|
  {
    if ws == [] then [] else LocalSteps(ws[..|ws| - 1]) + [LocalStep(ws[|ws| - 1])]
  }

  ghost function PagesOf(steps: seq<Step>): seq<Page>
    decreases |steps|
  {
    if steps == [] then []
    else
      var last := steps[|steps| - 1];
      PagesOf(steps[..|steps| - 1]) + if last.PageStep? then [last.page] else []
  }

  /** How many pages there have been since the last one that changed something visible, or
      since a batch was given up. */
  ghost function IdlePages(start: State, steps: seq<Step>): nat
    decreases |steps|
  {
    if steps == [] then 0
    else
      var init, last := steps[..|steps| - 1], steps[|steps| - 1];
      if last == DropPendingStep then 0
      else if !last.PageStep? then IdlePages(start, init)
      else if Calendar.ApplyPage(After(start, init).world, last.page).1 then 0
      else IdlePages(start, init) + 1
  }

  /** The last page of the run had, or had not, more to follow. */
  ghost predicate EndsWith(steps: seq<Step>, moreAvailable: bool) {
    var pages := PagesOf(steps);
    pages != [] && pages[|pages| - 1].moreAvailable == moreAvailable
  }

  /** A run without what is done for the files alone. */
  ghost function Deeds(steps: seq<Step>): seq<Step>
    decreases |steps|
  {
    if steps == [] then []
    else
      var last := steps[|steps| - 1];
      Deeds(steps[..|steps| - 1]) + if last in {SaveStep, DropPendingStep} then [] else [last]
  }

  /** `first`, then what clients wrote and the server sent, call by call. */
  ghost function Happened(first: seq<Step>, server: nat -> Reply, local: nat -> seq<LocalWrite>, calls: nat)
    : seq<Step>
  {
    if calls == 0 then first
    else
      var reply := server(calls - 1);
      Happened(first, server, local, calls - 1) + LocalSteps(local(calls - 1))
      + if reply.PageReply? then [PageStep(reply.page)] else []
  }

  /** How many pages wait to be saved. */
  ghost function Unsaved(steps: seq<Step>): nat
    decreases |steps|
  {
    if steps == [] || steps[|steps| - 1] in {SaveStep, DropPendingStep} then 0
    else Unsaved(steps[..|steps| - 1]) + if steps[|steps| - 1].PageStep? then 1 else 0
  }

  /** Pages are saved ten at a time. */
  ghost predicate SavedByTens(steps: seq<Step>)
    decreases |steps|
  {
    steps == [] ||
    var init, last := steps[..|steps| - 1], steps[|steps| - 1];
    SavedByTens(init) && Unsaved(steps) <= 10 && (last == SaveStep ==> Unsaved(init) == 10)
  }

  /** The same, but for the last save of a round, which takes what there is. */
  ghost predicate Closed(steps: seq<Step>) {
    steps != [] && steps[|steps| - 1] in {SaveStep, DropPendingStep} && SavedByTens(steps[..|steps| - 1])
  }

  ghost function Refusals(server: nat -> Reply, calls: nat): seq<Reply> {
    if calls == 0 then []
    else Refusals(server, calls - 1) + if server(calls - 1).PageReply? then [] else [server(calls - 1)]
  }

  ghost predicate AllHaveMore(server: nat -> Reply, calls: nat) {
    forall i: nat :: i < calls && server(i).PageReply? ==> server(i).page.moreAvailable
  }

  /** How the replies fit the outcome of the page loop. */
  ghost predicate Ending(outcome: Outcome, calls: nat, retried: bool, server: nat -> Reply) {
    && 0 < calls <= (if retried then 200 else 100)
    && AllHaveMore(server, calls - 1)
    && var last := server(calls - 1);
    && Refusals(server, calls) == (if retried then [Status5] else []) + (if outcome == Failed then [last] else [])
    && match outcome
       case Completed => last.PageReply? && !last.page.moreAvailable
       case Stalled => last.PageReply? && last.page.moreAvailable
       case Failed => last == Failure || (last == Status5 && retried)
       case NotSaved => last.PageReply?
       case TooManyPages =>
         last.PageReply? && last.page.moreAvailable && calls >= if retried then 101 else 100
  }

  /** Each page but the last of a round had more to follow, and one refusal at most was
      answered with a reset. */
  ghost predicate Answered(server: nat -> Reply, calls: nat, page: nat, retried: bool) {
    && page + (if retried then 1 else 0) <= calls <= (if retried then 100 else 0) + page
    && AllHaveMore(server, calls) && Refusals(server, calls) == (if retried then [Status5] else [])
    && (page > 0 ==> server(calls - 1).PageReply?)
  }

  ghost predicate Begins(start: State, steps: seq<Step>) {
    IdlePages(start, steps) == Unsaved(steps) == 0 && SavedByTens(steps)
  }

  /** A round that has done `deeds`, with the pages since its last save still to be saved. */
  ghost predicate Holding(start: State, deeds: seq<Step>, page: nat, retried: bool, steps: seq<Step>) {
    && page <= 100 && Deeds(steps) == deeds && IdlePages(start, steps) < 3
    && SavedByTens(steps) && Unsaved(steps) == page % 10 && (!retried ==> DropPendingStep !in steps)
  }

  /** The same between two pages; the hundredth is saved. */
  ghost predicate Going(start: State, deeds: seq<Step>, page: nat, retried: bool, steps: seq<Step>) {
    && Holding(start, deeds, page, retried, steps)
    && (page == 100 ==> Closed(steps) && EndsWith(steps, true))
  }

  /** A round that is over did these deeds, and saved them by tens. */
  ghost predicate Told(start: State, deeds: seq<Step>, outcome: Outcome, retried: bool, steps: seq<Step>) {
    && Deeds(steps) == deeds && Closed(steps)
    && (!retried && outcome !in {Failed, NotSaved} ==> DropPendingStep !in steps)
    && match outcome
       case Completed => EndsWith(steps, false)
       case Stalled => EndsWith(steps, true) && IdlePages(start, steps) == 3
       case TooManyPages => EndsWith(steps, true) && IdlePages(start, steps) < 3
       case _ => true
  }

  /** What one page adds to a run. */
  ghost predicate Took(steps: seq<Step>, page: Page, saving: bool, ok: bool, more: seq<Step>) {
    if !saving then ok && more == steps + [PageStep(page)]
    else more == steps + [PageStep(page)] + [SaveStep] || (!ok && more == steps + [PageStep(page)] + [DropPendingStep])
  }

  /** The page loop between two calls. */
  datatype Round = Round(steps: seq<Step>, page: nat, idle: nat, retried: bool, outcome: Option<Outcome>)

  /** A save, and whether both files were written. */
  ghost function SavedRun(start: State, steps: seq<Step>, saved: Saved): (seq<Step>, bool) {
    var line := saved.line || After(start, steps).world.batch == EMPTY_BATCH;
    (steps + [if line then SaveStep else DropPendingStep], line && saved.main)
  }

  /** One page, with the save if one is due: the run, the idle pages, whether files were
      written and whether the server is stuck. */
  ghost function Paged(start: State, steps: seq<Step>, page: nat, idle: nat, it: Page, saved: Saved)
    : (seq<Step>, nat, bool, bool)
  {
    var now := if Calendar.ApplyPage(After(start, steps).world, it).1 then 0 else idle + 1;
    var paged, stalled := steps + [PageStep(it)], it.moreAvailable && now >= 3;
    if (page + 1) % 10 == 0 || !it.moreAvailable || stalled || page == 99 then
      var (more, ok) := SavedRun(start, paged, saved);
      (more, now, ok, stalled)
    else
      (paged, now, true, stalled)
  }

  ghost function Turn(start: State, r: Round, ws: seq<LocalWrite>, reply: Reply, saved: Saved): Round {
    var steps := r.steps + LocalSteps(ws);
    if reply == Status5 && !r.retried then Round(steps + [DropPendingStep], 0, 0, true, None)
    else if !reply.PageReply? then Round(steps + [DropPendingStep], r.page, r.idle, r.retried, Some(Failed))
    else
      var (more, idle, ok, stalled) := Paged(start, steps, r.page, r.idle, reply.page, saved);
      Round(more, r.page + 1, idle, r.retried, Verdict(r.page, reply.page, ok, stalled))
  }

  function Verdict(page: nat, it: Page, ok: bool, stalled: bool): Option<Outcome> {
    if !ok then Some(NotSaved)
    else if !it.moreAvailable then Some(Completed)
    else if stalled then Some(Stalled)
    else if page == 99 then Some(TooManyPages) else None
  }

  ghost predicate Turned(start: State, server: nat -> Reply, local: nat -> seq<LocalWrite>, saves: nat -> Saved,
            rounds: seq<Round>, i: nat)
    requires i + 1 < |rounds|
  {
    rounds[i].outcome == None && rounds[i + 1] == Turn(start, rounds[i], local(i), server(i), saves(i + 1))
  }

  /** How the page loop stood before its first call and after each one. */
  ghost predicate Played(start: State, begun: seq<Step>, server: nat -> Reply, local: nat -> seq<LocalWrite>,
            saves: nat -> Saved, rounds: seq<Round>)
  {
    && rounds != [] && rounds[0] == Round(begun, 0, 0, false, None)
    && forall i :: 0 <= i < |rounds| - 1 ==> Turned(start, server, local, saves, rounds, i)
  }

  ghost predicate Undisturbed(local: nat -> seq<LocalWrite>, calls: nat) {
    forall i: nat :: i < calls ==> local(i) == []
  }

  /** No reset, no error, and no write of a client in between. */
  ghost predicate Smooth(outcome: Outcome, retried: bool, local: nat -> seq<LocalWrite>, calls: nat) {
    !retried && Undisturbed(local, calls) && outcome in {Completed, Stalled, TooManyPages}
  }

  ghost predicate Steady(start: State, steps: seq<Step>) {
    && AllHarmless(start, steps)
    && After(start, steps).world.cal == CalendarReplay.AfterPages(Dedupe(start.world), PagesOf(steps)).cal
  }

  lemma {:induction false} Opening(start: State, step: Step)
    requires !step.PageStep?
    ensures After(start, [step]) == Next(start, step) && PagesOf([step]) == [] && IdlePages(start, [step]) == 0
    ensures step == DedupeStep && start.world.batch == EMPTY_BATCH ==> Steady(start, [step])
  {
    assert [step][1..] == [] && [step][..0] == [];
    assert After(Next(start, step), []) == Next(start, step);
    assert PagesOf([]) == [];
  }

  lemma {:induction false} OpeningBegins(start: State, step: Step)
    requires !step.PageStep? && step !in {SaveStep, DropPendingStep}
    ensures Begins(start, [step]) && Deeds([step]) == [step]
  {
    DeedsSnoc([], step);
    PagesSnoc(start, [], step);
    assert [] + [step] == [step];
  }

  lemma {:induction false} LocalStepIsNoPage(start: State, steps: seq<Step>, w: LocalWrite)
    ensures PagesOf(steps + [LocalStep(w)]) == PagesOf(steps)
    ensures IdlePages(start, steps + [LocalStep(w)]) == IdlePages(start, steps)
  {
    PagesSnoc(start, steps, LocalStep(w));
    assert PagesOf(steps) + [] == PagesOf(steps);
  }

  lemma {:induction false} LocalStepsSnoc(steps: seq<Step>, ws: seq<LocalWrite>)
    requires ws != []
    ensures var init, last := ws[..|ws| - 1], LocalStep(ws[|ws| - 1]);
      steps + LocalSteps(ws) == (steps + LocalSteps(init)) + [last]
  {
  }

  lemma {:induction false} LocalStepsAreNoPages(start: State, steps: seq<Step>, ws: seq<LocalWrite>)
    ensures PagesOf(steps + LocalSteps(ws)) == PagesOf(steps)
    ensures IdlePages(start, steps + LocalSteps(ws)) == IdlePages(start, steps)
    decreases |ws|
  {
    if ws == [] {
      assert steps + [] == steps;
    } else {
      var init := ws[..|ws| - 1];
      LocalStepsAreNoPages(start, steps, init);
      LocalStepsSnoc(steps, ws);
      LocalStepIsNoPage(start, steps + LocalSteps(init), ws[|ws| - 1]);
    }
  }

  lemma {:induction false} DeedsSnoc(steps: seq<Step>, step: Step)
    ensures Deeds(steps + [step]) == Deeds(steps) + if step in {SaveStep, DropPendingStep} then [] else [step]
    ensures Unsaved(steps + [step])
      == if step in {SaveStep, DropPendingStep} then 0 else Unsaved(steps) + if step.PageStep? then 1 else 0
    ensures SavedByTens(steps + [step])
      <==> SavedByTens(steps) && Unsaved(steps + [step]) <= 10 && (step == SaveStep ==> Unsaved(steps) == 10)
    ensures step in {SaveStep, DropPendingStep} ==>
      (Closed(steps + [step]) <==> SavedByTens(steps)) && Deeds(steps + [step]) == Deeds(steps)
  {
    assert (steps + [step])[..|steps|] == steps;
    assert Deeds(steps) + [] == Deeds(steps);
  }

  lemma {:induction false} UnsavedByTens(steps: seq<Step>)
    requires SavedByTens(steps)
    ensures Unsaved(steps) <= 10
  {
  }

  lemma {:induction false} LocalStepsAreDeeds(steps: seq<Step>, ws: seq<LocalWrite>)
    ensures Deeds(steps + LocalSteps(ws)) == Deeds(steps) + LocalSteps(ws)
    ensures Unsaved(steps + LocalSteps(ws)) == Unsaved(steps)
    ensures SavedByTens(steps) ==> SavedByTens(steps + LocalSteps(ws))
    ensures DropPendingStep in steps + LocalSteps(ws) ==> DropPendingStep in steps
    decreases |ws|
  {
    if ws == [] {
      assert steps + [] == steps && Deeds(steps) + [] == Deeds(steps);
    } else {
      var init, last := ws[..|ws| - 1], LocalStep(ws[|ws| - 1]);
      LocalStepsAreDeeds(steps, init);
      LocalStepsSnoc(steps, ws);
      DeedsSnoc(steps + LocalSteps(init), last);
      if SavedByTens(steps) { UnsavedByTens(steps); }
      assert Deeds(steps) + (LocalSteps(init) + [last]) == (Deeds(steps) + LocalSteps(init)) + [last];
    }
  }

  /** What one more reply makes of the calls so far. */
  lemma {:induction false} Hears(server: nat -> Reply, calls: nat, page: nat, retried: bool)
    requires Answered(server, calls, page, retried) && page < 100
    ensures var reply, now := server(calls), calls + 1;
      if reply.PageReply? then
        && Ending(NotSaved, now, retried, server)
        && Ending(if reply.page.moreAvailable then Stalled else Completed, now, retried, server)
        && (reply.page.moreAvailable ==> Answered(server, now, page + 1, retried))
      else if reply == Status5 && !retried then Answered(server, now, 0, true)
      else Ending(Failed, now, retried, server)
  {
    assert Refusals(server, calls + 1)
        == Refusals(server, calls) + if server(calls).PageReply? then [] else [server(calls)];
  }

  lemma {:induction false} RunsOut(server: nat -> Reply, calls: nat, retried: bool)
    requires Answered(server, calls, 100, retried)
    ensures Ending(TooManyPages, calls, retried, server)
  {
  }

  lemma {:induction false} ClientsTold(start: State, deeds: seq<Step>, page: nat, retried: bool, steps: seq<Step>,
          ws: seq<LocalWrite>)
    requires Going(start, deeds, page, retried, steps)
    ensures Holding(start, deeds + LocalSteps(ws), page, retried, steps + LocalSteps(ws))
    ensures IdlePages(start, steps + LocalSteps(ws)) == IdlePages(start, steps)
  {
    LocalStepsAreDeeds(steps, ws);
    LocalStepsAreNoPages(start, steps, ws);
  }

  /** One more page, saved or not. */
  lemma {:induction false} PageTold(start: State, deeds: seq<Step>, page: nat, mid: seq<Step>, it: Page, idle: nat)
    requires Deeds(mid) == deeds && SavedByTens(mid) && Unsaved(mid) == page % 10
    requires idle == IdlePages(start, mid + [PageStep(it)])
    ensures var more := mid + [PageStep(it)];
      && Deeds(more) == deeds + [PageStep(it)] && SavedByTens(more) && Unsaved(more) == page % 10 + 1
      && EndsWith(more, it.moreAvailable)
  {
    DeedsSnoc(mid, PageStep(it));
    PagesSnoc(start, mid, PageStep(it));
  }

  lemma {:induction false} SaveTold(start: State, deeds: seq<Step>, steps: seq<Step>, step: Step, more: bool)
    requires Deeds(steps) == deeds && SavedByTens(steps) && EndsWith(steps, more)
    requires step in {SaveStep, DropPendingStep}
    ensures var after := steps + [step];
      && Deeds(after) == deeds && Closed(after) && EndsWith(after, more) && Unsaved(after) == 0
      && (step == SaveStep ==> IdlePages(start, after) == IdlePages(start, steps))
      && (Unsaved(steps) == 10 ==> SavedByTens(after))
  {
    DeedsSnoc(steps, step);
    PagesSnoc(start, steps, step);
    assert PagesOf(steps) + [] == PagesOf(steps);
  }

  lemma {:induction false} NextOfTen(page: nat)
    ensures (page + 1) % 10 == if page % 10 == 9 then 0 else page % 10 + 1
  {
  }

  lemma {:induction false} WaitingGoesOn(start: State, deeds: seq<Step>, page: nat, retried: bool, steps: seq<Step>)
    requires Deeds(steps) == deeds && SavedByTens(steps) && Unsaved(steps) == page % 10 + 1 && page % 10 != 9
    requires page < 100 && IdlePages(start, steps) < 3
    requires !retried ==> DropPendingStep !in steps
    ensures Going(start, deeds, page + 1, retried, steps)
  {
    NextOfTen(page);
  }

  lemma {:induction false} SavedGoesOn(start: State, deeds: seq<Step>, page: nat, retried: bool, steps: seq<Step>)
    requires Deeds(steps) == deeds && SavedByTens(steps) && Unsaved(steps) == 0 && page % 10 == 9
    requires page < 100 && IdlePages(start, steps) < 3 && Closed(steps) && EndsWith(steps, true)
    requires !retried ==> DropPendingStep !in steps
    ensures Going(start, deeds, page + 1, retried, steps)
  {
    NextOfTen(page);
  }

  /** What a page leads to, with the save that is due. */
  ghost predicate Leads(start: State, deeds: seq<Step>, page: nat, retried: bool, it: Page, idle: nat, ok: bool,
            steps: seq<Step>)
  {
    if !ok then Told(start, deeds, NotSaved, retried, steps)
    else if !it.moreAvailable then Told(start, deeds, Completed, retried, steps)
    else if idle >= 3 then Told(start, deeds, Stalled, retried, steps)
    else Going(start, deeds, page + 1, retried, steps) && IdlePages(start, steps) == idle
  }

  lemma {:induction false} PageLeads(start: State, deeds: seq<Step>, page: nat, retried: bool, it: Page, idle: nat,
          ok: bool, saving: bool, paged: seq<Step>, step: Step)
    requires Deeds(paged) == deeds && SavedByTens(paged) && Unsaved(paged) == page % 10 + 1 && page < 100
    requires EndsWith(paged, it.moreAvailable) && idle == IdlePages(start, paged) <= 3
    requires step == SaveStep || (!ok && step == DropPendingStep)
    requires saving == (page % 10 == 9 || !it.moreAvailable || idle >= 3)
    requires !retried ==> DropPendingStep !in paged
    ensures ok && !saving ==> Leads(start, deeds, page, retried, it, idle, ok, paged)
    ensures saving ==> Leads(start, deeds, page, retried, it, idle, ok, paged + [step])
  {
    if saving {
      SaveTold(start, deeds, paged, step, it.moreAvailable);
      if ok && it.moreAvailable && idle < 3 { SavedGoesOn(start, deeds, page, retried, paged + [step]); }
    } else {
      WaitingGoesOn(start, deeds, page, retried, paged);
    }
  }

  lemma {:induction false} TookStep(mid: seq<Step>, it: Page, saving: bool, ok: bool, more: seq<Step>)
    returns (paged: seq<Step>, step: Step)
    requires Took(mid, it, saving, ok, more)
    ensures paged == mid + [PageStep(it)] && (step == SaveStep || (!ok && step == DropPendingStep))
    ensures if saving then more == paged + [step] else ok && more == paged
    ensures DropPendingStep in paged ==> DropPendingStep in mid
  {
    paged := mid + [PageStep(it)];
    step := if more == paged + [SaveStep] || ok then SaveStep else DropPendingStep;
  }

  lemma {:induction false} GoesOn(start: State, deeds: seq<Step>, page: nat, retried: bool, mid: seq<Step>, it: Page,
          idle: nat, saving: bool, ok: bool, more: seq<Step>)
    requires Holding(start, deeds, page, retried, mid) && page < 100
    requires idle == IdlePages(start, mid + [PageStep(it)]) <= 3
    requires saving == (page % 10 == 9 || !it.moreAvailable || idle >= 3) && Took(mid, it, saving, ok, more)
    ensures Leads(start, deeds + [PageStep(it)], page, retried, it, idle, ok, more)
  {
    PageTold(start, deeds, page, mid, it, idle);
    var paged, step := TookStep(mid, it, saving, ok, more);
    PageLeads(start, deeds + [PageStep(it)], page, retried, it, idle, ok, saving, paged, step);
  }

  /** What was pending is given up. */
  lemma {:induction false} Drop(start: State, steps: seq<Step>) returns (more: seq<Step>)
    ensures After(start, more) == Next(After(start, steps), DropPendingStep) && more == steps + [DropPendingStep]
  {
    more := steps + [DropPendingStep];
    AfterSnoc(start, steps, DropPendingStep);
  }

  lemma {:induction false} DropTold(start: State, deeds: seq<Step>, page: nat, retried: bool, steps: seq<Step>)
    requires Holding(start, deeds, page, retried, steps)
    ensures var more := steps + [DropPendingStep];
      Told(start, deeds, Failed, retried, more) && Going(start, deeds, 0, true, more) && IdlePages(start, more) == 0
  {
    DeedsSnoc(steps, DropPendingStep);
    PagesSnoc(start, steps, DropPendingStep);
  }

  lemma {:induction false} SteadyPage(start: State, steps: seq<Step>, page: Page)
    ensures Steady(start, steps) ==> Steady(start, steps + [PageStep(page)])
  {
    PagesSnoc(start, steps, PageStep(page));
    if Steady(start, steps) {
      HarmlessSnoc(start, steps, PageStep(page));
      AfterSnoc(start, steps, PageStep(page));
      PageFollows(Dedupe(start.world), PagesOf(steps), After(start, steps).world, page);
    }
  }

  lemma {:induction false} SteadySave(start: State, steps: seq<Step>)
    ensures Steady(start, steps) ==> Steady(start, steps + [SaveStep])
  {
    PagesSnoc(start, steps, SaveStep);
    assert PagesOf(steps) + [] == PagesOf(steps);
    if Steady(start, steps) {
      HarmlessSnoc(start, steps, SaveStep);
      AfterSnoc(start, steps, SaveStep);
    }
  }

  lemma {:induction false} PagedTook(start: State, steps: seq<Step>, page: nat, idle: nat, it: Page, saved: Saved)
    requires idle == IdlePages(start, steps)
    ensures var (more, now, ok, stalled) := Paged(start, steps, page, idle, it, saved);
      && now == IdlePages(start, steps + [PageStep(it)]) <= idle + 1 && stalled == (it.moreAvailable && now >= 3)
      && Took(steps, it, (page + 1) % 10 == 0 || !it.moreAvailable || stalled || page == 99, ok, more)
  {
    PagesSnoc(start, steps, PageStep(it));
  }

  lemma {:induction false} PageGoesOn(start: State, deeds: seq<Step>, page: nat, idle: nat, retried: bool,
          steps: seq<Step>, it: Page, saved: Saved)
    requires Holding(start, deeds, page, retried, steps) && page < 100 && idle == IdlePages(start, steps)
    ensures var (more, now, ok, stalled) := Paged(start, steps, page, idle, it, saved);
      Leads(start, deeds + [PageStep(it)], page, retried, it, now, ok, more)
  {
    PagedTook(start, steps, page, idle, it, saved);
    NextOfTen(page);
    var (more, now, ok, stalled) := Paged(start, steps, page, idle, it, saved);
    GoesOn(start, deeds, page, retried, steps, it, now, page % 10 == 9 || !it.moreAvailable || now >= 3, ok, more);
  }

  /** Where a round stands after these calls, over or not. */
  ghost predicate Stands(start: State, begun: seq<Step>, server: nat -> Reply, local: nat -> seq<LocalWrite>,
            calls: nat, r: Round)
  {
    var deeds := Happened(Deeds(begun), server, local, calls);
    match r.outcome
    case None =>
      && r.page < 100 && r.idle == IdlePages(start, r.steps)
      && Going(start, deeds, r.page, r.retried, r.steps) && Answered(server, calls, r.page, r.retried)
    case Some(outcome) =>
      Told(start, deeds, outcome, r.retried, r.steps) && Ending(outcome, calls, r.retried, server)
  }

  lemma {:induction false} LeadsTo(start: State, deeds: seq<Step>, page: nat, retried: bool, it: Page, idle: nat,
          ok: bool, stalled: bool, steps: seq<Step>)
    requires Leads(start, deeds, page, retried, it, idle, ok, steps) && stalled == (it.moreAvailable && idle >= 3)
    ensures match Verdict(page, it, ok, stalled)
      case None => idle == IdlePages(start, steps) && Going(start, deeds, page + 1, retried, steps)
      case Some(outcome) => Told(start, deeds, outcome, retried, steps)
  {
  }

  lemma {:induction false} PageTurns(start: State, r: Round, deeds: seq<Step>, ws: seq<LocalWrite>, it: Page,
          saved: Saved)
    requires Going(start, deeds, r.page, r.retried, r.steps) && r.page < 100 && r.idle == IdlePages(start, r.steps)
    ensures var t, now := Turn(start, r, ws, PageReply(it), saved), deeds + LocalSteps(ws) + [PageStep(it)];
      match t.outcome
      case None => t.idle == IdlePages(start, t.steps) && Going(start, now, t.page, t.retried, t.steps)
      case Some(outcome) => Told(start, now, outcome, t.retried, t.steps)
  {
    ClientsTold(start, deeds, r.page, r.retried, r.steps, ws);
    var steps, now := r.steps + LocalSteps(ws), deeds + LocalSteps(ws);
    PageGoesOn(start, now, r.page, r.idle, r.retried, steps, it, saved);
    PagedTook(start, steps, r.page, r.idle, it, saved);
    var (more, idle, ok, stalled) := Paged(start, steps, r.page, r.idle, it, saved);
    LeadsTo(start, now + [PageStep(it)], r.page, r.retried, it, idle, ok, stalled, more);
  }

  lemma {:induction false} PageOutcome(start: State, r: Round, ws: seq<LocalWrite>, it: Page, saved: Saved)
    ensures var t := Turn(start, r, ws, PageReply(it), saved);
      && t.retried == r.retried && t.page == r.page + 1
      && match t.outcome
         case None => it.moreAvailable && r.page != 99
         case Some(outcome) =>
           match outcome
           case TooManyPages => it.moreAvailable && r.page == 99
           case Stalled => it.moreAvailable
           case Completed => !it.moreAvailable
           case NotSaved => true
           case Failed => false
  {
  }

  lemma {:induction false} RefusalTurns(start: State, r: Round, deeds: seq<Step>, ws: seq<LocalWrite>, reply: Reply,
          saved: Saved)
    requires Going(start, deeds, r.page, r.retried, r.steps) && !reply.PageReply?
    ensures var t, now := Turn(start, r, ws, reply, saved), deeds + LocalSteps(ws);
      if reply == Status5 && !r.retried then
        t.outcome == None && t.page == 0 && t.retried && t.idle == IdlePages(start, t.steps) &&
        Going(start, now, 0, true, t.steps)
      else
        t.outcome == Some(Failed) && t.retried == r.retried && Told(start, now, Failed, t.retried, t.steps)
  {
    ClientsTold(start, deeds, r.page, r.retried, r.steps, ws);
    DropTold(start, deeds + LocalSteps(ws), r.page, r.retried, r.steps + LocalSteps(ws));
  }

  lemma {:induction false} TurnStands(start: State, begun: seq<Step>, server: nat -> Reply,
          local: nat -> seq<LocalWrite>, calls: nat, r: Round, saved: Saved)
    requires Stands(start, begun, server, local, calls, r) && r.outcome == None
    ensures Stands(start, begun, server, local, calls + 1, Turn(start, r, local(calls), server(calls), saved))
  {
    var deeds := Happened(Deeds(begun), server, local, calls);
    Hears(server, calls, r.page, r.retried);
    if server(calls).PageReply? {
      PageTurns(start, r, deeds, local(calls), server(calls).page, saved);
      PageOutcome(start, r, local(calls), server(calls).page, saved);
      if server(calls).page.moreAvailable && r.page == 99 { RunsOut(server, calls + 1, r.retried); }
    } else {
      RefusalTurns(start, r, deeds, local(calls), server(calls), saved);
    }
  }

  lemma {:induction false} RoundStands(start: State, begun: seq<Step>, server: nat -> Reply,
          local: nat -> seq<LocalWrite>, saves: nat -> Saved, rounds: seq<Round>, calls: nat)
    requires Begins(start, begun) && DropPendingStep !in begun
    requires Played(start, begun, server, local, saves, rounds) && calls < |rounds|
    ensures Stands(start, begun, server, local, calls, rounds[calls])
  {
    if calls > 0 {
      RoundStands(start, begun, server, local, saves, rounds, calls - 1);
      assert Turned(start, server, local, saves, rounds, calls - 1);
      TurnStands(start, begun, server, local, calls - 1, rounds[calls - 1], saves(calls));
    }
  }

  lemma {:induction false} PlayedNext(start: State, begun: seq<Step>, server: nat -> Reply,
          local: nat -> seq<LocalWrite>, saves: nat -> Saved, rounds: seq<Round>, calls: nat)
    returns (more: seq<Round>)
    requires Played(start, begun, server, local, saves, rounds) && |rounds| == calls + 1
    requires rounds[calls].outcome == None
    ensures more == rounds + [Turn(start, rounds[calls], local(calls), server(calls), saves(calls + 1))]
    ensures Played(start, begun, server, local, saves, more)
  {
    more := rounds + [Turn(start, rounds[calls], local(calls), server(calls), saves(calls + 1))];
    forall i | 0 <= i < |more| - 1 ensures Turned(start, server, local, saves, more, i) {
      if i < calls { assert Turned(start, server, local, saves, rounds, i); }
    }
  }

  lemma {:induction false} NothingUnsaved(steps: seq<Step>)
    requires Deeds(steps) == [] && SavedByTens(steps) && DropPendingStep !in steps
    ensures steps == []
  {
  }

  /** A run that only repaired, took pages and saved is steady. */
  lemma {:induction false} DeedsAreSteady(start: State, server: nat -> Reply, local: nat -> seq<LocalWrite>, calls: nat,
          steps: seq<Step>)
    requires Deeds(steps) == Happened([DedupeStep], server, local, calls) && Undisturbed(local, calls)
    requires SavedByTens(steps) && DropPendingStep !in steps && start.world.batch == EMPTY_BATCH
    ensures Steady(start, steps)
    decreases |steps|, calls
  {
    if calls > 0 { DeedsOfCall(server, local, calls); }
    if calls > 0 && !server(calls - 1).PageReply? {
      DeedsAreSteady(start, server, local, calls - 1, steps);
    } else if steps != [] {
      var init, last := steps[..|steps| - 1], steps[|steps| - 1];
      assert steps == init + [last];
      DeedsSnoc(init, last);
      if last == SaveStep {
        DeedsAreSteady(start, server, local, calls, init);
        SteadySave(start, init);
      } else if calls == 0 {
        OneDeed(Deeds(init), last, DedupeStep);
        NothingUnsaved(init);
        Opening(start, last);
      } else {
        LastDeed(Deeds(init), last, Happened([DedupeStep], server, local, calls - 1), PageStep(server(calls - 1).page));
        DeedsAreSteady(start, server, local, calls - 1, init);
        SteadyPage(start, init, server(calls - 1).page);
      }
    }
  }

  lemma {:induction false} DeedsOfCall(server: nat -> Reply, local: nat -> seq<LocalWrite>, calls: nat)
    requires Undisturbed(local, calls) && calls > 0
    ensures Undisturbed(local, calls - 1)
    ensures Happened([DedupeStep], server, local, calls)
      == Happened([DedupeStep], server, local, calls - 1)
         + if server(calls - 1).PageReply? then [PageStep(server(calls - 1).page)] else []
  {
    var told := Happened([DedupeStep], server, local, calls - 1);
    assert told + [] == told;
  }

  lemma {:induction false} OneDeed(init: seq<Step>, last: Step, only: Step)
    requires init + [last] == [only]
    ensures init == [] && last == only
  {
    assert |init + [last]| == 1 && (init + [last])[0] == only;
  }

  lemma {:induction false} LastDeed(init: seq<Step>, last: Step, told: seq<Step>, page: Step)
    requires init + [last] == told + [page]
    ensures init == told && last == page
  {
    assert (init + [last])[|init|] == last && (told + [page])[|told|] == page;
    assert (init + [last])[..|init|] == init && (told + [page])[..|told|] == told;
  }

  lemma {:induction false} SmoothIsSteady(start: State, server: nat -> Reply, local: nat -> seq<LocalWrite>,
          calls: nat, outcome: Outcome, steps: seq<Step>)
    requires Told(start, Happened([DedupeStep], server, local, calls), outcome, false, steps)
    requires Smooth(outcome, false, local, calls) && start.world.batch == EMPTY_BATCH
    ensures Steady(start, steps)
  {
    var init := steps[..|steps| - 1];
    assert steps == init + [SaveStep];
    DeedsSnoc(init, SaveStep);
    DeedsAreSteady(start, server, local, calls, init);
    SteadySave(start, init);
  }

  /** What runs of the store promise at the end of a round. */
  lemma {:induction false} Settle(start: State, steps: seq<Step>)
    ensures var t := After(start, steps);
      Good(start) && AllHarmless(start, steps) && t.world.batch == EMPTY_BATCH ==> Restored(t.disk) == t.world.cal
  {
    if Good(start) && AllHarmless(start, steps) {
      RunsStayGood(start, steps);
      EmptyBatchAgrees(Restored(After(start, steps).disk), After(start, steps).world.cal);
    }
  }

  lemma {:induction false} PagesSnoc(start: State, steps: seq<Step>, step: Step)
    ensures PagesOf(steps + [step]) == PagesOf(steps) + if step.PageStep? then [step.page] else []
    ensures step == DropPendingStep ==> IdlePages(start, steps + [step]) == 0
    ensures !step.PageStep? && step != DropPendingStep ==> IdlePages(start, steps + [step]) == IdlePages(start, steps)
    ensures step.PageStep? ==>
              IdlePages(start, steps + [step]) ==
              if Calendar.ApplyPage(After(start, steps).world, step.page).1 then 0 else IdlePages(start, steps) + 1
  {
    assert (steps + [step])[..|steps|] == steps;
  }

  // ---------- what a page does to the cache does not depend on the batch ----------

  lemma {:induction false} AddIgnoresBatch(w: World, v: World, ev: Event, replay: bool)
    requires w.cal == v.cal
    ensures AddEvent(w, ev, replay).0.cal == AddEvent(v, ev, replay).0.cal
  {
  }

  lemma {:induction false} ChangeIgnoresBatch(w: World, v: World, ev: Event)
    requires w.cal == v.cal
    ensures ChangeEvent(w, ev).0.cal == ChangeEvent(v, ev).0.cal
  {
  }

  lemma {:induction false} DeleteIgnoresBatch(w: World, v: World, id: string)
    requires w.cal == v.cal
    ensures DeleteEvent(w, id).0.cal == DeleteEvent(v, id).0.cal
  {
  }

  lemma {:induction false} ListsIgnoreBatch(w: World, v: World, evs: seq<Event>, ids: seq<string>, replay: bool)
    requires w.cal == v.cal
    ensures AddAll(w, evs, replay).0.cal == AddAll(v, evs, replay).0.cal
    ensures ChangeAll(w, evs).0.cal == ChangeAll(v, evs).0.cal
    ensures DeleteAll(w, ids).0.cal == DeleteAll(v, ids).0.cal
    decreases |evs| + |ids|
  {
    if evs != [] {
      var init, ev := evs[..|evs| - 1], evs[|evs| - 1];
      ListsIgnoreBatch(w, v, init, ids, replay);
      AddIgnoresBatch(AddAll(w, init, replay).0, AddAll(v, init, replay).0, ev, replay);
      ChangeIgnoresBatch(ChangeAll(w, init).0, ChangeAll(v, init).0, ev);
    }
    if ids != [] {
      var init, id := ids[..|ids| - 1], ids[|ids| - 1];
      ListsIgnoreBatch(w, v, [], init, replay);
      DeleteIgnoresBatch(DeleteAll(w, init).0, DeleteAll(v, init).0, id);
    }
  }

  lemma {:induction false} PageIgnoresBatch(w: World, v: World, page: Page)
    requires w.cal == v.cal
    ensures Calendar.ApplyPage(w, page).0.cal == Calendar.ApplyPage(v, page).0.cal
  {
    var replay := IsDuplicateReplay(page, w.cal);
    var w0 := if replay then PruneAliases(w, page.added) else w;
    var v0 := if replay then PruneAliases(v, page.added) else v;
    ListsIgnoreBatch(w0, v0, page.added, [], replay);
    var w1, v1 := AddAll(w0, page.added, replay).0, AddAll(v0, page.added, replay).0;
    ListsIgnoreBatch(w1, v1, page.changed, [], false);
    ListsIgnoreBatch(ChangeAll(w1, page.changed).0, ChangeAll(v1, page.changed).0, [], page.deleted, false);
  }

  lemma {:induction false} PageFollows(w: World, pages: seq<Page>, now: World, page: Page)
    requires now.cal == CalendarReplay.AfterPages(w, pages).cal
    ensures CalendarReplay.AfterPages(w, pages + [page]).cal == Calendar.ApplyPage(now, page).0.cal
    decreases |pages|
  {
    if pages == [] {
      assert (pages + [page])[1..] == [];
      PageIgnoresBatch(w, now, page);
    } else {
      assert (pages + [page])[1..] == pages[1..] + [page];
      PageFollows(Calendar.ApplyPage(w, pages[0]).0, pages[1..], now, page);
    }
  }
}
