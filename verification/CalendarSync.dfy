/** One calendar round of the sync engine: repair, then pages until the server has no
    more, with batched saves, the one Status 5 reset and the stall rule. */
module CalendarSync {
  import opened Ids
  import opened Calendar
  import opened CalendarLaws
  import opened CalendarIndex
  import opened EventLog
  import opened CalendarRun
  import opened CalendarLoops
  import opened CalendarRound
  import opened CalendarStore

  const MAX_PAGES := 100
  const MAX_NO_PROGRESS_PAGES := 3

  class SyncEngine {
    const st: DiskState

    constructor (st: DiskState)
      ensures this.st == st
    {
      this.st := st;
    }

    /** The locked part of the page loop. */
    method ApplyPage(page: Page, pending: Mutations) returns (progress: bool)
      requires st.Valid()
      modifies st`events, st`aliases, pending
      ensures st.Valid()
      ensures (World(st.Mem(), pending.Value()), progress)
        == Calendar.ApplyPage(old(World(st.Mem(), pending.Value())), page)
    {
      ghost var w := World(st.Mem(), pending.Value());
      var index := new DuplicateIndex.Empty();
      index.Fill(st.events);
      var replay := st.PageIsDuplicateReplay(page, index);
      if replay {
        st.PruneReplayAliases(index, page.added, pending);
      }
      ghost var w0 := World(st.Mem(), pending.Value());
      var added := AddRecords(index, page.added, replay, pending);
      ghost var w1 := World(st.Mem(), pending.Value());
      var changed := ChangeRecords(index, page.changed, pending);
      ghost var w2 := World(st.Mem(), pending.Value());
      var deleted := DeleteRecords(index, page.deleted, pending);
      progress := added || changed || deleted;
    }

    method AddRecords(index: DuplicateIndex, evs: seq<Event>, replay: bool, pending: Mutations) returns (progress: bool)
      requires st.Valid() && index.Holds(st.events)
      modifies st`events, st`aliases, index, pending
      ensures st.Valid() && index.Holds(st.events)
      ensures (World(st.Mem(), pending.Value()), progress) == AddAll(old(World(st.Mem(), pending.Value())), evs, replay)
    {
      ghost var w := World(st.Mem(), pending.Value());
      progress := false;
      for i := 0 to |evs|
        invariant st.Valid() && index.Holds(st.events)
        invariant (World(st.Mem(), pending.Value()), progress) == AddAll(w, evs[..i], replay)
      {
        assert evs[..i + 1][..i] == evs[..i];
        var p := st.AddEvent(index, evs[i], replay, pending);
        progress := progress || p;
      }
      assert evs[..|evs|] == evs;
    }

    method ChangeRecords(index: DuplicateIndex, evs: seq<Event>, pending: Mutations) returns (progress: bool)
      requires st.Valid() && index.Holds(st.events)
      modifies st`events, st`aliases, index, pending
      ensures st.Valid() && index.Holds(st.events)
      ensures (World(st.Mem(), pending.Value()), progress) == ChangeAll(old(World(st.Mem(), pending.Value())), evs)
    {
      ghost var w := World(st.Mem(), pending.Value());
      progress := false;
      for i := 0 to |evs|
        invariant st.Valid() && index.Holds(st.events)
        invariant (World(st.Mem(), pending.Value()), progress) == ChangeAll(w, evs[..i])
      {
        assert evs[..i + 1][..i] == evs[..i];
        var p := st.ChangeEvent(index, evs[i], pending);
        progress := progress || p;
      }
      assert evs[..|evs|] == evs;
    }

    method DeleteRecords(index: DuplicateIndex, ids: seq<string>, pending: Mutations) returns (progress: bool)
      requires st.Valid() && index.Holds(st.events)
      modifies st`events, st`aliases, index, pending
      ensures st.Valid() && index.Holds(st.events)
      ensures (World(st.Mem(), pending.Value()), progress) == DeleteAll(old(World(st.Mem(), pending.Value())), ids)
    {
      ghost var w := World(st.Mem(), pending.Value());
      progress := false;
      for i := 0 to |ids|
        invariant st.Valid() && index.Holds(st.events)
        invariant (World(st.Mem(), pending.Value()), progress) == DeleteAll(w, ids[..i])
      {
        assert ids[..i + 1][..i] == ids[..i];
        var p := st.DeleteEvent(index, ids[i], pending);
        progress := progress || p;
      }
      assert ids[..|ids|] == ids;
    }

    /** The repair that opens a round, logged in a batch of its own. */
    method Repair(saved: Saved) returns (ok: bool)
      requires st.Valid()
      modifies st`events, st`aliases, st`log
      ensures st.Valid()
      ensures State(World(st.Mem(), EMPTY_BATCH), st.Files()) ==
              Next(old(State(World(st.Mem(), EMPTY_BATCH), st.Files())),
                if saved.line || Folded(old(st.events)) == {} then DedupeStep else UnwrittenRepairStep)
      ensures ok == (Folded(old(st.events)) == {} || (saved.line && saved.main))
    {
      ghost var w := World(st.Mem(), EMPTY_BATCH);
      var duplicates := st.DedupeEvents();
      RepairIsDedupe(w, st.aliases, duplicates);
      NextRepair(State(w, st.Files()));
      NoDuplicates(duplicates, Folded(w.cal.events));
      if |duplicates| == 0 {
        return true;
      }
      var cleanup := RecordRepair(duplicates);
      ok := st.AppendEventLog(cleanup, saved.line);
      ok := ok && saved.main;
    }

    method RecordRepair(duplicates: seq<string>) returns (cleanup: Mutations)
      requires forall id :: id in duplicates ==> id in st.aliases
      ensures fresh(cleanup) && cleanup.Value() == RepairRecord(st.aliases, duplicates)
    {
      cleanup := new Mutations.Empty();
      for i := 0 to |duplicates|
        invariant cleanup.Value() == RepairRecord(st.aliases, duplicates[..i])
      {
        var id := duplicates[i];
        assert id in duplicates;
        assert duplicates[..i + 1][..i] == duplicates[..i];
        cleanup.RecordDelete(id);
        cleanup.RecordAlias(id, st.aliases[id]);
      }
      assert duplicates[..|duplicates|] == duplicates;
    }

    /** saveCalendarLocked, and a new batch to record in, whether or not it was saved. */
    method Save(pending: Mutations, saved: Saved, ghost start: State, ghost steps: seq<Step>)
      returns (ok: bool, next: Mutations, ghost more: seq<Step>)
      requires After(start, steps) == State(World(st.Mem(), pending.Value()), st.Files())
      modifies st`log
      ensures fresh(next) && next.Value() == EMPTY_BATCH
      ensures (more, ok) == SavedRun(start, steps, saved)
      ensures After(start, more) == State(World(st.Mem(), EMPTY_BATCH), st.Files())
    {
      ok := st.AppendEventLog(pending, saved.line);
      ghost var step := if ok then SaveStep else DropPendingStep;
      AfterSnoc(start, steps, step);
      more := steps + [step];
      ok := ok && saved.main;
      next := new Mutations.Empty();
    }

    /** One more page of a round. */
    method TakePage(page: Page, pending: Mutations, ghost start: State, ghost steps: seq<Step>)
      returns (progress: bool, ghost more: seq<Step>)
      requires st.Valid() && After(start, steps) == State(World(st.Mem(), pending.Value()), st.Files())
      modifies st`events, st`aliases, pending
      ensures st.Valid() && more == steps + [PageStep(page)]
      ensures After(start, more) == State(World(st.Mem(), pending.Value()), st.Files())
      ensures progress == Calendar.ApplyPage(After(start, steps).world, page).1
    {
      more := steps + [PageStep(page)];
      AfterSnoc(start, steps, PageStep(page));
      progress := ApplyPage(page, pending);
    }

    /** The locked part of the page loop, with the save if one is due. */
    method OnePage(it: Page, page: nat, noProgress: nat, pending: Mutations, saved: Saved, ghost start: State,
            ghost steps: seq<Step>)
      returns (ok: bool, stalled: bool, idle: nat, next: Mutations, ghost more: seq<Step>)
      requires st.Valid() && After(start, steps) == State(World(st.Mem(), pending.Value()), st.Files())
      modifies st`events, st`aliases, st`log, pending
      ensures st.Valid() && (next == pending || fresh(next))
      ensures After(start, more) == State(World(st.Mem(), next.Value()), st.Files())
      ensures (more, idle, ok, stalled) == Paged(start, steps, page, noProgress, it, saved)
      ensures !ok || !it.moreAvailable || stalled || page == 99 ==> next.Value() == EMPTY_BATCH
    {
      var progress;
      progress, more := TakePage(it, pending, start, steps);
      idle := if progress then 0 else noProgress + 1;
      stalled := it.moreAvailable && idle >= MAX_NO_PROGRESS_PAGES;
      ok, next := true, pending;
      if (page + 1) % 10 == 0 || !it.moreAvailable || stalled || page == MAX_PAGES - 1 {
        ok, next, more := Save(pending, saved, start, more);
      }
    }

    /** What CalDAV clients write while the lock is free. */
    method TakeLocalWrites(ws: seq<LocalWrite>, pending: Mutations, ghost start: State, ghost steps: seq<Step>)
      returns (ghost more: seq<Step>)
      requires st.Valid() && After(start, steps) == State(World(st.Mem(), pending.Value()), st.Files())
      requires forall w :: w in ws && w.Upsert? ==> w.ev.serverID != ""
      modifies st`events, st`aliases, st`log
      ensures st.Valid() && more == steps + LocalSteps(ws)
      ensures After(start, more) == State(World(st.Mem(), pending.Value()), st.Files())
    {
      assert steps + LocalSteps([]) == steps;
      more := steps;
      for i := 0 to |ws|
        invariant st.Valid() && more == steps + LocalSteps(ws[..i])
        invariant After(start, more) == State(World(st.Mem(), pending.Value()), st.Files())
      {
        assert ws[..i + 1][..i] == ws[..i] && ws[i] in ws;
        AfterSnoc(start, more, LocalStep(ws[i]));
        TakeLocalWrite(ws[i], pending);
        assert more + [LocalStep(ws[i])] == steps + LocalSteps(ws[..i + 1]);
        more := more + [LocalStep(ws[i])];
      }
      assert ws[..|ws|] == ws;
    }

    method TakeLocalWrite(w: LocalWrite, ghost pending: Mutations)
      requires st.Valid() && (w.Upsert? ==> w.ev.serverID != "")
      modifies st`events, st`aliases, st`log
      ensures st.Valid()
      ensures State(World(st.Mem(), pending.Value()), st.Files()) ==
              Next(old(State(World(st.Mem(), pending.Value()), st.Files())), LocalStep(w))
    {
      match w
      case Upsert(ev, saved) => var _ := st.UpsertEvent(ev, saved.line, saved.main);
      case Remove(id, saved) => var _ := st.RemoveEvent(id, saved.line, saved.main);
    }

    /** The page loop of syncCalendarOnce. */
    method PullPages(server: nat -> Reply, local: nat -> seq<LocalWrite>, saves: nat -> Saved, ghost start: State,
                     ghost begun: seq<Step>)
      returns (outcome: Outcome, calls: nat, retried: bool, ghost steps: seq<Step>, ghost rounds: seq<Round>)
      requires st.Valid() && After(start, begun) == State(World(st.Mem(), EMPTY_BATCH), st.Files())
      requires forall i, w :: w in local(i) && w.Upsert? ==> w.ev.serverID != ""
      modifies st`events, st`aliases, st`log
      ensures st.Valid() && After(start, steps) == State(World(st.Mem(), EMPTY_BATCH), st.Files())
      ensures 0 < calls == |rounds| - 1 && Played(start, begun, server, local, saves, rounds)
      ensures rounds[calls].outcome == Some(outcome) && rounds[calls].steps == steps && rounds[calls].retried == retried
    {
      var pending := new Mutations.Empty();
      var page, noProgress, ok, stalled := 0, 0, true, false;
      retried, calls, steps := false, 0, begun;
      rounds := [Round(begun, 0, 0, false, None)];
      while page < MAX_PAGES
        invariant page <= MAX_PAGES && fresh(pending) && st.Valid()
        invariant After(start, steps) == State(World(st.Mem(), pending.Value()), st.Files())
        invariant page == MAX_PAGES ==> pending.Value() == EMPTY_BATCH && calls > 0
        invariant |rounds| == calls + 1 && Played(start, begun, server, local, saves, rounds)
        invariant rounds[calls]
          == Round(steps, page, noProgress, retried, if page == MAX_PAGES then Some(TooManyPages) else None)
        decreases !retried, MAX_PAGES - page
      {
        rounds := PlayedNext(start, begun, server, local, saves, rounds, calls);
        steps := TakeLocalWrites(local(calls), pending, start, steps);
        var reply := server(calls);
        calls := calls + 1;
        if reply == Status5 && !retried {
          steps := Drop(start, steps);
          pending := new Mutations.Empty();
          retried, noProgress, page := true, 0, 0;
          continue;
        }
        if !reply.PageReply? {
          steps := Drop(start, steps);
          return Failed, calls, retried, steps, rounds;
        }
        ok, stalled, noProgress, pending, steps :=
          OnePage(reply.page, page, noProgress, pending, saves(calls), start, steps);
        if !ok {
          return NotSaved, calls, retried, steps, rounds;
        }
        if !reply.page.moreAvailable {
          return Completed, calls, retried, steps, rounds;
        }
        if stalled {
          return Stalled, calls, retried, steps, rounds;
        }
        page := page + 1;
      }
      outcome := TooManyPages;
    }

    /** syncCalendarOnce.  `server` answers the i-th request, before which `local` is written by
        clients; `saves` says which writes of files work.  The round is a run of the store's
        steps, so what is proved of runs holds of it. */
    method SyncCalendarOnce(server: nat -> Reply, local: nat -> seq<LocalWrite>, saves: nat -> Saved)
      returns (outcome: Outcome, calls: nat, retried: bool, ghost steps: seq<Step>)
      requires st.Valid() && forall i, w :: w in local(i) && w.Upsert? ==> w.ev.serverID != ""
      modifies st`events, st`aliases, st`log
      ensures st.Valid() && if calls == 0 then outcome == NotSaved else Ending(outcome, calls, retried, server)
      ensures var start := old(State(World(st.Mem(), EMPTY_BATCH), st.Files()));
        && After(start, steps) == State(World(st.Mem(), EMPTY_BATCH), st.Files())
        && (Good(start) && AllHarmless(start, steps) ==> Restored(st.Files()) == st.Mem())
        && (calls > 0 ==> Told(start, Happened([DedupeStep], server, local, calls), outcome, retried, steps))
        && (Smooth(outcome, retried, local, calls) ==> Steady(start, steps))
    {
      ghost var start := State(World(st.Mem(), EMPTY_BATCH), st.Files());
      var saved := saves(0);
      var ok := Repair(saved);
      ghost var repair := if saved.line || ok then DedupeStep else UnwrittenRepairStep;
      Opening(start, repair);
      OpeningBegins(start, repair);
      if ok {
        ghost var rounds;
        outcome, calls, retried, steps, rounds := PullPages(server, local, saves, start, [repair]);
        RoundStands(start, [repair], server, local, saves, rounds, calls);
        if Smooth(outcome, retried, local, calls) { SmoothIsSteady(start, server, local, calls, outcome, steps); }
      } else {
        outcome, calls, retried, steps := NotSaved, 0, false, [repair];
      }
      Settle(start, steps);
    }
  }

  // ---------- the repair that opens a round ----------

  lemma {:induction false} NoDuplicates(duplicates: seq<string>, folded: set<string>)
    requires Lists(duplicates, folded)
    ensures duplicates == [] <==> folded == {}
  {
    if duplicates != [] { assert duplicates[0] in duplicates; }
  }

  lemma {:induction false} NextRepair(s: State)
    requires s.world.batch == EMPTY_BATCH
    ensures Next(s, DedupeStep) == State(World(Dedupe(s.world).cal, EMPTY_BATCH), Append(s.disk, Dedupe(s.world).batch))
    ensures Next(s, UnwrittenRepairStep) == State(World(Dedupe(s.world).cal, EMPTY_BATCH), s.disk)
  {
    assert s.world == World(s.world.cal, EMPTY_BATCH);
  }

  ghost function RepairRecord(aliases: map<string, Alias>, ids: seq<string>): Batch
    decreases |ids|
  {
    if ids == [] then EMPTY_BATCH
    else
      var b, id := RepairRecord(aliases, ids[..|ids| - 1]), ids[|ids| - 1];
      if id in aliases then Aliased(Deleted(b, {id}), map[id := aliases[id]]) else b
  }

  function Restrict<T>(m: map<string, T>, ids: set<string>): map<string, T> { map id | id in m && id in ids :: m[id] }

  lemma {:induction false} RestrictMore<T>(m: map<string, T>, ids: set<string>, id: string)
    requires id in m
    ensures Restrict(m, ids) + map[id := m[id]] == Restrict(m, ids + {id})
  {
  }

  lemma {:induction false} RepairRecordIs(aliases: map<string, Alias>, ids: seq<string>)
    requires forall id :: id in ids ==> id in aliases
    ensures RepairRecord(aliases, ids) == Batch(map[], Elems(ids), Restrict(aliases, Elems(ids)), {})
    decreases |ids|
  {
    if ids == [] {
      assert Restrict(aliases, {}) == map[];
    } else {
      var init, id := ids[..|ids| - 1], ids[|ids| - 1];
      assert ids == init + [id];
      RepairRecordIs(aliases, init);
      ElemsSnoc(init, id);
      RestrictMore(aliases, Elems(init), id);
    }
  }

  lemma {:induction false} RepairIsDedupe(w: World, aliases: map<string, Alias>, ids: seq<string>)
    requires w.batch == EMPTY_BATCH && Lists(ids, Folded(w.cal.events)) && aliases == Dedupe(w).cal.aliases
    ensures forall id :: id in ids ==> id in aliases
    ensures RepairRecord(aliases, ids) == Dedupe(w).batch
    ensures ids == [] ==> Dedupe(w).batch == EMPTY_BATCH
  {
    var folded := Folded(w.cal.events);
    FoldedAreRestricted(w.cal);
    assert Elems(ids) == folded;
    RepairRecordIs(aliases, ids);
    DedupeBatch(w);
  }

  lemma {:induction false} FoldedAreRestricted(c: Cal)
    ensures var aliases := c.aliases + FoldedAliases(c.events);
      FoldedAliases(c.events).Keys == Folded(c.events) <= aliases.Keys &&
      Restrict(aliases, Folded(c.events)) == FoldedAliases(c.events)
  {
  }

  lemma {:induction false} DedupeBatch(w: World)
    requires w.batch == EMPTY_BATCH
    ensures Dedupe(w).batch == Batch(map[], Folded(w.cal.events), FoldedAliases(w.cal.events), {})
  {
    var none: map<string, Alias> := map[];
    assert none + FoldedAliases(w.cal.events) == FoldedAliases(w.cal.events);
  }
}
