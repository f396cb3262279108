/** The Status 5 retry of a calendar round: the changes recorded so far are dropped but stay
    in memory, and the pages that are pulled again are recorded on top. */
module CalendarRetry {
  import opened Ids
  import opened Calendar
  import opened CalendarLaws
  import opened CalendarReplay
  import opened CalendarRun
  import opened EventLog

  // ---------- what a server record writes ----------

  /** Identifiers of the two maps. */
  datatype Names = Names(events: set<string>, aliases: set<string>)

  const NONE := Names({}, {})

  function Both(a: Names, b: Names): Names { Names(a.events + b.events, a.aliases + b.aliases) }

  function Without(a: Names, b: Names): Names { Names(a.events - b.events, a.aliases - b.aliases) }

  /** An event that is already shown as it is, or an alias that needs no update, is not
      written again. */
  ghost function AddWrites(c: Cal, ev: Event, replay: bool): Names {
    var id := ev.serverID;
    if id == "" then NONE
    else if id in c.events then (if c.events[id] == ev then NONE else Names({id}, {}))
    else if KeepsAlias(c, ev) then
      var a := c.aliases[id];
      if a.uid != ev.uid || (replay && !a.replay) then Names({}, {id}) else NONE
    else if FoldTarget(c.events, ev, replay).Some? then Names({}, {id})
    else Names({id}, if id in c.aliases then {id} else {})
  }

  ghost function ChangeWrites(c: Cal, ev: Event): Names {
    var id := ev.serverID;
    if id == "" then NONE
    else if id in c.events then (if c.events[id] == ev then NONE else Names({id}, {}))
    else if KeepsAlias(c, ev) then (if c.aliases[id].uid != ev.uid then Names({}, {id}) else NONE)
    else Names({id}, if id in c.aliases then {id} else {})
  }

  ghost function DeleteWrites(c: Cal, id: string): Names {
    if id in c.aliases then Names({}, {id})
    else if id !in c.events then NONE
    else if Members(c, id) == {} then Names({id}, {})
    else Names({id, Least(Members(c, id))}, Members(c, id))
  }

  ghost function AddsWrite(w: World, evs: seq<Event>, replay: bool): Names
    decreases |evs|
  {
    if evs == [] then NONE
    else
      var init, ev := evs[..|evs| - 1], evs[|evs| - 1];
      Both(AddsWrite(w, init, replay), AddWrites(AddAll(w, init, replay).0.cal, ev, replay))
  }

  ghost function ChangesWrite(w: World, evs: seq<Event>): Names
    decreases |evs|
  {
    if evs == [] then NONE
    else
      var init, ev := evs[..|evs| - 1], evs[|evs| - 1];
      Both(ChangesWrite(w, init), ChangeWrites(ChangeAll(w, init).0.cal, ev))
  }

  ghost function DeletesWrite(w: World, ids: seq<string>): Names
    decreases |ids|
  {
    if ids == [] then NONE
    else
      var init, id := ids[..|ids| - 1], ids[|ids| - 1];
      Both(DeletesWrite(w, init), DeleteWrites(DeleteAll(w, init).0.cal, id))
  }

  ghost function PageWrites(w: World, page: Page): Names {
    var replay := IsDuplicateReplay(page, w.cal);
    var w0 := if replay then PruneAliases(w, page.added) else w;
    var w1 := AddAll(w0, page.added, replay).0;
    var w2 := ChangeAll(w1, page.changed).0;
    Both(Names({}, if replay then Pruned(w.cal, page.added) else {}),
         Both(AddsWrite(w0, page.added, replay), Both(ChangesWrite(w1, page.changed), DeletesWrite(w2, page.deleted))))
  }

  ghost function PagesWrite(w: World, pages: seq<Page>): Names
    decreases |pages|
  {
    if pages == [] then NONE else Both(PageWrites(w, pages[0]), PagesWrite(ApplyPage(w, pages[0]).0, pages[1..]))
  }

  // ---------- the batch records exactly what was written ----------

  function Recorded(b: Batch): Names {
    Names(b.upserts.Keys + b.deletes, b.aliasUpserts.Keys + b.aliasDeletes)
  }

  lemma {:induction false} PutEventRecords(w: World, ev: Event)
    ensures Recorded(PutEvent(w, ev).batch) == Both(Recorded(w.batch), Names({ev.serverID}, {}))
  {
  }

  lemma {:induction false} DropEventsRecords(w: World, ids: set<string>)
    ensures Recorded(DropEvents(w, ids).batch) == Both(Recorded(w.batch), Names(ids, {}))
  {
  }

  lemma {:induction false} PutAliasesRecords(w: World, m: map<string, Alias>)
    ensures Recorded(PutAliases(w, m).batch) == Both(Recorded(w.batch), Names({}, m.Keys))
  {
  }

  lemma {:induction false} DropAliasesRecords(w: World, ids: set<string>)
    ensures Recorded(DropAliases(w, ids).batch) == Both(Recorded(w.batch), Names({}, ids))
  {
  }

  lemma {:induction false} AddRecords(w: World, ev: Event, replay: bool)
    ensures Recorded(AddEvent(w, ev, replay).0.batch) == Both(Recorded(w.batch), AddWrites(w.cal, ev, replay))
  {
    var id := ev.serverID;
    if id in w.cal.events {
      PutEventRecords(w, ev);
    } else if KeepsAlias(w.cal, ev) {
      var a := w.cal.aliases[id];
      PutAliasesRecords(w, map[id := Alias(a.canonicalID, ev.uid, a.replay || replay)]);
    } else {
      DropAliasesRecords(w, {id});
      var target := FoldTarget(w.cal.events, ev, replay);
      if target.Some? {
        PutAliasesRecords(Detach(w, id), map[id := Alias(target.value, ev.uid, replay)]);
      } else {
        PutEventRecords(Detach(w, id), ev);
      }
    }
  }

  lemma {:induction false} ChangeRecords(w: World, ev: Event)
    ensures Recorded(ChangeEvent(w, ev).0.batch) == Both(Recorded(w.batch), ChangeWrites(w.cal, ev))
  {
    var id := ev.serverID;
    if id in w.cal.events {
      PutEventRecords(w, ev);
    } else if KeepsAlias(w.cal, ev) {
      PutAliasesRecords(w, map[id := w.cal.aliases[id].(uid := ev.uid)]);
    } else {
      DropAliasesRecords(w, {id});
      PutEventRecords(Detach(w, id), ev);
    }
  }

  lemma {:induction false} PromoteRecords(w: World, id: string, heir: string)
    requires id in w.cal.events && heir in Members(w.cal, id)
    ensures Recorded(Promote(w, id, heir).batch) == Both(Recorded(w.batch), Names({id, heir}, Members(w.cal, id)))
  {
    var rest := Retargeted(w.cal, Members(w.cal, id) - {heir}, heir);
    var promoted := w.cal.events[id].(serverID := heir, uid := w.cal.aliases[heir].uid);
    var w1 := DropAliases(w, {heir});
    var w2 := DropEvent(w1, id);
    DropAliasesRecords(w, {heir});
    DropEventsRecords(w1, {id});
    PutEventRecords(w2, promoted);
    PutAliasesRecords(PutEvent(w2, promoted), rest);
    assert rest.Keys == Members(w.cal, id) - {heir};
    assert {heir} + rest.Keys == Members(w.cal, id);
  }

  lemma {:induction false} DeleteRecords(w: World, id: string)
    ensures Recorded(DeleteEvent(w, id).0.batch) == Both(Recorded(w.batch), DeleteWrites(w.cal, id))
  {
    DropAliasesRecords(w, {id});
    DropEventsRecords(w, {id});
    if id !in w.cal.aliases && id in w.cal.events && Members(w.cal, id) != {} {
      PromoteRecords(w, id, Least(Members(w.cal, id)));
    }
  }

  lemma {:induction false} BothAssociates(a: Names, b: Names, c: Names)
    ensures Both(Both(a, b), c) == Both(a, Both(b, c))
    ensures Both(a, NONE) == a
  {
  }

  lemma {:induction false} AddsRecord(w: World, evs: seq<Event>, replay: bool)
    ensures Recorded(AddAll(w, evs, replay).0.batch) == Both(Recorded(w.batch), AddsWrite(w, evs, replay))
    decreases |evs|
  {
    BothAssociates(Recorded(w.batch), NONE, NONE);
    if evs != [] {
      var init, ev := evs[..|evs| - 1], evs[|evs| - 1];
      AddsRecord(w, init, replay);
      AddRecords(AddAll(w, init, replay).0, ev, replay);
      BothAssociates(Recorded(w.batch), AddsWrite(w, init, replay),
        AddWrites(AddAll(w, init, replay).0.cal, ev, replay));
    }
  }

  lemma {:induction false} ChangesRecord(w: World, evs: seq<Event>)
    ensures Recorded(ChangeAll(w, evs).0.batch) == Both(Recorded(w.batch), ChangesWrite(w, evs))
    decreases |evs|
  {
    BothAssociates(Recorded(w.batch), NONE, NONE);
    if evs != [] {
      var init, ev := evs[..|evs| - 1], evs[|evs| - 1];
      ChangesRecord(w, init);
      ChangeRecords(ChangeAll(w, init).0, ev);
      BothAssociates(Recorded(w.batch), ChangesWrite(w, init), ChangeWrites(ChangeAll(w, init).0.cal, ev));
    }
  }

  lemma {:induction false} DeletesRecord(w: World, ids: seq<string>)
    ensures Recorded(DeleteAll(w, ids).0.batch) == Both(Recorded(w.batch), DeletesWrite(w, ids))
    decreases |ids|
  {
    BothAssociates(Recorded(w.batch), NONE, NONE);
    if ids != [] {
      var init, id := ids[..|ids| - 1], ids[|ids| - 1];
      DeletesRecord(w, init);
      DeleteRecords(DeleteAll(w, init).0, id);
      BothAssociates(Recorded(w.batch), DeletesWrite(w, init), DeleteWrites(DeleteAll(w, init).0.cal, id));
    }
  }

  lemma {:induction false} PageRecords(w: World, page: Page)
    ensures Recorded(ApplyPage(w, page).0.batch) == Both(Recorded(w.batch), PageWrites(w, page))
  {
    var replay := IsDuplicateReplay(page, w.cal);
    var w0 := if replay then PruneAliases(w, page.added) else w;
    var w1 := AddAll(w0, page.added, replay).0;
    var w2 := ChangeAll(w1, page.changed).0;
    var pruned := Names({}, if replay then Pruned(w.cal, page.added) else {});
    assert Recorded(w0.batch) == Both(Recorded(w.batch), pruned) by {
      if replay { DropAliasesRecords(w, Pruned(w.cal, page.added)); } else { BothNone(Recorded(w.batch)); }
    }
    AddsRecord(w0, page.added, replay);
    ChangesRecord(w1, page.changed);
    DeletesRecord(w2, page.deleted);
    FourParts(Recorded(w.batch), pruned, AddsWrite(w0, page.added, replay), ChangesWrite(w1, page.changed),
      DeletesWrite(w2, page.deleted));
  }

  lemma {:induction false} BothNone(a: Names)
    ensures Both(a, NONE) == a
  {
  }

  lemma {:induction false} FourParts(r: Names, a: Names, b: Names, c: Names, d: Names)
    ensures Both(Both(Both(Both(r, a), b), c), d) == Both(r, Both(a, Both(b, Both(c, d))))
  {
    BothAssociates(Both(Both(r, a), b), c, d);
    BothAssociates(Both(r, a), b, Both(c, d));
    BothAssociates(r, a, Both(b, Both(c, d)));
  }

  lemma {:induction false} PagesRecord(w: World, pages: seq<Page>)
    ensures Recorded(AfterPages(w, pages).batch) == Both(Recorded(w.batch), PagesWrite(w, pages))
    decreases |pages|
  {
    BothAssociates(Recorded(w.batch), NONE, NONE);
    if pages != [] {
      var w1 := ApplyPage(w, pages[0]).0;
      PageRecords(w, pages[0]);
      PagesRecord(w1, pages[1..]);
      BothAssociates(Recorded(w.batch), PageWrites(w, pages[0]), PagesWrite(w1, pages[1..]));
    }
  }

  lemma {:induction false} PagesKeepAgreement(disk: Cal, w: World, pages: seq<Page>)
    requires Agrees(disk, w.batch, w.cal) && Separated(w.cal)
    ensures var w' := AfterPages(w, pages); Agrees(disk, w'.batch, w'.cal) && Separated(w'.cal)
    decreases |pages|
  {
    if pages != [] {
      PageKeepsAgreement(disk, w, pages[0]);
      PageKeepsSeparated(w, pages[0]);
      PagesKeepAgreement(disk, ApplyPage(w, pages[0]).0, pages[1..]);
    }
  }

  // ---------- where files and memory differ ----------

  ghost function DifferAt<T>(m: map<string, T>, n: map<string, T>): set<string> {
    set id | id in m.Keys + n.Keys && !SameEntry(m, n, id)
  }

  /** The identifiers a restart would get wrong. */
  ghost function Stale(disk: Cal, mem: Cal): Names {
    Names(DifferAt(disk.events, mem.events), DifferAt(disk.aliases, mem.aliases))
  }

  /** What replaying the record of these writes sets right: besides what was written, a new
      alias removes an event of its name, and a new event an alias. */
  function Rewritten(written: Names, mem: Cal): Names {
    Names(written.events + (written.aliases * mem.aliases.Keys), written.aliases + (written.events * mem.events.Keys))
  }

  lemma {:induction false} NothingStale(disk: Cal, mem: Cal)
    ensures Stale(disk, mem) == NONE <==> disk == mem
  {
    if Stale(disk, mem) == NONE {
      forall id ensures SameEntry(disk.events, mem.events, id) { assert id !in DifferAt(disk.events, mem.events); }
      forall id ensures SameEntry(disk.aliases, mem.aliases, id) { assert id !in DifferAt(disk.aliases, mem.aliases); }
      SameEntriesEqual(disk.events, mem.events);
      SameEntriesEqual(disk.aliases, mem.aliases);
    }
  }

  /** One coordinate of replay, with what it removes besides its own deletes. */
  lemma {:induction false} ReplayedCoordinate<T>(disk: map<string, T>, was: map<string, T>, mem: map<string, T>,
                                                 del: set<string>, ups: map<string, T>, other: set<string>)
    requires mem == (was - del) + ups && ups.Keys !! del && other !! mem.Keys
    ensures DifferAt(((disk - del) + ups) - other, mem) == DifferAt(disk, was) - (ups.Keys + del) - other
  {
    var d := ((disk - del) + ups) - other;
    forall id ensures id in DifferAt(d, mem) <==> id in DifferAt(disk, was) - (ups.Keys + del) - other {
      if id in ups || id in del || id in other {
        assert SameEntry(d, mem, id);
      } else {
        assert SameEntry(d, disk, id) && SameEntry(mem, was, id);
      }
    }
  }

  /** What the batch names is as memory has it. */
  lemma {:induction false} BatchIsCurrent(was: Cal, b: Batch, mem: Cal)
    requires Agrees(was, b, mem) && Separated(mem)
    ensures b.aliasUpserts.Keys <= mem.aliases.Keys && b.upserts.Keys <= mem.events.Keys
    ensures b.aliasUpserts.Keys !! mem.events.Keys && b.upserts.Keys !! mem.aliases.Keys
    ensures Rewritten(Recorded(b), mem) ==
            Names((b.upserts.Keys + b.deletes) + b.aliasUpserts.Keys,
              (b.aliasUpserts.Keys + b.aliasDeletes) + b.upserts.Keys)
  {
    assert b.deletes !! mem.events.Keys && b.aliasDeletes !! mem.aliases.Keys;
    assert Recorded(b).aliases * mem.aliases.Keys == b.aliasUpserts.Keys;
    assert Recorded(b).events * mem.events.Keys == b.upserts.Keys;
  }

  lemma {:induction false} RemovalsCommute<T>(m: map<string, T>, del: set<string>, other: set<string>,
          ups: map<string, T>)
    requires other !! ups.Keys
    ensures ((m - del) - other) + ups == ((m - del) + ups) - other
  {
  }

  /** Saving a batch over files that do not agree with memory sets right exactly what the
      batch rewrites. */
  lemma {:induction false} SavingSetsRight(disk: Cal, was: Cal, b: Batch, mem: Cal)
    requires Agrees(was, b, mem) && Separated(mem)
    ensures Stale(ApplyBatch(disk, b), mem) == Without(Stale(disk, was), Rewritten(Recorded(b), mem))
  {
    var aliased, shown := b.aliasUpserts.Keys, b.upserts.Keys;
    BatchIsCurrent(was, b, mem);
    ReplayedCoordinate(disk.events, was.events, mem.events, b.deletes, b.upserts, aliased);
    ReplayedCoordinate(disk.aliases, was.aliases, mem.aliases, b.aliasDeletes, b.aliasUpserts, shown);
    RemovalsCommute(disk.aliases, b.aliasDeletes, shown, b.aliasUpserts);
  }

  // ---------- the rest of the round ----------

  /** Pages pulled one after the other, without a save. */
  ghost function Pull(s: State, pages: seq<Page>): State { s.(world := AfterPages(s.world, pages)) }

  ghost function PageSteps(pages: seq<Page>): seq<Step> {
    seq(|pages|, i requires 0 <= i < |pages| => PageStep(pages[i]))
  }

  lemma {:induction false} PullIsPageSteps(s: State, pages: seq<Page>)
    ensures After(s, PageSteps(pages)) == Pull(s, pages)
    decreases |pages|
  {
    if pages != [] {
      PullIsPageSteps(Next(s, PageStep(pages[0])), pages[1..]);
      assert PageSteps(pages)[1..] == PageSteps(pages[1..]);
    }
  }

  /** The pages pulled again, up to each save. */
  ghost function PullAndSave(s: State, rounds: seq<seq<Page>>): State
    decreases |rounds|
  {
    if rounds == [] then s else PullAndSave(Next(Pull(s, rounds[0]), SaveStep), rounds[1..])
  }

  /** What of `stale` none of these pages writes again. */
  ghost function Remaining(mem: Cal, rounds: seq<seq<Page>>, stale: Names): Names
    decreases |rounds|
  {
    if rounds == [] then stale
    else
      var w := World(mem, EMPTY_BATCH);
      var mem' := AfterPages(w, rounds[0]).cal;
      Remaining(mem', rounds[1..], Without(stale, Rewritten(PagesWrite(w, rounds[0]), mem')))
  }

  lemma {:induction false} OneSave(s: State, pages: seq<Page>)
    requires Separated(s.world.cal) && s.world.batch == EMPTY_BATCH
    ensures var t := Next(Pull(s, pages), SaveStep);
      && Separated(t.world.cal) && t.world == World(AfterPages(s.world, pages).cal, EMPTY_BATCH)
      && Stale(Restored(t.disk), t.world.cal) ==
         Without(Stale(Restored(s.disk), s.world.cal), Rewritten(PagesWrite(s.world, pages), t.world.cal))
  {
    var c, w := s.world.cal, AfterPages(s.world, pages);
    EmptyBatchAgrees(c, c);
    PagesKeepAgreement(c, s.world, pages);
    PagesRecord(s.world, pages);
    assert Both(Recorded(EMPTY_BATCH), PagesWrite(s.world, pages)) == PagesWrite(s.world, pages);
    AppendApplies(s.disk, w.batch);
    SavingSetsRight(Restored(s.disk), c, w.batch, w.cal);
  }

  lemma {:induction false} StaleAfterSaves(s: State, rounds: seq<seq<Page>>)
    requires Separated(s.world.cal) && s.world.batch == EMPTY_BATCH
    ensures var t := PullAndSave(s, rounds);
      Stale(Restored(t.disk), t.world.cal) == Remaining(s.world.cal, rounds, Stale(Restored(s.disk), s.world.cal))
    decreases |rounds|
  {
    if rounds != [] {
      OneSave(s, rounds[0]);
      StaleAfterSaves(Next(Pull(s, rounds[0]), SaveStep), rounds[1..]);
    }
  }

  /** A round with a reset: `before` is pulled, its record is dropped with whatever was
      pending, then `rounds` is pulled and saved.  In the end files and memory agree exactly
      when every identifier on which memory had moved away from the files by then is written
      again by one of the later pages. */
  lemma {:induction false} RetriedRoundAgreesIff(s: State, before: seq<Page>, rounds: seq<seq<Page>>)
    requires Good(s)
    ensures var s1 := After(s, PageSteps(before));
      var t := PullAndSave(Next(s1, DropPendingStep), rounds);
      Restored(t.disk) == t.world.cal <==>
        Remaining(s1.world.cal, rounds, Stale(Restored(s.disk), s1.world.cal)) == NONE
  {
    var s1 := After(s, PageSteps(before));
    PullIsPageSteps(s, before);
    PagesKeepAgreement(Restored(s.disk), s.world, before);
    var s2 := Next(s1, DropPendingStep);
    StaleAfterSaves(s2, rounds);
    var t := PullAndSave(s2, rounds);
    NothingStale(Restored(t.disk), t.world.cal);
  }

  // ---------- pages that only repeat what memory shows ----------

  /** Adds of events that are shown as they are. */
  predicate Shown(c: Cal, evs: seq<Event>) {
    forall ev :: ev in evs ==> ev.serverID in c.events && c.events[ev.serverID] == ev
  }

  lemma {:induction false} ShownWritesNothing(w: World, evs: seq<Event>, replay: bool)
    requires Shown(w.cal, evs)
    ensures AddsWrite(w, evs, replay) == NONE && AddAll(w, evs, replay).0 == w
    decreases |evs|
  {
    if evs != [] {
      var init, ev := evs[..|evs| - 1], evs[|evs| - 1];
      forall e | e in init ensures e in evs {}
      ShownWritesNothing(w, init, replay);
      assert ev in evs;
    }
  }

  /** Pages of nothing but such Adds. */
  ghost predicate OnlyShown(c: Cal, pages: seq<Page>) {
    forall p :: p in pages ==> p.changed == [] && p.deleted == [] && Shown(c, p.added)
  }

  ghost function PagePrunes(c: Cal, page: Page): set<string> {
    if IsDuplicateReplay(page, c) then Pruned(c, page.added) else {}
  }

  function Pruning(c: Cal, ids: set<string>): Cal { c.(aliases := c.aliases - ids) }

  /** The aliases that one page after the other prunes. */
  ghost function Prunes(c: Cal, pages: seq<Page>): set<string>
    decreases |pages|
  {
    if pages == [] then {}
    else
      var now := PagePrunes(c, pages[0]);
      now + Prunes(Pruning(c, now), pages[1..])
  }

  ghost function RoundsPrune(c: Cal, rounds: seq<seq<Page>>): set<string>
    decreases |rounds|
  {
    if rounds == [] then {}
    else
      var now := Prunes(c, rounds[0]);
      now + RoundsPrune(Pruning(c, now), rounds[1..])
  }

  lemma {:induction false} ShownPage(w: World, page: Page)
    requires page.changed == [] && page.deleted == [] && Shown(w.cal, page.added)
    ensures PageWrites(w, page) == Names({}, PagePrunes(w.cal, page))
    ensures ApplyPage(w, page).0.cal == Pruning(w.cal, PagePrunes(w.cal, page))
  {
    var replay := IsDuplicateReplay(page, w.cal);
    var w0 := if replay then PruneAliases(w, page.added) else w;
    ShownWritesNothing(w0, page.added, replay);
    assert Both(NONE, Both(NONE, NONE)) == NONE;
    BothNone(Names({}, PagePrunes(w.cal, page)));
    assert w.cal.aliases - {} == w.cal.aliases;
  }

  lemma {:induction false} RestShown(c: Cal, ids: set<string>, pages: seq<Page>)
    requires pages != [] && OnlyShown(c, pages)
    ensures OnlyShown(Pruning(c, ids), pages[1..])
  {
    forall p | p in pages[1..] ensures p.changed == [] && p.deleted == [] && Shown(Pruning(c, ids), p.added) {
      assert p in pages && Shown(c, p.added);
    }
  }

  lemma {:induction false} PruningTwice(c: Cal, a: set<string>, b: set<string>)
    ensures Pruning(Pruning(c, a), b) == Pruning(c, a + b)
    ensures Both(Names({}, a), Names({}, b)) == Names({}, a + b)
  {
    assert (c.aliases - a) - b == c.aliases - (a + b);
  }

  lemma {:induction false} ShownPages(w: World, pages: seq<Page>)
    requires OnlyShown(w.cal, pages)
    ensures PagesWrite(w, pages) == Names({}, Prunes(w.cal, pages))
    ensures AfterPages(w, pages).cal == Pruning(w.cal, Prunes(w.cal, pages))
    decreases |pages|
  {
    if pages == [] {
      assert w.cal.aliases - {} == w.cal.aliases;
    } else {
      var now, w1 := PagePrunes(w.cal, pages[0]), ApplyPage(w, pages[0]).0;
      ShownPage(w, pages[0]);
      RestShown(w.cal, now, pages);
      ShownPages(w1, pages[1..]);
      PruningTwice(w.cal, now, Prunes(Pruning(w.cal, now), pages[1..]));
    }
  }

  lemma {:induction false} StillShown(c: Cal, ids: set<string>, rounds: seq<seq<Page>>)
    requires rounds != [] && forall pages :: pages in rounds ==> OnlyShown(c, pages)
    ensures OnlyShown(c, rounds[0])
    ensures forall pages :: pages in rounds[1..] ==> OnlyShown(Pruning(c, ids), pages)
  {
    assert rounds[0] in rounds;
    forall pages | pages in rounds[1..] ensures OnlyShown(Pruning(c, ids), pages) {
      assert pages in rounds && OnlyShown(c, pages);
      forall p | p in pages ensures Shown(Pruning(c, ids), p.added) { assert Shown(c, p.added); }
    }
  }

  lemma {:induction false} PruningRewrites(c: Cal, ids: set<string>, stale: Names)
    ensures Without(stale, Rewritten(Names({}, ids), Pruning(c, ids))) == Names(stale.events, stale.aliases - ids)
  {
    assert ids * (c.aliases - ids).Keys == {};
    assert {} * c.events.Keys == {};
  }

  /** Such pages write no event, and no alias but those they prune. */
  lemma {:induction false} ShownRemaining(mem: Cal, rounds: seq<seq<Page>>, stale: Names)
    requires forall pages :: pages in rounds ==> OnlyShown(mem, pages)
    ensures Remaining(mem, rounds, stale) == Names(stale.events, stale.aliases - RoundsPrune(mem, rounds))
    decreases |rounds|
  {
    if rounds == [] {
      assert stale.aliases - {} == stale.aliases;
    } else {
      var now := Prunes(mem, rounds[0]);
      var left := Names(stale.events, stale.aliases - now);
      StillShown(mem, now, rounds);
      ShownPages(World(mem, EMPTY_BATCH), rounds[0]);
      PruningRewrites(mem, now, stale);
      ShownRemaining(Pruning(mem, now), rounds[1..], left);
      MinusBoth(stale.aliases, now, RoundsPrune(Pruning(mem, now), rounds[1..]));
    }
  }

  lemma {:induction false} MinusBoth(s: set<string>, a: set<string>, b: set<string>)
    ensures (s - a) - b == s - (a + b)
  {
  }

  lemma {:induction false} NothingRemains(was: Cal, c: Cal, rounds: seq<seq<Page>>)
    requires forall pages :: pages in rounds ==> OnlyShown(c, pages)
    ensures Remaining(c, rounds, Stale(was, c)) == NONE <==>
            c.events == was.events && DifferAt(was.aliases, c.aliases) <= RoundsPrune(c, rounds)
  {
    ShownRemaining(c, rounds, Stale(was, c));
    NoDifference(was.events, c.events);
  }

  /** A re-pull that brings back what memory already shows, in any number of pages and saves,
      judged replays or not: the round ends in agreement exactly if the events in memory are
      those of the files and each alias on which they differ is pruned by one of the pages. */
  lemma {:induction false} RepeatsRepairNothing(s: State, before: seq<Page>, rounds: seq<seq<Page>>)
    requires Good(s)
    requires var c := After(s, PageSteps(before)).world.cal; forall pages :: pages in rounds ==> OnlyShown(c, pages)
    ensures var s1, was := After(s, PageSteps(before)), Restored(s.disk);
      var t := PullAndSave(Next(s1, DropPendingStep), rounds);
      && t.world.cal == Pruning(s1.world.cal, RoundsPrune(s1.world.cal, rounds))
      && (Restored(t.disk) == t.world.cal <==>
            s1.world.cal.events == was.events
            && DifferAt(was.aliases, s1.world.cal.aliases) <= RoundsPrune(s1.world.cal, rounds))
  {
    var s1 := After(s, PageSteps(before));
    RetriedRoundAgreesIff(s, before, rounds);
    NothingRemains(Restored(s.disk), s1.world.cal, rounds);
    PulledShown(Next(s1, DropPendingStep), rounds);
  }

  lemma {:induction false} NoDifference<T>(m: map<string, T>, n: map<string, T>)
    ensures DifferAt(m, n) == {} <==> m == n
  {
    if DifferAt(m, n) == {} {
      forall id ensures SameEntry(m, n, id) { assert id !in DifferAt(m, n); }
      SameEntriesEqual(m, n);
    }
  }

  lemma {:induction false} PulledShown(s: State, rounds: seq<seq<Page>>)
    requires s.world.batch == EMPTY_BATCH && forall pages :: pages in rounds ==> OnlyShown(s.world.cal, pages)
    ensures PullAndSave(s, rounds).world.cal == Pruning(s.world.cal, RoundsPrune(s.world.cal, rounds))
    decreases |rounds|
  {
    var c := s.world.cal;
    if rounds == [] {
      assert c.aliases - {} == c.aliases;
    } else {
      var now := Prunes(c, rounds[0]);
      StillShown(c, now, rounds);
      ShownPages(s.world, rounds[0]);
      PulledShown(Next(Pull(s, rounds[0]), SaveStep), rounds[1..]);
      PruningTwice(c, now, RoundsPrune(Pruning(c, now), rounds[1..]));
    }
  }

  /** The smallest case: one new event, pulled, dropped at the reset and pulled again, is in
      memory but in no file. */
  lemma {:induction false} RetryForgetsEvent(s: State, ev: Event, more: bool)
    requires Good(s) && s.world.batch == EMPTY_BATCH && ev.serverID != ""
    requires ev.serverID !in s.world.cal.events && ev.serverID !in s.world.cal.aliases
    requires FoldTarget(s.world.cal.events, ev, false).None?
    ensures var pull := PageStep(Page([ev], [], [], more));
      var t := Next(Next(Next(Next(s, pull), DropPendingStep), pull), SaveStep);
      && ev.serverID in t.world.cal.events && t.world.cal.events[ev.serverID] == ev
      && t.disk == s.disk && ev.serverID !in Restored(t.disk).events
  {
    var page := Page([ev], [], [], more);
    EmptyBatchAgrees(Restored(s.disk), s.world.cal);
    OneAdd(s.world, ev, more);
    var s1 := Next(s, PageStep(page));
    OneAdd(World(s1.world.cal, EMPTY_BATCH), ev, more);
  }

  lemma {:induction false} OneAdd(w: World, ev: Event, more: bool)
    ensures ApplyPage(w, Page([ev], [], [], more)).0 == AddEvent(w, ev, false).0
  {
    assert [ev][..0] == [];
    assert AddAll(w, [], false).0 == w;
  }
}
