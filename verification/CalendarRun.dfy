/** Whole runs of the calendar store: pages, saves, local writes, compaction,
    crashes and reloads, over a snapshot file and an append-only log. */
module CalendarRun {
  import opened Ids
  import opened Calendar
  import opened CalendarLaws
  import opened EventLog

  datatype Disk = Disk(snapshot: Cal, log: seq<Entry>)

  datatype State = State(world: World, disk: Disk)

  datatype Step =
    | PageStep(page: Page)
    | SaveStep                      // append the pending batch, start a new one
    | DropPendingStep               // Status 5 retry, error return or failed append
    | DedupeStep                    // repair at the start of a round, logged at once
    | UnwrittenRepairStep           // the same, when its line could not be appended
    | StartupRepairStep(truncated: bool)  // repair at startup: a snapshot, and the log emptied after it
    | LocalUpsertStep(ev: Event)    // CalDAV write, logged as a batch of its own
    | LocalDeleteStep(id: string)
    | UnloggedUpsertStep(ev: Event) // the same, when the line could not be appended
    | UnloggedDeleteStep(id: string)
    | SnapshotStep                  // compaction that did not get to truncate the log
    | CompactStep
    | ReloadStep                    // crash and restart

  /** What a restart finds before normalize. */
  function Restored(d: Disk): Cal { Replay(d.snapshot, d.log) }

  /** appendEventLogLocked: the batch as one line, its lists in ascending order. */
  ghost function Written(b: Batch): Record {
    Record(EventsInOrder(b.upserts), Listing(b.deletes), AliasesInOrder(b.aliasUpserts), Listing(b.aliasDeletes))
  }

  ghost function EventsInOrder(m: map<string, Event>): seq<Event> {
    var ids := Listing(m.Keys);
    seq(|ids|, i requires 0 <= i < |ids| => assert ids[i] in ids; m[ids[i]])
  }

  ghost function AliasesInOrder(m: map<string, Alias>): seq<(string, Alias)> {
    var ids := Listing(m.Keys);
    seq(|ids|, i requires 0 <= i < |ids| => assert ids[i] in ids; (ids[i], m[ids[i]]))
  }

  ghost function Append(d: Disk, b: Batch): Disk {
    if b == EMPTY_BATCH then d else d.(log := d.log + [BatchEntry(Written(b))])
  }

  ghost predicate Enabled(s: State, step: Step) {
    match step
    case DedupeStep => s.world.batch == EMPTY_BATCH
    case UnwrittenRepairStep => s.world.batch == EMPTY_BATCH
    case StartupRepairStep(_) => s.world.batch == EMPTY_BATCH
    case LocalUpsertStep(ev) => ev.serverID != ""
    case UnloggedUpsertStep(ev) => ev.serverID != ""
    case _ => true
  }

  ghost function Next(s: State, step: Step): State {
    var cal, fresh_ := s.world.cal, World(s.world.cal, EMPTY_BATCH);
    match step
    case PageStep(page) => s.(world := ApplyPage(s.world, page).0)
    case SaveStep => State(fresh_, Append(s.disk, s.world.batch))
    case DropPendingStep => s.(world := fresh_)
    case DedupeStep => State(World(Dedupe(fresh_).cal, EMPTY_BATCH), Append(s.disk, Dedupe(fresh_).batch))
    case UnwrittenRepairStep => s.(world := World(Dedupe(fresh_).cal, EMPTY_BATCH))
    case StartupRepairStep(truncated) =>
      State(World(Dedupe(fresh_).cal, EMPTY_BATCH),
            if Folded(cal.events) == {} then s.disk
            else Disk(Dedupe(fresh_).cal, if truncated then [] else s.disk.log))
    case LocalUpsertStep(ev) =>
      State(World(LocalUpsert(fresh_, ev).cal, s.world.batch), Append(s.disk, LocalUpsert(fresh_, ev).batch))
    case LocalDeleteStep(id) =>
      State(World(LocalDelete(fresh_, id).cal, s.world.batch), Append(s.disk, LocalDelete(fresh_, id).batch))
    case UnloggedUpsertStep(ev) => s.(world := World(LocalUpsert(fresh_, ev).cal, s.world.batch))
    case UnloggedDeleteStep(id) => s.(world := World(LocalDelete(fresh_, id).cal, s.world.batch))
    case SnapshotStep => s.(disk := Disk(cal, s.disk.log))
    case CompactStep => s.(disk := Disk(cal, []))
    case ReloadStep => s.(world := World(Normalize(Restored(s.disk)), EMPTY_BATCH))
  }

  /** The log names no empty identifier. */
  ghost predicate Named(edits: seq<Edit>) {
    forall e :: e in edits ==> (e.SetEvent? ==> e.ev.serverID != "") && (e.SetAlias? ==> e.id != "")
  }

  ghost predicate Loggable(log: seq<Entry>) { forall e :: e in log ==> Named(EntryEdits(e)) }

  /** Disk and pending batch together reproduce memory. */
  ghost predicate Good(s: State) {
    && Separated(s.world.cal) && Separated(s.disk.snapshot) && Loggable(s.disk.log)
    && Agrees(Restored(s.disk), s.world.batch, s.world.cal)
  }

  /** The pending batch changes nothing on top of the disk. */
  ghost predicate Redundant(disk: Cal, b: Batch) {
    && b.deletes !! disk.events.Keys && b.aliasDeletes !! disk.aliases.Keys
    && (forall id :: id in b.upserts ==> id in disk.events && disk.events[id] == b.upserts[id])
    && (forall a :: a in b.aliasUpserts ==> a in disk.aliases && disk.aliases[a] == b.aliasUpserts[a])
  }

  /** The log says something about one of these identifiers. */
  ghost predicate Mentions(log: seq<Entry>, ids: set<string>) {
    var p := LogPatch(log);
    !(ids !! p.events.Keys && ids !! p.aliases.Keys)
  }

  ghost predicate InOrder(c: Cal) {
    forall a :: a in c.aliases ==> SoundAlias(c, a) && Marked(c, a) == c.aliases[a]
  }

  /** When a step keeps log and memory in agreement. */
  ghost predicate Harmless(s: State, step: Step) {
    var b := s.world.batch;
    match step
    case DropPendingStep => Redundant(Restored(s.disk), b)
    case UnwrittenRepairStep => Folded(s.world.cal.events) == {}
    case StartupRepairStep(truncated) => truncated || !Mentions(s.disk.log, Folded(s.world.cal.events))
    case LocalUpsertStep(ev) =>
      && ev.serverID !in b.deletes && ev.serverID !in b.aliasUpserts
      && (ev.serverID in b.upserts ==> b.upserts[ev.serverID] == ev)
    case LocalDeleteStep(id) =>
      id !in b.upserts && Dependents(s.world.cal, id) !! b.aliasUpserts.Keys
    case UnloggedUpsertStep(ev) => ev.serverID in s.world.cal.events && s.world.cal.events[ev.serverID] == ev
    case UnloggedDeleteStep(id) => id !in s.world.cal.events && Dependents(s.world.cal, id) == {}
    case ReloadStep => InOrder(Restored(s.disk))
    case _ => true
  }

  // ---------- the written line ----------

  lemma {:induction false} WrittenSerializes(b: Batch)
    requires WellKeyed(b)
    ensures Serializes(Written(b), b)
  {
    var r, evs, als := Written(b), Listing(b.upserts.Keys), Listing(b.aliasUpserts.Keys);
    forall ev ensures ev in r.upserts <==> ev.serverID in b.upserts && b.upserts[ev.serverID] == ev {
      if ev.serverID in b.upserts && b.upserts[ev.serverID] == ev {
        assert ev.serverID in evs;
        var i :| 0 <= i < |evs| && evs[i] == ev.serverID;
        assert r.upserts[i] == ev;
      }
      if ev in r.upserts {
        var i :| 0 <= i < |evs| && r.upserts[i] == ev;
        assert evs[i] in evs;
      }
    }
    forall e ensures e in r.aliases <==> e.0 in b.aliasUpserts && b.aliasUpserts[e.0] == e.1 {
      if e.0 in b.aliasUpserts && b.aliasUpserts[e.0] == e.1 {
        assert e.0 in als;
        var i :| 0 <= i < |als| && als[i] == e.0;
        assert r.aliases[i] == e;
      }
      if e in r.aliases {
        var i :| 0 <= i < |als| && r.aliases[i] == e;
        assert als[i] in als;
      }
    }
  }

  /** Appending a batch makes a restart see it applied, all or nothing. */
  lemma {:induction false} AppendApplies(d: Disk, b: Batch)
    requires WellKeyed(b)
    ensures Restored(Append(d, b)) == ApplyBatch(Restored(d), b)
  {
    if b == EMPTY_BATCH {
      var c := Restored(d);
      assert ApplyBatch(c, b).events == c.events && ApplyBatch(c, b).aliases == c.aliases;
    } else {
      var log := d.log + [BatchEntry(Written(b))];
      assert log[..|log| - 1] == d.log;
      WrittenSerializes(b);
      RecordReplays(Restored(d), Written(b), b);
    }
  }

  lemma {:induction false} EditsIn(r: Record, e: Edit)
    requires e in RecordEdits(r)
    ensures e.SetEvent? ==> e.ev in r.upserts
    ensures e.SetAlias? ==> (e.id, e.alias) in r.aliases
  {
    if e in UpsertEdits(r.upserts) { UpsertEditsIn(r.upserts, e); }
    else if e in AliasEdits(r.aliases) { AliasEditsIn(r.aliases, e); }
    else { DeleteEditsIn(r.deletes, e); DeleteEditsIn(r.deleteAliases, e); }
  }

  lemma {:induction false} UpsertEditsIn(evs: seq<Event>, e: Edit)
    requires e in UpsertEdits(evs)
    ensures e.SetEvent? && e.ev in evs
  {
    if e in UpsertEdits(evs[..|evs| - 1]) { UpsertEditsIn(evs[..|evs| - 1], e); }
  }

  lemma {:induction false} AliasEditsIn(ps: seq<(string, Alias)>, e: Edit)
    requires e in AliasEdits(ps)
    ensures e.SetAlias? && (e.id, e.alias) in ps
  {
    if e in AliasEdits(ps[..|ps| - 1]) { AliasEditsIn(ps[..|ps| - 1], e); }
  }

  lemma {:induction false} DeleteEditsIn(ids: seq<string>, e: Edit)
    ensures e in DeleteEdits(ids) ==> e.DelEvent?
    ensures e in DeleteAliasEdits(ids) ==> e.DelAlias?
  {
    if ids != [] { DeleteEditsIn(ids[..|ids| - 1], e); }
  }

  lemma {:induction false} AppendStaysLoggable(d: Disk, b: Batch)
    requires Loggable(d.log) && WellKeyed(b) && "" !in b.upserts && "" !in b.aliasUpserts
    ensures Loggable(Append(d, b).log) && Append(d, b).snapshot == d.snapshot
  {
    WrittenSerializes(b);
    forall e | e in RecordEdits(Written(b))
      ensures (e.SetEvent? ==> e.ev.serverID != "") && (e.SetAlias? ==> e.id != "")
    {
      EditsIn(Written(b), e);
      if e.SetAlias? { assert (e.id, e.alias).0 in b.aliasUpserts; }
    }
  }

  lemma {:induction false} EditsKeepSeparated(c: Cal, edits: seq<Edit>)
    requires Separated(c) && Named(edits)
    ensures Separated(ApplyEdits(c, edits))
    decreases |edits|
  {
    if edits != [] {
      EditsKeepSeparated(c, edits[..|edits| - 1]);
      assert edits[|edits| - 1] in edits;
    }
  }

  lemma {:induction false} ReplayKeepsSeparated(c: Cal, log: seq<Entry>)
    requires Separated(c) && Loggable(log)
    ensures Separated(Replay(c, log))
    decreases |log|
  {
    if log != [] {
      ReplayKeepsSeparated(c, log[..|log| - 1]);
      assert log[|log| - 1] in log;
      EditsKeepSeparated(Replay(c, log[..|log| - 1]), EntryEdits(log[|log| - 1]));
    }
  }

  // ---------- the steps ----------

  lemma {:induction false} ListsKeepSeparated(w: World, evs: seq<Event>, ids: seq<string>, replay: bool)
    requires Separated(w.cal)
    ensures Separated(AddAll(w, evs, replay).0.cal) && Separated(ChangeAll(w, evs).0.cal)
    ensures Separated(DeleteAll(w, ids).0.cal)
    decreases |evs| + |ids|
  {
    if evs != [] {
      var init, ev := evs[..|evs| - 1], evs[|evs| - 1];
      ListsKeepSeparated(w, init, ids, replay);
      AddKeepsSound(AddAll(w, init, replay).0, ev, replay);
      ChangeKeepsSound(ChangeAll(w, init).0, ev);
    }
    if ids != [] {
      var init, id := ids[..|ids| - 1], ids[|ids| - 1];
      ListsKeepSeparated(w, [], init, replay);
      DeleteKeepsSound(DeleteAll(w, init).0, id);
    }
  }

  lemma {:induction false} PageKeepsSeparated(w: World, page: Page)
    requires Separated(w.cal)
    ensures Separated(ApplyPage(w, page).0.cal)
  {
    var replay := IsDuplicateReplay(page, w.cal);
    var w0 := if replay then PruneAliases(w, page.added) else w;
    PruneKeepsSound(w, page.added);
    ListsKeepSeparated(w0, page.added, [], replay);
    var w1 := AddAll(w0, page.added, replay).0;
    ListsKeepSeparated(w1, page.changed, [], false);
    ListsKeepSeparated(ChangeAll(w1, page.changed).0, [], page.deleted, false);
  }

  lemma {:induction false} EmptyBatchAgrees(c: Cal, d: Cal)
    ensures Effect(c, EMPTY_BATCH) == c
    ensures Agrees(c, EMPTY_BATCH, d) <==> c == d
  {
    assert Effect(c, EMPTY_BATCH).events == c.events && Effect(c, EMPTY_BATCH).aliases == c.aliases;
  }

  /** Saving makes a restart see exactly the memory at the save. */
  lemma {:induction false} SaveIsDurable(s: State)
    requires Good(s)
    ensures Restored(Next(s, SaveStep).disk) == s.world.cal && Good(Next(s, SaveStep))
  {
    var b, cal := s.world.batch, s.world.cal;
    AppendApplies(s.disk, b);
    AgreementReplays(Restored(s.disk), b, cal);
    assert forall id :: id in b.upserts ==> id in cal.events;
    assert forall a :: a in b.aliasUpserts ==> a in cal.aliases;
    AppendStaysLoggable(s.disk, b);
    EmptyBatchAgrees(cal, cal);
  }

  lemma {:induction false} OverlaidAgain<T>(m: map<string, T>, p: map<string, Option<T>>, del: set<string>,
          ups: map<string, T>)
    ensures var c := (Overlay(m, p) - del) + ups; (Overlay(c, p) - del) + ups == c && (c - del) + ups == c
  {
    var c := (Overlay(m, p) - del) + ups;
    assert (Overlay(c, p) - del) + ups == c;
    assert (c - del) + ups == c;
  }

  /** Compaction, finished or cut short after the snapshot, loses nothing, even with
      changes pending: the old log over the new snapshot restores what the pending
      batch needs. */
  lemma {:induction false} CompactionAgrees(s: State)
    requires Good(s)
    ensures Good(Next(s, SnapshotStep)) && Good(Next(s, CompactStep))
    ensures s.world.batch == EMPTY_BATCH ==>
              Restored(Next(s, SnapshotStep).disk) == s.world.cal && Restored(Next(s, CompactStep).disk) == s.world.cal
  {
    var b, cal, p := s.world.batch, s.world.cal, LogPatch(s.disk.log);
    ReplayPatches(s.disk.snapshot, s.disk.log);
    ReplayPatches(cal, s.disk.log);
    OverlaidAgain(s.disk.snapshot.events, p.events, b.deletes, b.upserts);
    OverlaidAgain(s.disk.snapshot.aliases, p.aliases, b.aliasDeletes, b.aliasUpserts);
    assert Agrees(Patched(cal, p), b, cal);
    assert Agrees(cal, b, cal);
    EmptyBatchAgrees(Patched(cal, p), cal);
  }

  lemma {:induction false} DroppingAgrees(s: State)
    requires Good(s)
    ensures Good(Next(s, DropPendingStep)) <==> Harmless(s, DropPendingStep)
  {
    var disk, b, cal := Restored(s.disk), s.world.batch, s.world.cal;
    EmptyBatchAgrees(disk, cal);
    if Redundant(disk, b) {
      assert cal.events == disk.events;
      assert cal.aliases == disk.aliases;
    }
    if disk == cal {
      assert forall id :: id in b.upserts ==> id in cal.events && cal.events[id] == b.upserts[id];
      assert forall a :: a in b.aliasUpserts ==> a in cal.aliases && cal.aliases[a] == b.aliasUpserts[a];
      assert forall id :: id in b.deletes ==> id !in cal.events;
      assert forall a :: a in b.aliasDeletes ==> a !in cal.aliases;
    }
  }

  lemma {:induction false} ReloadAgrees(s: State)
    requires Good(s)
    ensures Good(Next(s, ReloadStep)) <==> Harmless(s, ReloadStep)
  {
    var disk := Restored(s.disk);
    ReplayKeepsSeparated(s.disk.snapshot, s.disk.log);
    EmptyBatchAgrees(disk, Normalize(disk));
    if InOrder(disk) { assert Normalize(disk).aliases == disk.aliases; }
    if Normalize(disk) == disk {
      forall a | a in disk.aliases ensures SoundAlias(disk, a) && Marked(disk, a) == disk.aliases[a] {
        assert a in Normalize(disk).aliases;
      }
    }
  }

  lemma {:induction false} PageAgrees(s: State, page: Page)
    requires Good(s)
    ensures Good(Next(s, PageStep(page)))
  {
    PageKeepsSeparated(s.world, page);
    PageKeepsAgreement(Restored(s.disk), s.world, page);
  }

  lemma {:induction false} DedupeAgrees(s: State)
    requires Good(s) && Enabled(s, DedupeStep)
    ensures Good(Next(s, DedupeStep))
  {
    var disk, w := Restored(s.disk), World(s.world.cal, EMPTY_BATCH);
    EmptyBatchAgrees(disk, w.cal);
    EmptyBatchAgrees(w.cal, w.cal);
    DedupeKeepsAgreement(w.cal, w);
    var w' := Dedupe(w);
    assert Separated(w'.cal);
    AgreementReplays(w.cal, w'.batch, w'.cal);
    AppendApplies(s.disk, w'.batch);
    assert "" !in w'.batch.upserts && "" !in w'.batch.aliasUpserts;
    AppendStaysLoggable(s.disk, w'.batch);
    EmptyBatchAgrees(w'.cal, w'.cal);
  }

  lemma {:induction false} RepairedCal(c: Cal)
    requires Separated(c)
    ensures var d := Dedupe(World(c, EMPTY_BATCH)).cal;
      && d == Cal(c.events - Folded(c.events), c.aliases + FoldedAliases(c.events))
      && Separated(d) && Folded(c.events) <= c.events.Keys && (d == c <==> Folded(c.events) == {})
  {
    var d := Dedupe(World(c, EMPTY_BATCH)).cal;
    if Folded(c.events) == {} {
      assert d.events == c.events && d.aliases == c.aliases;
    } else {
      var id :| id in Folded(c.events);
      assert id in c.events && id !in d.events;
    }
  }

  lemma {:induction false} UnwrittenRepairAgrees(s: State)
    requires Good(s) && s.world.batch == EMPTY_BATCH
    ensures Good(Next(s, UnwrittenRepairStep)) <==> Harmless(s, UnwrittenRepairStep)
  {
    EmptyBatchAgrees(Restored(s.disk), s.world.cal);
    RepairedCal(s.world.cal);
    EmptyBatchAgrees(Restored(s.disk), Dedupe(World(s.world.cal, EMPTY_BATCH)).cal);
  }

  /** A map that a patch leaves alone. */
  lemma {:induction false} OverlayLeaves<T>(m: map<string, T>, p: map<string, Option<T>>)
    ensures Overlay(m, p) == m <==> forall id :: id in p ==> p[id] == if id in m then Some(m[id]) else None
  {
    if Overlay(m, p) == m {
      forall id | id in p ensures p[id] == if id in m then Some(m[id]) else None {
        assert id in Overlay(m, p) <==> p[id].Some?;
      }
    }
  }

  /** Taking away, or putting, entries that the patch does not expect changes what it leaves
      alone exactly if it names one of them. */
  lemma {:induction false} PatchAfterChange<T>(m: map<string, T>, n: map<string, T>, p: map<string, Option<T>>,
          changed: set<string>)
    requires Overlay(m, p) == m
    requires ChangedExactly(m, n, changed)
    ensures Overlay(n, p) == n <==> changed !! p.Keys
  {
    OverlayLeaves(m, p);
    OverlayLeaves(n, p);
    forall id | id in p && id !in changed ensures p[id] == if id in n then Some(n[id]) else None {
      assert id in m.Keys + n.Keys ==> SameEntry(m, n, id);
    }
    if id :| id in changed && id in p {
      assert !SameEntry(m, n, id);
      assert p[id] != if id in n then Some(n[id]) else None;
    }
  }

  lemma {:induction false} GoodOverSnapshot(d: Cal, log: seq<Entry>)
    requires Separated(d) && Loggable(log)
    ensures Good(State(World(d, EMPTY_BATCH), Disk(d, log))) <==> Replay(d, log) == d
  {
    EmptyBatchAgrees(Replay(d, log), d);
  }

  lemma {:induction false} NextIsStartupRepair(s: State, truncated: bool)
    requires Folded(s.world.cal.events) != {}
    ensures var d := Dedupe(World(s.world.cal, EMPTY_BATCH)).cal;
      Next(s, StartupRepairStep(truncated)) ==
      State(World(d, EMPTY_BATCH), Disk(d, if truncated then [] else s.disk.log))
  {
  }

  lemma {:induction false} NothingToRepair(s: State, truncated: bool)
    requires s.world.batch == EMPTY_BATCH && Separated(s.world.cal) && Folded(s.world.cal.events) == {}
    ensures Next(s, StartupRepairStep(truncated)) == s
  {
    RepairedCal(s.world.cal);
    assert s.world == World(s.world.cal, EMPTY_BATCH);
  }

  /** The repair at startup writes a snapshot and no line.  When the log behind it is emptied,
      nothing is lost; when that fails, or a crash comes first, the old log over the new
      snapshot undoes the repair exactly if it names an event that was folded. */
  lemma {:induction false} StartupRepairAgrees(s: State, truncated: bool)
    requires Good(s) && s.world.batch == EMPTY_BATCH
    ensures Good(Next(s, StartupRepairStep(truncated))) <==>
            truncated || !Mentions(s.disk.log, Folded(s.world.cal.events))
  {
    var c := s.world.cal;
    if Folded(c.events) == {} {
      NothingToRepair(s, truncated);
    } else {
      NextIsStartupRepair(s, truncated);
      RepairedCal(c);
      EmptyBatchAgrees(Restored(s.disk), c);
      OldLogOverRepair(s.disk.snapshot, s.disk.log, c);
      GoodOverSnapshot(Dedupe(World(c, EMPTY_BATCH)).cal, if truncated then [] else s.disk.log);
    }
  }

  lemma {:induction false} OldLogOverRepair(snapshot: Cal, log: seq<Entry>, c: Cal)
    requires Separated(c) && c == Replay(snapshot, log)
    ensures var d := Dedupe(World(c, EMPTY_BATCH)).cal; Replay(d, log) == d <==> !Mentions(log, Folded(c.events))
  {
    var d, folded, p := Dedupe(World(c, EMPTY_BATCH)).cal, Folded(c.events), LogPatch(log);
    RepairChanges(c);
    ReplayIsIdempotent(snapshot, log);
    ReplayPatches(c, log);
    ReplayPatches(d, log);
    PatchAfterChange(c.events, d.events, p.events, folded);
    PatchAfterChange(c.aliases, d.aliases, p.aliases, folded);
  }

  ghost predicate ChangedExactly<T>(m: map<string, T>, n: map<string, T>, ids: set<string>) {
    && (forall id :: id in m.Keys + n.Keys && id !in ids ==> SameEntry(m, n, id))
    && (forall id :: id in ids ==> !SameEntry(m, n, id))
  }

  lemma {:induction false} RepairChanges(c: Cal)
    requires Separated(c)
    ensures var d := Dedupe(World(c, EMPTY_BATCH)).cal;
      ChangedExactly(c.events, d.events, Folded(c.events)) && ChangedExactly(c.aliases, d.aliases, Folded(c.events))
  {
    RepairedCal(c);
    assert FoldedAliases(c.events).Keys == Folded(c.events) && Folded(c.events) !! c.aliases.Keys;
    RemovedExactly(c.events, Folded(c.events));
    AddedExactly(c.aliases, FoldedAliases(c.events));
  }

  lemma {:induction false} RemovedExactly<T>(m: map<string, T>, ids: set<string>)
    requires ids <= m.Keys
    ensures ChangedExactly(m, m - ids, ids)
  {
  }

  lemma {:induction false} AddedExactly<T>(m: map<string, T>, more: map<string, T>)
    requires more.Keys !! m.Keys
    ensures ChangedExactly(m, m + more, more.Keys)
  {
  }

  lemma {:induction false} PutInterleaves<T>(m: map<string, T>, del: set<string>, ups: map<string, T>, id: string, v: T)
    ensures (m[id := v] - del) + ups == ((m - del) + ups)[id := v]
      <==> (id in ups && ups[id] == v) || (id !in ups && id !in del)
  {
    var a, b := (m[id := v] - del) + ups, ((m - del) + ups)[id := v];
    if (id in ups && ups[id] == v) || (id !in ups && id !in del) {
      assert a == b;
    } else {
      assert b[id] == v;
      assert id !in a || a[id] != v;
    }
  }

  lemma {:induction false} DropInterleaves<T>(m: map<string, T>, del: set<string>, ups: map<string, T>,
          gone: set<string>)
    ensures ((m - gone) - del) + ups == ((m - del) + ups) - gone <==> gone !! ups.Keys
  {
    var a, b := ((m - gone) - del) + ups, ((m - del) + ups) - gone;
    if gone !! ups.Keys {
      assert a == b;
    } else {
      var id :| id in gone && id in ups;
      assert id in a && id !in b;
    }
  }

  lemma {:induction false} LocalUpsertBatch(cal: Cal, disk: Cal, ev: Event)
    ensures var b := LocalUpsert(World(cal, EMPTY_BATCH), ev).batch;
      WellKeyed(b) && ApplyBatch(disk, b) == Cal(disk.events[ev.serverID := ev], disk.aliases - {ev.serverID})
  {
    var u := LocalUpsert(World(cal, EMPTY_BATCH), ev).batch;
    assert u == Batch(map[ev.serverID := ev], {}, map[], {ev.serverID});
    assert ApplyBatch(disk, u).events == disk.events[ev.serverID := ev];
    assert ApplyBatch(disk, u).aliases == disk.aliases - {ev.serverID};
  }

  lemma {:induction false} LocalDeleteBatch(cal: Cal, disk: Cal, id: string)
    ensures var b := LocalDelete(World(cal, EMPTY_BATCH), id).batch;
      WellKeyed(b) && ApplyBatch(disk, b) == Cal(disk.events - {id}, disk.aliases - Dependents(cal, id))
  {
    var d := LocalDelete(World(cal, EMPTY_BATCH), id).batch;
    assert d == Batch(map[], {id}, map[], Dependents(cal, id));
    assert ApplyBatch(disk, d).events == disk.events - {id};
    assert ApplyBatch(disk, d).aliases == disk.aliases - Dependents(cal, id);
  }

  /** A local write with a batch of its own keeps agreement when its line and the
      pending batch can be replayed in either order. */
  lemma {:induction false} OwnBatchAgrees(s: State, own: World)
    requires Good(s) && Separated(own.cal) && WellKeyed(own.batch)
    requires "" !in own.batch.upserts && "" !in own.batch.aliasUpserts
    ensures Good(State(World(own.cal, s.world.batch), Append(s.disk, own.batch)))
      <==> Agrees(ApplyBatch(Restored(s.disk), own.batch), s.world.batch, own.cal)
  {
    AppendApplies(s.disk, own.batch);
    AppendStaysLoggable(s.disk, own.batch);
  }

  /** What a local write leaves in memory and in the files. */
  ghost function AfterLocalUpsert(s: State, ev: Event): State {
    var own := LocalUpsert(World(s.world.cal, EMPTY_BATCH), ev);
    State(World(own.cal, s.world.batch), Append(s.disk, own.batch))
  }

  lemma {:induction false} NextIsLocalUpsert(s: State, ev: Event)
    ensures Next(s, LocalUpsertStep(ev)) == AfterLocalUpsert(s, ev)
  {
  }

  lemma {:induction false} LocalUpsertInterleaves(s: State, ev: Event)
    requires Good(s) && ev.serverID != ""
    ensures Good(AfterLocalUpsert(s, ev)) <==> Harmless(s, LocalUpsertStep(ev))
  {
    var cal := s.world.cal;
    LocalUpsertBatch(cal, Restored(s.disk), ev);
    LocalUpsertKeepsSound(World(cal, EMPTY_BATCH), ev);
    OwnBatchAgrees(s, LocalUpsert(World(cal, EMPTY_BATCH), ev));
    PutAgrees(Restored(s.disk), s.world.batch, cal, ev);
  }

  lemma {:induction false} LocalUpsertAgrees(s: State, ev: Event)
    requires Good(s) && ev.serverID != ""
    ensures Good(Next(s, LocalUpsertStep(ev))) <==> Harmless(s, LocalUpsertStep(ev))
  {
    NextIsLocalUpsert(s, ev);
    LocalUpsertInterleaves(s, ev);
  }

  lemma {:induction false} PutAgrees(disk: Cal, b: Batch, cal: Cal, ev: Event)
    requires Agrees(disk, b, cal)
    ensures var id := ev.serverID;
      Agrees(Cal(disk.events[id := ev], disk.aliases - {id}), b, Cal(cal.events[id := ev], cal.aliases - {id}))
      <==> id !in b.deletes && id !in b.aliasUpserts && (id in b.upserts ==> b.upserts[id] == ev)
  {
    PutInterleaves(disk.events, b.deletes, b.upserts, ev.serverID, ev);
    DropInterleaves(disk.aliases, b.aliasDeletes, b.aliasUpserts, {ev.serverID});
  }

  /** A change of memory that reached no file is harmless only if it is none. */
  lemma {:induction false} MemoryOnly(s: State, d: Cal)
    requires Good(s) && Separated(d)
    ensures Good(s.(world := World(d, s.world.batch))) <==> d == s.world.cal
  {
  }

  lemma {:induction false} UnloggedUpsertAgrees(s: State, ev: Event)
    requires Good(s) && ev.serverID != ""
    ensures Good(Next(s, UnloggedUpsertStep(ev))) <==> Harmless(s, UnloggedUpsertStep(ev))
  {
    var c := s.world.cal;
    LocalUpsertKeepsSound(World(c, EMPTY_BATCH), ev);
    MemoryOnly(s, LocalUpsert(World(c, EMPTY_BATCH), ev).cal);
    UpsertOfSame(c, ev);
  }

  lemma {:induction false} UpsertOfSame(c: Cal, ev: Event)
    requires Separated(c)
    ensures LocalUpsert(World(c, EMPTY_BATCH), ev).cal == c <==> ev.serverID in c.events && c.events[ev.serverID] == ev
  {
    var d := LocalUpsert(World(c, EMPTY_BATCH), ev).cal;
    assert d == Cal(c.events[ev.serverID := ev], c.aliases - {ev.serverID});
    if ev.serverID in c.events && c.events[ev.serverID] == ev {
      assert d.events == c.events && d.aliases == c.aliases;
    } else {
      assert ev.serverID in d.events && d.events[ev.serverID] == ev;
    }
  }

  lemma {:induction false} UnloggedDeleteAgrees(s: State, id: string)
    requires Good(s)
    ensures Good(Next(s, UnloggedDeleteStep(id))) <==> Harmless(s, UnloggedDeleteStep(id))
  {
    var c := s.world.cal;
    LocalDeleteKeepsSound(World(c, EMPTY_BATCH), id);
    MemoryOnly(s, LocalDelete(World(c, EMPTY_BATCH), id).cal);
    DeleteOfNothing(c, id);
  }

  lemma {:induction false} DeleteOfNothing(c: Cal, id: string)
    ensures LocalDelete(World(c, EMPTY_BATCH), id).cal == c <==> id !in c.events && Dependents(c, id) == {}
  {
    var d := LocalDelete(World(c, EMPTY_BATCH), id).cal;
    LocalDeleteCal(c, id);
    if id !in c.events && Dependents(c, id) == {} {
      assert d.events == c.events && d.aliases == c.aliases;
    } else if id in c.events {
      assert id !in d.events;
    } else {
      var a :| a in Dependents(c, id);
      assert a in c.aliases && a !in d.aliases;
    }
  }

  /** What goes wrong otherwise: a CalDAV write between two pages of a round is undone
      at restart by an older change to the same event that was still pending. */
  lemma {:induction false} InterleavedWriteIsLost(s: State, ev: Event)
    requires Good(s) && ev.serverID in s.world.batch.upserts
    ensures var t := Next(Next(s, LocalUpsertStep(ev)), SaveStep);
      && ev.serverID in t.world.cal.events && t.world.cal.events[ev.serverID] == ev
      && ev.serverID in Restored(t.disk).events
      && Restored(t.disk).events[ev.serverID] == s.world.batch.upserts[ev.serverID]
  {
    var cal, b := s.world.cal, s.world.batch;
    var own := LocalUpsert(World(cal, EMPTY_BATCH), ev);
    var d := Append(s.disk, own.batch);
    assert Next(s, LocalUpsertStep(ev)) == State(World(own.cal, b), d);
    UpsertSurvives(Restored(s.disk), b, cal, ev.serverID, Restored(d));
    AppendApplies(d, b);
  }

  lemma {:induction false} UpsertSurvives(disk: Cal, b: Batch, mem: Cal, id: string, c: Cal)
    requires Agrees(disk, b, mem) && Separated(mem) && id in b.upserts
    ensures id in ApplyBatch(c, b).events && ApplyBatch(c, b).events[id] == b.upserts[id]
  {
    assert id in mem.events;
    assert forall a :: a in b.aliasUpserts ==> a in mem.aliases;
  }

  lemma {:induction false} LocalDeleteCal(cal: Cal, id: string)
    ensures var own := LocalDelete(World(cal, EMPTY_BATCH), id);
      && own.cal == Cal(cal.events - {id}, cal.aliases - Dependents(cal, id))
      && "" !in own.batch.upserts && "" !in own.batch.aliasUpserts
  {
  }

  lemma {:induction false} LocalDeleteInterleaves(s: State, id: string)
    requires Good(s)
    ensures Good(AfterLocalDelete(s, id))
      <==> {id} !! s.world.batch.upserts.Keys && Dependents(s.world.cal, id) !! s.world.batch.aliasUpserts.Keys
  {
    var cal := s.world.cal;
    LocalDeleteBatch(cal, Restored(s.disk), id);
    LocalDeleteCal(cal, id);
    LocalDeleteKeepsSound(World(cal, EMPTY_BATCH), id);
    OwnBatchAgrees(s, LocalDelete(World(cal, EMPTY_BATCH), id));
    DropsAgree(Restored(s.disk), s.world.batch, cal, {id}, Dependents(cal, id));
  }

  /** What a local delete leaves in memory and in the files. */
  ghost function AfterLocalDelete(s: State, id: string): State {
    var own := LocalDelete(World(s.world.cal, EMPTY_BATCH), id);
    State(World(own.cal, s.world.batch), Append(s.disk, own.batch))
  }

  lemma {:induction false} NextIsLocalDelete(s: State, id: string)
    ensures Next(s, LocalDeleteStep(id)) == AfterLocalDelete(s, id)
  {
  }

  lemma {:induction false} HarmlessLocalDelete(s: State, id: string)
    ensures Harmless(s, LocalDeleteStep(id)) <==>
            {id} !! s.world.batch.upserts.Keys && Dependents(s.world.cal, id) !! s.world.batch.aliasUpserts.Keys
  {
  }

  lemma {:induction false} LocalDeleteAgrees(s: State, id: string)
    requires Good(s)
    ensures Good(Next(s, LocalDeleteStep(id))) <==> Harmless(s, LocalDeleteStep(id))
  {
    NextIsLocalDelete(s, id);
    HarmlessLocalDelete(s, id);
    LocalDeleteInterleaves(s, id);
  }

  lemma {:induction false} DropsAgree(disk: Cal, b: Batch, cal: Cal, ids: set<string>, gone: set<string>)
    requires Agrees(disk, b, cal)
    ensures Agrees(Cal(disk.events - ids, disk.aliases - gone), b, Cal(cal.events - ids, cal.aliases - gone))
      <==> ids !! b.upserts.Keys && gone !! b.aliasUpserts.Keys
  {
    DropInterleaves(disk.events, b.deletes, b.upserts, ids);
    DropInterleaves(disk.aliases, b.aliasDeletes, b.aliasUpserts, gone);
  }

  /** Every step keeps disk, pending batch and memory in agreement exactly when it is
      harmless: pages, saves, repairs and compaction always are; a local write is when
      no unsaved page change touches the same identities; dropping the pending batch
      is when it holds no change; a reload is when normalize finds nothing to do. */
  lemma {:induction false} StepAgreesIffHarmless(s: State, step: Step)
    requires Good(s) && Enabled(s, step)
    ensures Good(Next(s, step)) <==> Harmless(s, step)
  {
    match step
    case PageStep(page) => PageAgrees(s, page);
    case SaveStep => SaveIsDurable(s);
    case DropPendingStep => DroppingAgrees(s);
    case DedupeStep => DedupeAgrees(s);
    case UnwrittenRepairStep => UnwrittenRepairAgrees(s);
    case StartupRepairStep(truncated) => StartupRepairAgrees(s, truncated);
    case LocalUpsertStep(ev) => LocalUpsertAgrees(s, ev);
    case LocalDeleteStep(id) => LocalDeleteAgrees(s, id);
    case UnloggedUpsertStep(ev) => UnloggedUpsertAgrees(s, ev);
    case UnloggedDeleteStep(id) => UnloggedDeleteAgrees(s, id);
    case SnapshotStep => CompactionAgrees(s);
    case CompactStep => CompactionAgrees(s);
    case ReloadStep => ReloadAgrees(s);
  }

  ghost function After(s: State, steps: seq<Step>): State
    decreases |steps|
  {
    if steps == [] then s else After(Next(s, steps[0]), steps[1..])
  }

  lemma {:induction false} AfterSnoc(s: State, steps: seq<Step>, step: Step)
    ensures After(s, steps + [step]) == Next(After(s, steps), step)
    decreases |steps|
  {
    if steps == [] {
      assert [step][1..] == [];
      assert steps + [step] == [step];
    } else {
      assert (steps + [step])[1..] == steps[1..] + [step];
      AfterSnoc(Next(s, steps[0]), steps[1..], step);
    }
  }

  lemma {:induction false} HarmlessSnoc(s: State, steps: seq<Step>, step: Step)
    requires AllHarmless(s, steps) && Enabled(After(s, steps), step) && Harmless(After(s, steps), step)
    ensures AllHarmless(s, steps + [step])
    decreases |steps|
  {
    if steps == [] {
      assert [step][1..] == [];
      assert steps + [step] == [step];
    } else {
      assert (steps + [step])[1..] == steps[1..] + [step];
      HarmlessSnoc(Next(s, steps[0]), steps[1..], step);
    }
  }

  ghost predicate AllHarmless(s: State, steps: seq<Step>)
    decreases |steps|
  {
    steps == [] ||
    (Enabled(s, steps[0]) && Harmless(s, steps[0]) && AllHarmless(Next(s, steps[0]), steps[1..]))
  }

  /** After any run of harmless steps, saving once more makes the files reproduce
      memory exactly, and a crash right then restarts from normalize(memory). */
  lemma {:induction false} RunsAgree(s: State, steps: seq<Step>)
    requires Good(s) && AllHarmless(s, steps)
    ensures var t := Next(After(s, steps), SaveStep);
      && Restored(t.disk) == After(s, steps).world.cal
      && Next(t, ReloadStep).world.cal == Normalize(After(s, steps).world.cal)
  {
    RunsStayGood(s, steps);
    SaveIsDurable(After(s, steps));
  }

  lemma {:induction false} RunsStayGood(s: State, steps: seq<Step>)
    requires Good(s) && AllHarmless(s, steps)
    ensures Good(After(s, steps))
    decreases |steps|
  {
    if steps != [] {
      StepAgreesIffHarmless(s, steps[0]);
      RunsStayGood(Next(s, steps[0]), steps[1..]);
    }
  }

  /** Until the next save or compaction a crash falls back to the memory of the last
      save: pages alone leave the files as they are. */
  lemma {:induction false} CrashFallsBackToLastSave(s: State, pages: seq<Page>)
    requires Good(s)
    ensures var steps := seq(|pages|, i requires 0 <= i < |pages| => PageStep(pages[i]));
      var t := Next(s, SaveStep);
      Next(After(t, steps), ReloadStep).world.cal == Normalize(s.world.cal)
  {
    SaveIsDurable(s);
    PagesLeaveDisk(Next(s, SaveStep), pages);
  }

  lemma {:induction false} PagesLeaveDisk(s: State, pages: seq<Page>)
    ensures After(s, seq(|pages|, i requires 0 <= i < |pages| => PageStep(pages[i]))).disk == s.disk
    decreases |pages|
  {
    var steps := seq(|pages|, i requires 0 <= i < |pages| => PageStep(pages[i]));
    if pages != [] {
      var rest := pages[1..];
      PagesLeaveDisk(Next(s, steps[0]), rest);
      assert steps[1..] == seq(|rest|, i requires 0 <= i < |rest| => PageStep(rest[i]));
    }
  }

  // ---------- the Status 5 retry ----------

  ghost predicate SameEntry<T>(m: map<string, T>, n: map<string, T>, id: string) {
    (id in m <==> id in n) && (id in m && id in n ==> m[id] == n[id])
  }

  /** Every identifier the dropped changes really changed is changed again later. */
  ghost predicate Overtaken<T>(m: map<string, T>, mid: map<string, T>, dropped: set<string>, later: set<string>) {
    forall id :: id in dropped && id !in later ==> SameEntry(m, mid, id)
  }

  ghost predicate Superseded(disk: Cal, dropped: Batch, later: Batch) {
    var mem := Effect(disk, dropped);
    && Overtaken(disk.events, mem.events, dropped.upserts.Keys + dropped.deletes, later.upserts.Keys + later.deletes)
    && Overtaken(disk.aliases, mem.aliases, dropped.aliasUpserts.Keys + dropped.aliasDeletes,
               later.aliasUpserts.Keys + later.aliasDeletes)
  }

  /** After a Status 5 reset the batch recorded so far is dropped while its changes
      stay in memory; the round ends in agreement exactly when the re-pull records
      every identifier the dropped batch had changed. */
  lemma {:induction false} RetryAgreesIffSuperseded(disk: Cal, dropped: Batch, later: Batch)
    requires WellKeyed(dropped) && WellKeyed(later)
    ensures var mem := Effect(Effect(disk, dropped), later);
      Agrees(disk, later, mem) <==> Superseded(disk, dropped, later)
  {
    RetryCoordinate(disk.events, dropped.deletes, dropped.upserts, later.deletes, later.upserts);
    RetryCoordinate(disk.aliases, dropped.aliasDeletes, dropped.aliasUpserts, later.aliasDeletes, later.aliasUpserts);
  }

  lemma {:induction false} RetryCoordinate<T>(m: map<string, T>, del1: set<string>, ups1: map<string, T>,
          del2: set<string>, ups2: map<string, T>)
    ensures var mid := (m - del1) + ups1;
      (m - del2) + ups2 == (mid - del2) + ups2 <==> Overtaken(m, mid, ups1.Keys + del1, ups2.Keys + del2)
  {
    var mid := (m - del1) + ups1;
    var a, b := (m - del2) + ups2, (mid - del2) + ups2;
    if a == b {
      forall id | id in ups1.Keys + del1 && id !in ups2.Keys + del2 ensures SameEntry(m, mid, id) {
        assert id in a <==> id in b;
      }
    }
    if Overtaken(m, mid, ups1.Keys + del1, ups2.Keys + del2) {
      forall id ensures SameEntry(a, b, id) { assert SameEntry(m, mid, id) || id in ups2.Keys + del2; }
      SameEntriesEqual(a, b);
    }
  }

  lemma {:induction false} SameEntriesEqual<T>(a: map<string, T>, b: map<string, T>)
    requires forall id :: SameEntry(a, b, id)
    ensures a == b
  {
    forall id ensures id in a <==> id in b { assert SameEntry(a, b, id); }
    forall id | id in a ensures a[id] == b[id] { assert SameEntry(a, b, id); }
  }
}
