/** The calendar part of diskState: the maps kept in memory, the two event files, and
    the methods of sync.go and state.go that change them in place. */
module CalendarStore {
  import opened Ids
  import opened Calendar
  import opened CalendarLaws
  import opened CalendarIndex
  import opened CalendarLoops
  import opened EventLog
  import opened CalendarRun
  import CalendarRepair
  import CalendarReplay

  class DiskState {
    var events: map<string, Event>
    var aliases: map<string, Alias>
    var snapshot: Cal      // events.json
    var log: seq<Entry>    // events.jsonl

    function Mem(): Cal
      reads this
    {
      Cal(events, aliases)
    }

    function Files(): Disk
      reads this
    {
      Disk(snapshot, log)
    }

    ghost predicate Valid()
      reads this
    {
      Separated(Mem())
    }

    // ---------- sync.go: one record of a page ----------

    /** Stores a visible event, in the map, the index and the change record. */
    method Show(index: DuplicateIndex, ev: Event, changes: Mutations)
      requires index.Holds(events) && ev.serverID !in events
      modifies this`events, index, changes
      ensures index.Holds(events)
      ensures World(Mem(), changes.Value()) == PutEvent(old(World(Mem(), changes.Value())), ev)
    {
      index.Add(ev.serverID, ev, events);
      events := events[ev.serverID := ev];
      changes.RecordUpsert(ev);
    }

    method Overwrite(index: DuplicateIndex, ev: Event, changes: Mutations)
      requires index.Holds(events) && ev.serverID in events
      modifies this`events, index, changes
      ensures index.Holds(events)
      ensures World(Mem(), changes.Value()) == PutEvent(old(World(Mem(), changes.Value())), ev)
    {
      var id := ev.serverID;
      index.Remove(id, events[id], events);
      index.Add(id, ev, events - {id});
      assert (events - {id})[id := ev] == events[id := ev];
      events := events[id := ev];
      changes.RecordUpsert(ev);
    }

    method SetAlias(id: string, alias: Alias, changes: Mutations)
      modifies this`aliases, changes
      ensures World(Mem(), changes.Value()) == PutAliases(old(World(Mem(), changes.Value())), map[id := alias])
    {
      aliases := aliases[id := alias];
      assert aliases == old(aliases) + map[id := alias];
      changes.RecordAlias(id, alias);
    }

    method RemoveAlias(id: string, changes: Mutations)
      modifies this`aliases, changes
      ensures World(Mem(), changes.Value()) == DropAliases(old(World(Mem(), changes.Value())), {id})
    {
      aliases := aliases - {id};
      changes.RecordAliasDelete(id);
    }

    /** addCalendarEventLocked. */
    method AddEvent(index: DuplicateIndex, ev: Event, duplicateReplay: bool, changes: Mutations)
      returns (progress: bool)
      requires Valid() && index.Holds(events)
      modifies this`events, this`aliases, index, changes
      ensures Valid() && index.Holds(events)
      ensures (World(Mem(), changes.Value()), progress)
        == Calendar.AddEvent(old(World(Mem(), changes.Value())), ev, duplicateReplay)
    {
      ghost var w := World(Mem(), changes.Value());
      AddKeepsSound(w, ev, duplicateReplay);
      var id := ev.serverID;
      if id == "" {
        return false;
      }
      if id in events {
        if events[id] == ev {
          return false;
        }
        Overwrite(index, ev, changes);
        return true;
      }
      if id in aliases {
        var alias := aliases[id];
        if alias.canonicalID in events && SameContent(events[alias.canonicalID], ev) {
          if alias.uid != ev.uid || (duplicateReplay && !alias.replay) {
            SetAlias(id, Alias(alias.canonicalID, ev.uid, alias.replay || duplicateReplay), changes);
          }
          return false;
        }
        RemoveAlias(id, changes);
      }
      var target := FindFoldTarget(index, ev, duplicateReplay);
      if target.Some? {
        SetAlias(id, Alias(target.value, ev.uid, duplicateReplay), changes);
        return false;
      }
      Show(index, ev, changes);
      return true;
    }

    method FindFoldTarget(index: DuplicateIndex, ev: Event, duplicateReplay: bool) returns (target: Option<string>)
      requires "" !in events && index.Holds(events)
      ensures target == FoldTarget(events, ev, duplicateReplay)
    {
      target := None;
      if ev.uid != "" {
        target := index.FindEquivalent(ev, false, events);
      }
      if target.None? && duplicateReplay {
        target := index.FindEquivalent(ev, true, events);
      }
    }

    /** changeCalendarEventLocked. */
    method ChangeEvent(index: DuplicateIndex, ev: Event, changes: Mutations) returns (progress: bool)
      requires Valid() && index.Holds(events)
      modifies this`events, this`aliases, index, changes
      ensures Valid() && index.Holds(events)
      ensures (World(Mem(), changes.Value()), progress)
        == Calendar.ChangeEvent(old(World(Mem(), changes.Value())), ev)
    {
      ChangeKeepsSound(World(Mem(), changes.Value()), ev);
      var id := ev.serverID;
      if id == "" {
        return false;
      }
      if id in events {
        if events[id] == ev {
          return false;
        }
        Overwrite(index, ev, changes);
        return true;
      }
      if id in aliases {
        var alias := aliases[id];
        if alias.canonicalID in events && SameContent(events[alias.canonicalID], ev) {
          if alias.uid != ev.uid {
            SetAlias(id, alias.(uid := ev.uid), changes);
          }
          return false;
        }
        RemoveAlias(id, changes);
      }
      Show(index, ev, changes);
      return true;
    }

    method Hide(index: DuplicateIndex, id: string, changes: Mutations)
      requires index.Holds(events) && id in events
      modifies this`events, index, changes
      ensures index.Holds(events)
      ensures World(Mem(), changes.Value()) == DropEvent(old(World(Mem(), changes.Value())), id)
    {
      index.Remove(id, events[id], events);
      events := events - {id};
      changes.RecordDelete(id);
    }

    /** Points the remaining members of a group at its new canonical event. */
    method Retarget(members: seq<string>, heir: string, changes: Mutations)
      requires forall m :: m in members ==> m in aliases
      modifies this`aliases, changes
      ensures World(Mem(), changes.Value())
        == PutAliases(old(World(Mem(), changes.Value())), Retargeted(old(Mem()), Elems(members), heir))
    {
      ghost var w := World(Mem(), changes.Value());
      RetargetAllIs(w, members, heir);
      var i := 0;
      while i < |members|
        invariant 0 <= i <= |members|
        invariant World(Mem(), changes.Value()) == RetargetAll(w, members[..i], heir)
        invariant forall m :: m in members ==> m in aliases
        modifies this`aliases, changes
      {
        var id := members[i];
        assert id in members;
        RetargetStep(w, members, heir, i);
        SetAlias(id, aliases[id].(canonicalID := heir), changes);
        i := i + 1;
      }
      assert members[..i] == members;
    }

    /** deleteCalendarEventLocked. */
    method DeleteEvent(index: DuplicateIndex, id: string, changes: Mutations) returns (progress: bool)
      requires Valid() && index.Holds(events)
      modifies this`events, this`aliases, index, changes
      ensures Valid() && index.Holds(events)
      ensures (World(Mem(), changes.Value()), progress)
        == Calendar.DeleteEvent(old(World(Mem(), changes.Value())), id)
    {
      ghost var w := World(Mem(), changes.Value());
      DeleteKeepsSound(w, id);
      if id in aliases {
        RemoveAlias(id, changes);
        return false;
      }
      if id !in events {
        return false;
      }
      var members := SortIds(Members(Mem(), id));
      if |members| == 0 {
        assert Members(w.cal, id) == {};
        Hide(index, id, changes);
        return true;
      }
      HeadIsLeast(members, Members(w.cal, id));
      PromoteFirst(index, id, members, changes);
      return true;
    }

    /** The canonical event goes and the first of its aliases takes its place. */
    method PromoteFirst(index: DuplicateIndex, id: string, members: seq<string>, changes: Mutations)
      requires Valid() && index.Holds(events) && id in events
      requires Lists(members, Members(Mem(), id)) && members != []
      modifies this`events, this`aliases, index, changes
      ensures index.Holds(events)
      ensures members[0] in old(aliases)
      ensures World(Mem(), changes.Value()) == Promote(old(World(Mem(), changes.Value())), id, members[0])
    {
      ghost var w := World(Mem(), changes.Value());
      assert members[0] in members;
      var existing := events[id];
      var heir := members[0];
      var promotedUID := aliases[heir].uid;
      RemoveAlias(heir, changes);
      Hide(index, id, changes);
      Show(index, existing.(serverID := heir, uid := promotedUID), changes);
      var others := members[1..];
      HeadIsLeast(members, Members(w.cal, id));
      assert forall m :: m in others ==> m in Elems(others);
      ghost var before := Mem();
      assert before.aliases == w.cal.aliases - {heir};
      Retarget(others, heir, changes);
      assert Retargeted(before, Elems(others), heir) == Retargeted(w.cal, Members(w.cal, id) - {heir}, heir);
    }

    // ---------- sync.go: replay pages ----------

    method CanonicalOf(id: string) returns (x: Option<string>)
      ensures x == Canonical(Mem(), id)
    {
      if id in events {
        return Some(id);
      }
      if id !in aliases {
        return None;
      }
      var target := aliases[id].canonicalID;
      return if target in events then Some(target) else None;
    }

    /** calendarPageIsDuplicateReplay. */
    method PageIsDuplicateReplay(page: Page, index: DuplicateIndex) returns (replay: bool)
      requires Valid() && index.Holds(events)
      ensures replay == IsDuplicateReplay(page, Mem())
    {
      if !page.moreAvailable || |page.added| < 2 || |page.changed| > 0 || |page.deleted| > 0 {
        return false;
      }
      for i := 0 to |page.added|
        invariant forall j :: 0 <= j < i ==> Repeats(Mem(), page.added[j])
      {
        var ev := page.added[i];
        var known := CanonicalOf(ev.serverID);
        if known.Some? {
          if !SameContent(events[known.value], ev) {
            assert !Repeats(Mem(), ev);
            return false;
          }
        } else {
          var match_ := index.FindEquivalent(ev, true, events);
          if match_.None? {
            assert !Repeats(Mem(), ev);
            return false;
          }
        }
      }
      return true;
    }

    /** The page's own identities, grouped by the event they stand for. */
    method CollectKept(index: DuplicateIndex, added: seq<Event>) returns (keep: map<string, set<string>>)
      requires Valid() && index.Holds(events)
      ensures KeepIs(Mem(), added, keep)
    {
      keep := map[];
      for i := 0 to |added|
        invariant KeepIs(Mem(), added[..i], keep)
      {
        var ev := added[i];
        var target := CanonicalOf(ev.serverID);
        if target.None? {
          target := index.FindEquivalent(ev, true, events);
        }
        KeepMore(Mem(), added[..i], ev, keep);
        assert added[..i + 1] == added[..i] + [ev];
        if target.Some? {
          var ids := if target.value in keep then keep[target.value] else {};
          keep := keep[target.value := ids + {ev.serverID}];
        }
      }
      assert added[..|added|] == added;
    }

    /** Removes stale replay aliases and returns the stale stable ones per event. */
    method RemoveStaleReplays(keep: map<string, set<string>>, changes: Mutations)
      returns (stable: map<string, set<string>>)
      modifies this`aliases, changes
      ensures World(Mem(), changes.Value())
        == DropAliases(old(World(Mem(), changes.Value())), StaleReplays(old(Mem()), keep, old(aliases).Keys))
      ensures StableIs(old(Mem()), keep, old(aliases).Keys, stable)
    {
      ghost var w := World(Mem(), changes.Value());
      var all := aliases;
      var rest := all.Keys;
      stable := map[];
      DropNoAliases(w);
      assert StaleReplays(w.cal, keep, {}) == {};
      while rest != {}
        invariant rest <= all.Keys && all == w.cal.aliases
        invariant World(Mem(), changes.Value()) == DropAliases(w, StaleReplays(w.cal, keep, all.Keys - rest))
        invariant StableIs(w.cal, keep, all.Keys - rest, stable)
        modifies this`aliases, changes
      {
        var id :| id in rest;
        var alias := all[id];
        ghost var seen := all.Keys - rest;
        assert all.Keys - (rest - {id}) == seen + {id};
        StaleReplaysMore(w, keep, seen, id);
        StableMore(w.cal, keep, seen, id, stable);
        if alias.canonicalID in keep && id !in keep[alias.canonicalID] {
          if !alias.replay {
            var ids := if alias.canonicalID in stable then stable[alias.canonicalID] else {};
            stable := stable[alias.canonicalID := ids + {id}];
          } else {
            RemoveAlias(id, changes);
          }
        }
        rest := rest - {id};
      }
      assert all.Keys - rest == all.Keys;
    }

    method RemoveAliases(ids: seq<string>, changes: Mutations)
      modifies this`aliases, changes
      ensures World(Mem(), changes.Value()) == DropAliases(old(World(Mem(), changes.Value())), Elems(ids))
    {
      ghost var w := World(Mem(), changes.Value());
      DropNoAliases(w);
      var i := 0;
      while i < |ids|
        invariant 0 <= i <= |ids|
        invariant World(Mem(), changes.Value()) == DropAliases(w, Elems(ids[..i]))
        modifies this`aliases, changes
      {
        RemoveAlias(ids[i], changes);
        DropAliasesTwice(w, Elems(ids[..i]), {ids[i]});
        ElemsOfPrefix(ids, i);
        i := i + 1;
      }
      assert ids[..i] == ids;
    }

    method CapOne(stale: set<string>, changes: Mutations)
      modifies this`aliases, changes
      ensures World(Mem(), changes.Value())
        == DropAliases(old(World(Mem(), changes.Value())), AllButTop(stale, MAX_STABLE_ALIASES))
    {
      var ids := SortIds(stale);
      CapIs(World(Mem(), changes.Value()), ids, stale, MAX_STABLE_ALIASES);
      if |ids| > MAX_STABLE_ALIASES {
        RemoveAliases(ids[..|ids| - MAX_STABLE_ALIASES], changes);
      }
    }

    /** Keeps at most eight stale stable aliases of each event. */
    method CapStable(stable: map<string, set<string>>, changes: Mutations)
      modifies this`aliases, changes
      ensures World(Mem(), changes.Value())
        == DropAliases(old(World(Mem(), changes.Value())), Excess(stable, stable.Keys))
    {
      ghost var w := World(Mem(), changes.Value());
      DropNoAliases(w);
      var rest := stable.Keys;
      while rest != {}
        invariant rest <= stable.Keys
        invariant World(Mem(), changes.Value()) == DropAliases(w, Excess(stable, stable.Keys - rest))
        modifies this`aliases, changes
      {
        var t :| t in rest;
        CapOne(stable[t], changes);
        ExcessMore(w, stable, stable.Keys - rest, t);
        assert stable.Keys - (rest - {t}) == (stable.Keys - rest) + {t};
        rest := rest - {t};
      }
      assert stable.Keys - rest == stable.Keys;
    }

    /** pruneCalendarReplayAliasesLocked. */
    method PruneReplayAliases(index: DuplicateIndex, added: seq<Event>, changes: Mutations)
      requires Valid() && index.Holds(events)
      modifies this`aliases, changes
      ensures Valid()
      ensures World(Mem(), changes.Value()) == PruneAliases(old(World(Mem(), changes.Value())), added)
    {
      ghost var w := World(Mem(), changes.Value());
      var keep := CollectKept(index, added);
      var stable := RemoveStaleReplays(keep, changes);
      CapStable(stable, changes);
      DropAliasesTwice(w, StaleReplays(w.cal, keep, w.cal.aliases.Keys), Excess(stable, stable.Keys));
      PrunedIs(w.cal, added, keep, stable);
      PruneKeepsSound(w, added);
    }

    // ---------- sync.go: folding exact duplicates ----------

    /** One event is folded into an equal representative, or becomes one. */
    method DedupeOne(id: string, ev: Event, representatives: DuplicateIndex, duplicates: seq<string>,
                     ghost c: Cal, ghost d: DedupeState) returns (more: seq<string>)
      requires representatives.Holds(d.kept) && "" !in d.kept && id !in d.kept
      requires id in c.events && ev == c.events[id]
      requires Mem() == d.mem && duplicates == d.duplicates
      modifies this`events, this`aliases, representatives
      ensures representatives.Holds(FoldEach(c, d, id).kept)
      ensures Mem() == FoldEach(c, d, id).mem && more == FoldEach(c, d, id).duplicates
    {
      var canonical: Option<string> := None;
      if ev.uid != "" {
        canonical := representatives.FindEquivalent(ev, false, d.kept);
      }
      more := duplicates;
      if canonical.Some? {
        events := events - {id};
        aliases := aliases[id := Alias(canonical.value, ev.uid, false)];
        more := more + [id];
      } else {
        representatives.Add(id, ev, d.kept);
      }
    }

    /** dedupeEquivalentCalendarEventsLocked; the caller records the result. */
    method DedupeEvents() returns (duplicates: seq<string>)
      requires Valid()
      modifies this`events, this`aliases
      ensures Valid() && Mem() == Dedupe(old(World(Mem(), EMPTY_BATCH))).cal
      ensures Lists(duplicates, Folded(old(events)))
    {
      ghost var c := Mem();
      var all := events;
      var ids := SortIds(all.Keys);
      var representatives := new DuplicateIndex.Empty();
      duplicates := [];
      ghost var d := DedupeFold(c, []);
      for i := 0 to |ids|
        invariant fresh(representatives) && representatives.Holds(d.kept)
        invariant d == DedupeFold(c, ids[..i]) && Mem() == d.mem && duplicates == d.duplicates
      {
        var id := ids[i];
        assert id in ids;
        DedupeFoldStep(c, ids, i);
        KeptSoFarNames(c, ids, i);
        duplicates := DedupeOne(id, all[id], representatives, duplicates, c, d);
        d := FoldEach(c, d, id);
      }
      assert ids[..|ids|] == ids;
      DedupedAll(c, ids);
    }

    // ---------- state.go: the event files ----------

    /** appendEventLogLocked: one line holds the whole batch.  Whether opening, writing and
        flushing the file works is up to `written`. */
    method AppendEventLog(changes: Mutations, written: bool) returns (ok: bool)
      modifies this`log
      ensures ok == (written || changes.Value() == EMPTY_BATCH)
      ensures Files() == if ok then Append(old(Files()), changes.Value()) else old(Files())
    {
      if changes.IsEmpty() {
        return true;
      }
      if !written {
        return false;
      }
      var upserts := ListEvents(changes.upserts);
      var aliasUpserts := ListAliases(changes.aliasUpserts);
      var deletes := SortIds(changes.deletes);
      var aliasDeletes := SortIds(changes.aliasDeletes);
      log := log + [BatchEntry(Record(upserts, deletes, aliasUpserts, aliasDeletes))];
      ok := true;
    }

    /** replayEventLogLocked over decoded lines. */
    method ReplayEventLog(entries: seq<Entry>)
      modifies this`events, this`aliases
      ensures Mem() == Replay(old(Mem()), entries)
    {
      ghost var c := Mem();
      for i := 0 to |entries|
        invariant Mem() == Replay(c, entries[..i])
      {
        assert entries[..i + 1][..i] == entries[..i];
        ReplayEntry(entries[i]);
      }
      assert entries[..|entries|] == entries;
    }

    method ReplayEntry(entry: Entry)
      modifies this`events, this`aliases
      ensures Mem() == ApplyEdits(old(Mem()), EntryEdits(entry))
    {
      if !entry.BatchEntry? { OneEdit(Mem(), EntryEdits(entry)[0]); }
      match entry
      case BatchEntry(r) =>
        RecordInParts(Mem(), r);
        ReplayDeletes(r.deletes);
        ReplayAliasDeletes(r.deleteAliases);
        ReplayUpserts(r.upserts);
        ReplayAliases(r.aliases);
      case UpsertEntry(ev) =>
        events := events[ev.serverID := ev];
        aliases := aliases - {ev.serverID};
      case DeleteEntry(id) => events := events - {id};
      case AliasEntry(id, alias) =>
        events := events - {id};
        aliases := aliases[id := alias];
      case DeleteAliasEntry(id) => aliases := aliases - {id};
    }

    method ReplayDeletes(ids: seq<string>)
      modifies this`events
      ensures Mem() == ApplyEdits(old(Mem()), DeleteEdits(ids))
    {
      ghost var c := Mem();
      for i := 0 to |ids|
        invariant Mem() == ApplyEdits(c, DeleteEdits(ids[..i]))
      {
        assert ids[..i + 1][..i] == ids[..i];
        events := events - {ids[i]};
      }
      assert ids[..|ids|] == ids;
    }

    method ReplayAliasDeletes(ids: seq<string>)
      modifies this`aliases
      ensures Mem() == ApplyEdits(old(Mem()), DeleteAliasEdits(ids))
    {
      ghost var c := Mem();
      for i := 0 to |ids|
        invariant Mem() == ApplyEdits(c, DeleteAliasEdits(ids[..i]))
      {
        assert ids[..i + 1][..i] == ids[..i];
        aliases := aliases - {ids[i]};
      }
      assert ids[..|ids|] == ids;
    }

    method ReplayUpserts(evs: seq<Event>)
      modifies this`events, this`aliases
      ensures Mem() == ApplyEdits(old(Mem()), UpsertEdits(evs))
    {
      ghost var c := Mem();
      for i := 0 to |evs|
        invariant Mem() == ApplyEdits(c, UpsertEdits(evs[..i]))
      {
        assert evs[..i + 1][..i] == evs[..i];
        events := events[evs[i].serverID := evs[i]];
        aliases := aliases - {evs[i].serverID};
      }
      assert evs[..|evs|] == evs;
    }

    method ReplayAliases(entries: seq<(string, Alias)>)
      modifies this`events, this`aliases
      ensures Mem() == ApplyEdits(old(Mem()), AliasEdits(entries))
    {
      ghost var c := Mem();
      for i := 0 to |entries|
        invariant Mem() == ApplyEdits(c, AliasEdits(entries[..i]))
      {
        assert entries[..i + 1][..i] == entries[..i];
        var (id, alias) := entries[i];
        events := events - {id};
        aliases := aliases[id := alias];
      }
      assert entries[..|entries|] == entries;
    }

    /** writeEventsSnapshotLocked; truncating the log may fail and is then only logged. */
    method WriteEventsSnapshot(written: bool, truncated: bool) returns (ok: bool)
      modifies this`snapshot, this`log
      ensures ok == written
      ensures Files() == if ok then Disk(Mem(), if truncated then [] else old(log)) else old(Files())
    {
      if !written {
        return false;
      }
      ok := true;
      snapshot := Mem();
      if truncated {
        log := [];
      }
    }

    /** normalize, as far as it concerns the calendar. */
    method NormalizeAliases()
      modifies this`aliases
      ensures Mem() == Normalize(old(Mem()))
    {
      ghost var c := Mem();
      var rest := aliases.Keys;
      while rest != {}
        invariant rest <= c.aliases.Keys
        invariant aliases == map a | a in c.aliases && (a in rest || SoundAlias(c, a)) ::
          if a in rest then c.aliases[a] else Marked(c, a)
        modifies this`aliases
      {
        var id :| id in rest;
        var alias := aliases[id];
        if id == "" || alias.canonicalID == "" || id == alias.canonicalID || id in events
          || alias.canonicalID !in events {
          aliases := aliases - {id};
        } else if !alias.replay && alias.uid != "" && alias.uid != events[alias.canonicalID].uid {
          aliases := aliases[id := alias.(replay := true)];
        }
        rest := rest - {id};
      }
    }

    /** The calendar part of loadState.  A snapshot that cannot be written ends it without a
        state, though no file is lost; a log that cannot be emptied is only logged. */
    method Load(compact: bool, written: bool, truncated: bool) returns (ok: bool)
      modifies this
      ensures ok == (compact ==> written)
      ensures ok ==> Mem() == Normalize(Restored(old(Files())))
      ensures Files() == if compact && written
                         then Disk(Restored(old(Files())), if truncated then [] else old(log)) else old(Files())
      ensures Restored(Files()) == Restored(old(Files()))
    {
      events, aliases := snapshot.events, snapshot.aliases;
      ReplayEventLog(log);
      if compact {
        ReplayIsIdempotent(snapshot, log);
        ok := WriteEventsSnapshot(written, truncated);
        if !ok {
          return;
        }
      }
      NormalizeAliases();
      ok := true;
    }

    /** repairDuplicateCalendarEventsOnStartup: the repair, kept by a snapshot. */
    method RepairOnStartup(written: bool, truncated: bool, mainWritten: bool)
      returns (ok: bool, duplicates: seq<string>)
      requires Valid()
      modifies this`events, this`aliases, this`snapshot, this`log
      ensures Valid() && Lists(duplicates, Folded(old(events)))
      ensures State(World(Mem(), EMPTY_BATCH), Files()) ==
              Next(old(State(World(Mem(), EMPTY_BATCH), Files())),
                   if written then StartupRepairStep(truncated) else UnwrittenRepairStep)
      ensures ok == (duplicates == [] || (written && mainWritten))
    {
      duplicates := DedupeEvents();
      if |duplicates| == 0 {
        return true, duplicates;
      }
      assert duplicates[0] in duplicates;
      ok := WriteEventsSnapshot(written, truncated);
      ok := ok && mainWritten;
    }

    /** upsertEvent: a CalDAV write, stored and logged as a batch of its own, before the main
        file is written. */
    method UpsertEvent(ev: Event, written: bool, mainWritten: bool) returns (ok: bool)
      requires Valid()
      modifies this`events, this`aliases, this`log
      ensures ev.serverID != "" ==> Valid()
      ensures Mem() == LocalUpsert(old(World(Mem(), EMPTY_BATCH)), ev).cal
      ensures Files() == if written then Append(old(Files()), LocalUpsert(old(World(Mem(), EMPTY_BATCH)), ev).batch)
                         else old(Files())
      ensures ok == (written && mainWritten)
    {
      if ev.serverID != "" { LocalUpsertKeepsSound(World(Mem(), EMPTY_BATCH), ev); }
      events := events[ev.serverID := ev];
      aliases := aliases - {ev.serverID};
      var changes := new Mutations.Empty();
      changes.RecordUpsert(ev);
      changes.RecordAliasDelete(ev.serverID);
      ok := AppendEventLog(changes, written);
      ok := ok && mainWritten;
    }

    method RemoveDependents(id: string, changes: Mutations)
      modifies this`aliases, changes
      ensures World(Mem(), changes.Value())
        == DropAliases(old(World(Mem(), changes.Value())), Dependents(old(Mem()), id))
    {
      var ids := SortIds(Dependents(Mem(), id));
      assert Elems(ids) == Dependents(Mem(), id);
      RemoveAliases(ids, changes);
    }

    /** deleteEvent: a CalDAV delete, which takes the event's aliases along. */
    method RemoveEvent(id: string, written: bool, mainWritten: bool) returns (ok: bool)
      requires Valid()
      modifies this`events, this`aliases, this`log
      ensures Valid()
      ensures Mem() == LocalDelete(old(World(Mem(), EMPTY_BATCH)), id).cal
      ensures Files() == if written then Append(old(Files()), LocalDelete(old(World(Mem(), EMPTY_BATCH)), id).batch)
                         else old(Files())
      ensures ok == (written && mainWritten)
    {
      ghost var w := World(Mem(), EMPTY_BATCH);
      LocalDeleteKeepsSound(w, id);
      events := events - {id};
      var changes := new Mutations.Empty();
      changes.RecordDelete(id);
      RemoveDependents(id, changes);
      assert World(Mem(), changes.Value()) == LocalDelete(w, id);
      assert id in LocalDelete(w, id).batch.deletes;
      ok := AppendEventLog(changes, written);
      ok := ok && mainWritten;
    }
  }
}
