/** The calendar event log: what one appended batch means, why replaying a whole log
    twice is harmless, and when log, pending batch and memory agree. */
module EventLog {
  import opened Ids
  import opened Calendar
  import opened CalendarLaws

  /** calendarMutationLog: one batch as it is written, in lists. */
  datatype Record = Record(
    upserts: seq<Event>,
    deletes: seq<string>,
    aliases: seq<(string, Alias)>,
    deleteAliases: seq<string>)

  /** eventLogEntry: current writers use batches, older files hold single operations. */
  datatype Entry =
    | BatchEntry(record: Record)
    | UpsertEntry(ev: Event)
    | DeleteEntry(id: string)
    | AliasEntry(aliasID: string, alias: Alias)
    | DeleteAliasEntry(aliasID: string)

  datatype Edit = SetEvent(ev: Event) | DelEvent(id: string) | SetAlias(id: string, alias: Alias) | DelAlias(id: string)

  function ApplyEdit(c: Cal, e: Edit): Cal {
    match e
    case SetEvent(ev) => Cal(c.events[ev.serverID := ev], c.aliases - {ev.serverID})
    case DelEvent(id) => c.(events := c.events - {id})
    case SetAlias(id, a) => Cal(c.events - {id}, c.aliases[id := a])
    case DelAlias(id) => c.(aliases := c.aliases - {id})
  }

  function ApplyEdits(c: Cal, edits: seq<Edit>): Cal
    decreases |edits|
  {
    if edits == [] then c else ApplyEdit(ApplyEdits(c, edits[..|edits| - 1]), edits[|edits| - 1])
  }

  function DeleteEdits(ids: seq<string>): (es: seq<Edit>)
    ensures |es| == |ids|
  {
    if ids == [] then [] else DeleteEdits(ids[..|ids| - 1]) + [DelEvent(ids[|ids| - 1])]
  }

  function DeleteAliasEdits(ids: seq<string>): (es: seq<Edit>)
    ensures |es| == |ids|
  {
    if ids == [] then [] else DeleteAliasEdits(ids[..|ids| - 1]) + [DelAlias(ids[|ids| - 1])]
  }

  function UpsertEdits(evs: seq<Event>): (es: seq<Edit>)
    ensures |es| == |evs|
  {
    if evs == [] then [] else UpsertEdits(evs[..|evs| - 1]) + [SetEvent(evs[|evs| - 1])]
  }

  function AliasEdits(ps: seq<(string, Alias)>): (es: seq<Edit>)
    ensures |es| == |ps|
  {
    if ps == [] then [] else AliasEdits(ps[..|ps| - 1]) + [SetAlias(ps[|ps| - 1].0, ps[|ps| - 1].1)]
  }

  /** The order in which replay walks the lists of a batch. */
  function RecordEdits(r: Record): seq<Edit> {
    DeleteEdits(r.deletes) + DeleteAliasEdits(r.deleteAliases) + UpsertEdits(r.upserts) + AliasEdits(r.aliases)
  }

  function EntryEdits(e: Entry): seq<Edit> {
    match e
    case BatchEntry(r) => RecordEdits(r)
    case UpsertEntry(ev) => [SetEvent(ev)]
    case DeleteEntry(id) => [DelEvent(id)]
    case AliasEntry(id, a) => [SetAlias(id, a)]
    case DeleteAliasEntry(id) => [DelAlias(id)]
  }

  function Replay(c: Cal, log: seq<Entry>): Cal
    decreases |log|
  {
    if log == [] then c else ApplyEdits(Replay(c, log[..|log| - 1]), EntryEdits(log[|log| - 1]))
  }

  // ---------- a log is a patch: last writer wins at each identifier ----------

  datatype Patch = Patch(events: map<string, Option<Event>>, aliases: map<string, Option<Alias>>)

  const NO_PATCH := Patch(map[], map[])

  function Overlay<T>(m: map<string, T>, p: map<string, Option<T>>): map<string, T> {
    map id | id in m.Keys + p.Keys && (id in p ==> p[id].Some?) :: if id in p then p[id].value else m[id]
  }

  function Patched(c: Cal, p: Patch): Cal { Cal(Overlay(c.events, p.events), Overlay(c.aliases, p.aliases)) }

  function Extend(p: Patch, e: Edit): Patch {
    match e
    case SetEvent(ev) => Patch(p.events[ev.serverID := Some(ev)], p.aliases[ev.serverID := None])
    case DelEvent(id) => p.(events := p.events[id := None])
    case SetAlias(id, a) => Patch(p.events[id := None], p.aliases[id := Some(a)])
    case DelAlias(id) => p.(aliases := p.aliases[id := None])
  }

  function ExtendAll(p: Patch, edits: seq<Edit>): Patch
    decreases |edits|
  {
    if edits == [] then p else Extend(ExtendAll(p, edits[..|edits| - 1]), edits[|edits| - 1])
  }

  function LogPatch(log: seq<Entry>): Patch
    decreases |log|
  {
    if log == [] then NO_PATCH else ExtendAll(LogPatch(log[..|log| - 1]), EntryEdits(log[|log| - 1]))
  }

  lemma {:induction false} OverlayPut<T>(m: map<string, T>, p: map<string, Option<T>>, id: string, v: T)
    ensures Overlay(m, p[id := Some(v)]) == Overlay(m, p)[id := v]
  {
  }

  lemma {:induction false} OverlayRemove<T>(m: map<string, T>, p: map<string, Option<T>>, id: string)
    ensures Overlay(m, p[id := None]) == Overlay(m, p) - {id}
  {
  }

  lemma {:induction false} EditPatch(c: Cal, p: Patch, e: Edit)
    ensures ApplyEdit(Patched(c, p), e) == Patched(c, Extend(p, e))
  {
    match e
    case SetEvent(ev) =>
      OverlayPut(c.events, p.events, ev.serverID, ev);
      OverlayRemove(c.aliases, p.aliases, ev.serverID);
    case DelEvent(id) => OverlayRemove(c.events, p.events, id);
    case SetAlias(id, a) => OverlayRemove(c.events, p.events, id); OverlayPut(c.aliases, p.aliases, id, a);
    case DelAlias(id) => OverlayRemove(c.aliases, p.aliases, id);
  }

  lemma {:induction false} EditsPatch(c: Cal, p: Patch, edits: seq<Edit>)
    ensures ApplyEdits(Patched(c, p), edits) == Patched(c, ExtendAll(p, edits))
    decreases |edits|
  {
    if edits != [] {
      EditsPatch(c, p, edits[..|edits| - 1]);
      EditPatch(c, ExtendAll(p, edits[..|edits| - 1]), edits[|edits| - 1]);
    }
  }

  lemma {:induction false} ReplayPatches(c: Cal, log: seq<Entry>)
    ensures Replay(c, log) == Patched(c, LogPatch(log))
    decreases |log|
  {
    if log == [] {
      assert Patched(c, NO_PATCH) == c;
    } else {
      ReplayPatches(c, log[..|log| - 1]);
      EditsPatch(c, LogPatch(log[..|log| - 1]), EntryEdits(log[|log| - 1]));
    }
  }

  /** Replaying a log once more over its own result changes nothing, whatever mixture
      of batches and old single-operation lines it holds. */
  lemma {:induction false} ReplayIsIdempotent(c: Cal, log: seq<Entry>)
    ensures Replay(Replay(c, log), log) == Replay(c, log)
  {
    ReplayPatches(c, log);
    ReplayPatches(Replay(c, log), log);
    var p := LogPatch(log);
    assert Overlay(Overlay(c.events, p.events), p.events) == Overlay(c.events, p.events);
    assert Overlay(Overlay(c.aliases, p.aliases), p.aliases) == Overlay(c.aliases, p.aliases);
  }

  lemma {:induction false} ReplayConcat(c: Cal, a: seq<Entry>, b: seq<Entry>)
    ensures Replay(c, a + b) == Replay(Replay(c, a), b)
    decreases |b|
  {
    if b == [] {
      assert a + b == a;
    } else {
      assert (a + b)[..|a + b| - 1] == a + b[..|b| - 1];
      ReplayConcat(c, a, b[..|b| - 1]);
    }
  }

  // ---------- one batch ----------

  ghost predicate WellKeyed(b: Batch) {
    && (forall id :: id in b.upserts ==> b.upserts[id].serverID == id)
    && b.upserts.Keys !! b.deletes && b.aliasUpserts.Keys !! b.aliasDeletes
  }

  /** The record lists exactly the batch's changes. */
  ghost predicate Serializes(r: Record, b: Batch) {
    && (forall id :: id in r.deletes <==> id in b.deletes)
    && (forall id :: id in r.deleteAliases <==> id in b.aliasDeletes)
    && (forall ev :: ev in r.upserts <==> ev.serverID in b.upserts && b.upserts[ev.serverID] == ev)
    && (forall e :: e in r.aliases <==> e.0 in b.aliasUpserts && b.aliasUpserts[e.0] == e.1)
  }

  /** What replaying a batch's line does, in one step per list. */
  function ApplyBatch(c: Cal, b: Batch): Cal {
    Cal(((c.events - b.deletes) + b.upserts) - b.aliasUpserts.Keys,
        ((c.aliases - b.aliasDeletes) - b.upserts.Keys) + b.aliasUpserts)
  }

  /** What the engine did in memory while it recorded the batch. */
  function Effect(c: Cal, b: Batch): Cal {
    Cal((c.events - b.deletes) + b.upserts, (c.aliases - b.aliasDeletes) + b.aliasUpserts)
  }

  lemma {:induction false} EditsConcat(c: Cal, a: seq<Edit>, b: seq<Edit>)
    ensures ApplyEdits(c, a + b) == ApplyEdits(ApplyEdits(c, a), b)
    decreases |b|
  {
    if b == [] {
      assert a + b == a;
    } else {
      assert (a + b)[..|a + b| - 1] == a + b[..|b| - 1];
      EditsConcat(c, a, b[..|b| - 1]);
    }
  }

  lemma {:induction false} EditDeletes(c: Cal, ids: seq<string>)
    ensures ApplyEdits(c, DeleteEdits(ids)) == c.(events := c.events - (set x | x in ids))
    ensures ApplyEdits(c, DeleteAliasEdits(ids)) == c.(aliases := c.aliases - (set x | x in ids))
  {
    if ids != [] {
      var init, id := ids[..|ids| - 1], ids[|ids| - 1];
      EditDeletes(c, init);
      assert ids == init + [id];
      assert (set x | x in ids) == (set x | x in init) + {id};
    }
  }

  function EventMap(evs: seq<Event>): map<string, Event>
    decreases |evs|
  {
    if evs == [] then map[] else EventMap(evs[..|evs| - 1])[evs[|evs| - 1].serverID := evs[|evs| - 1]]
  }

  function AliasMap(es: seq<(string, Alias)>): map<string, Alias>
    decreases |es|
  {
    if es == [] then map[] else AliasMap(es[..|es| - 1])[es[|es| - 1].0 := es[|es| - 1].1]
  }

  lemma {:induction false} PutOver<T>(m: map<string, T>, n: map<string, T>, id: string, v: T)
    ensures (m + n)[id := v] == m + n[id := v]
  {
  }

  lemma {:induction false} DropMore<T, U>(m: map<string, T>, n: map<string, U>, id: string, v: U)
    ensures (m - n.Keys) - {id} == m - n[id := v].Keys
  {
  }

  lemma {:induction false} EditUpserts(c: Cal, evs: seq<Event>)
    ensures ApplyEdits(c, UpsertEdits(evs)) == Cal(c.events + EventMap(evs), c.aliases - EventMap(evs).Keys)
    decreases |evs|
  {
    if evs != [] {
      var init, ev := evs[..|evs| - 1], evs[|evs| - 1];
      EditUpserts(c, init);
      PutOver(c.events, EventMap(init), ev.serverID, ev);
      DropMore(c.aliases, EventMap(init), ev.serverID, ev);
    }
  }

  lemma {:induction false} EditAliases(c: Cal, ps: seq<(string, Alias)>)
    ensures ApplyEdits(c, AliasEdits(ps)) == Cal(c.events - AliasMap(ps).Keys, c.aliases + AliasMap(ps))
    decreases |ps|
  {
    if ps != [] {
      var init, p := ps[..|ps| - 1], ps[|ps| - 1];
      EditAliases(c, init);
      PutOver(c.aliases, AliasMap(init), p.0, p.1);
      DropMore(c.events, AliasMap(init), p.0, p.1);
    }
  }

  lemma {:induction false} EventMapHolds(evs: seq<Event>, m: map<string, Event>)
    requires forall ev :: ev in evs ==> ev.serverID in m && m[ev.serverID] == ev
    ensures forall id :: id in EventMap(evs) <==> id in m && m[id].serverID == id && m[id] in evs
    ensures forall id :: id in EventMap(evs) ==> EventMap(evs)[id] == m[id]
    decreases |evs|
  {
    if evs != [] {
      EventMapHolds(evs[..|evs| - 1], m);
      assert evs == evs[..|evs| - 1] + [evs[|evs| - 1]];
    }
  }

  lemma {:induction false} AliasMapHolds(es: seq<(string, Alias)>, m: map<string, Alias>)
    requires forall e :: e in es ==> e.0 in m && m[e.0] == e.1
    ensures forall id :: id in AliasMap(es) <==> id in m && (id, m[id]) in es
    ensures forall id :: id in AliasMap(es) ==> AliasMap(es)[id] == m[id]
    decreases |es|
  {
    if es != [] {
      AliasMapHolds(es[..|es| - 1], m);
      assert es == es[..|es| - 1] + [es[|es| - 1]];
    }
  }

  /** Replaying a batch list by list. */
  lemma {:induction false} RecordInParts(c: Cal, r: Record)
    ensures ApplyEdits(c, RecordEdits(r))
      == ApplyEdits(ApplyEdits(ApplyEdits(ApplyEdits(c, DeleteEdits(r.deletes)), DeleteAliasEdits(r.deleteAliases)),
                               UpsertEdits(r.upserts)), AliasEdits(r.aliases))
  {
    var e1, e2, e3, e4 := DeleteEdits(r.deletes), DeleteAliasEdits(r.deleteAliases), UpsertEdits(r.upserts),
      AliasEdits(r.aliases);
    assert RecordEdits(r) == e1 + e2 + e3 + e4;
    EditsConcat(c, e1 + e2 + e3, e4);
    EditsConcat(c, e1 + e2, e3);
    EditsConcat(c, e1, e2);
  }

  lemma {:induction false} OneEdit(c: Cal, e: Edit)
    ensures ApplyEdits(c, [e]) == ApplyEdit(c, e)
  {
    assert [e][..0] == [];
  }

  lemma {:induction false} ListsReplay(c: Cal, r: Record)
    ensures ApplyEdits(c, RecordEdits(r))
      == Cal(((c.events - (set x | x in r.deletes)) + EventMap(r.upserts)) - AliasMap(r.aliases).Keys,
             ((c.aliases - (set x | x in r.deleteAliases)) - EventMap(r.upserts).Keys) + AliasMap(r.aliases))
  {
    RecordInParts(c, r);
    var c1 := c.(events := c.events - (set x | x in r.deletes));
    var c2 := c1.(aliases := c.aliases - (set x | x in r.deleteAliases));
    var c3 := Cal(c2.events + EventMap(r.upserts), c2.aliases - EventMap(r.upserts).Keys);
    EditDeletes(c, r.deletes);
    EditDeletes(c1, r.deleteAliases);
    EditUpserts(c2, r.upserts);
    EditAliases(c3, r.aliases);
  }

  lemma {:induction false} SerializedMaps(r: Record, b: Batch)
    requires WellKeyed(b) && Serializes(r, b)
    ensures (set x | x in r.deletes) == b.deletes && (set x | x in r.deleteAliases) == b.aliasDeletes
    ensures EventMap(r.upserts) == b.upserts && AliasMap(r.aliases) == b.aliasUpserts
  {
    EventMapHolds(r.upserts, b.upserts);
    AliasMapHolds(r.aliases, b.aliasUpserts);
    forall id | id in b.upserts ensures b.upserts[id] in r.upserts { assert b.upserts[id].serverID == id; }
    forall id | id in b.aliasUpserts ensures (id, b.aliasUpserts[id]) in r.aliases {
      assert (id, b.aliasUpserts[id]).0 == id;
    }
    assert EventMap(r.upserts) == b.upserts;
    assert AliasMap(r.aliases) == b.aliasUpserts;
  }

  /** Walking the four lists of a written batch, in replay's order, amounts to one
      simultaneous update. */
  lemma {:induction false} RecordReplays(c: Cal, r: Record, b: Batch)
    requires WellKeyed(b) && Serializes(r, b)
    ensures ApplyEdits(c, RecordEdits(r)) == ApplyBatch(c, b)
  {
    ListsReplay(c, r);
    SerializedMaps(r, b);
  }

  // ---------- agreement of disk, pending batch and memory ----------

  /** Replaying what is on disk and then the pending batch would give memory. */
  ghost predicate Agrees(disk: Cal, b: Batch, mem: Cal) {
    WellKeyed(b) && Effect(disk, b) == mem
  }

  /** The implicit removals of replay are redundant: no identifier is both an upsert
      and an alias upsert, because none is both visible and an alias in memory. */
  lemma {:induction false} AgreementReplays(disk: Cal, b: Batch, mem: Cal)
    requires Agrees(disk, b, mem) && Separated(mem)
    ensures ApplyBatch(disk, b) == mem
  {
    var c := ApplyBatch(disk, b);
    assert forall id :: id in b.upserts ==> id in mem.events;
    assert forall a :: a in b.aliasUpserts ==> a in mem.aliases;
    assert c.events == mem.events;
    assert c.aliases == mem.aliases;
  }

  /** One coordinate of the recorder: what is done to a map is what is recorded. */
  lemma {:induction false} RecordedPut<T>(m: map<string, T>, del: set<string>, ups: map<string, T>,
          more: map<string, T>)
    ensures (m - (del - more.Keys)) + (ups + more) == ((m - del) + ups) + more
  {
  }

  lemma {:induction false} RecordedDrop<T>(m: map<string, T>, del: set<string>, ups: map<string, T>, ids: set<string>)
    ensures (m - (del + ids)) + (ups - ids) == ((m - del) + ups) - ids
  {
  }

  lemma {:induction false} RecordedPutOne<T>(m: map<string, T>, del: set<string>, ups: map<string, T>, k: string, v: T)
    ensures (m - (del - {k})) + ups[k := v] == ((m - del) + ups)[k := v]
  {
    var more := map[k := v];
    RecordedPut(m, del, ups, more);
    assert more.Keys == {k};
    assert ups + more == ups[k := v];
    assert ((m - del) + ups) + more == ((m - del) + ups)[k := v];
  }

  lemma {:induction false} PutEventKeepsAgreement(disk: Cal, w: World, ev: Event)
    requires Agrees(disk, w.batch, w.cal)
    ensures Agrees(disk, PutEvent(w, ev).batch, PutEvent(w, ev).cal)
  {
    RecordedPutOne(disk.events, w.batch.deletes, w.batch.upserts, ev.serverID, ev);
  }

  lemma {:induction false} DropEventsKeepsAgreement(disk: Cal, w: World, ids: set<string>)
    requires Agrees(disk, w.batch, w.cal)
    ensures Agrees(disk, DropEvents(w, ids).batch, DropEvents(w, ids).cal)
  {
    RecordedDrop(disk.events, w.batch.deletes, w.batch.upserts, ids);
  }

  lemma {:induction false} PutAliasesKeepsAgreement(disk: Cal, w: World, m: map<string, Alias>)
    requires Agrees(disk, w.batch, w.cal)
    ensures Agrees(disk, PutAliases(w, m).batch, PutAliases(w, m).cal)
  {
    RecordedPut(disk.aliases, w.batch.aliasDeletes, w.batch.aliasUpserts, m);
  }

  lemma {:induction false} DropAliasesKeepsAgreement(disk: Cal, w: World, ids: set<string>)
    requires Agrees(disk, w.batch, w.cal)
    ensures Agrees(disk, DropAliases(w, ids).batch, DropAliases(w, ids).cal)
  {
    RecordedDrop(disk.aliases, w.batch.aliasDeletes, w.batch.aliasUpserts, ids);
  }

  lemma {:induction false} AddKeepsAgreement(disk: Cal, w: World, ev: Event, replay: bool)
    requires Agrees(disk, w.batch, w.cal)
    ensures var w' := AddEvent(w, ev, replay).0; Agrees(disk, w'.batch, w'.cal)
  {
    var id := ev.serverID;
    if id in w.cal.events {
      PutEventKeepsAgreement(disk, w, ev);
    } else if KeepsAlias(w.cal, ev) {
      var a := w.cal.aliases[id];
      PutAliasesKeepsAgreement(disk, w, map[id := Alias(a.canonicalID, ev.uid, a.replay || replay)]);
    } else {
      DropAliasesKeepsAgreement(disk, w, {id});
      PutEventKeepsAgreement(disk, Detach(w, id), ev);
      var target := FoldTarget(w.cal.events, ev, replay);
      if target.Some? { PutAliasesKeepsAgreement(disk, Detach(w, id), map[id := Alias(target.value, ev.uid, replay)]); }
    }
  }

  lemma {:induction false} ChangeKeepsAgreement(disk: Cal, w: World, ev: Event)
    requires Agrees(disk, w.batch, w.cal)
    ensures var w' := ChangeEvent(w, ev).0; Agrees(disk, w'.batch, w'.cal)
  {
    var id := ev.serverID;
    if id in w.cal.events {
      PutEventKeepsAgreement(disk, w, ev);
    } else if KeepsAlias(w.cal, ev) {
      PutAliasesKeepsAgreement(disk, w, map[id := w.cal.aliases[id].(uid := ev.uid)]);
    } else {
      DropAliasesKeepsAgreement(disk, w, {id});
      PutEventKeepsAgreement(disk, Detach(w, id), ev);
    }
  }

  lemma {:induction false} DeleteKeepsAgreement(disk: Cal, w: World, id: string)
    requires Agrees(disk, w.batch, w.cal)
    ensures var w' := DeleteEvent(w, id).0; Agrees(disk, w'.batch, w'.cal)
  {
    var c := w.cal;
    DropAliasesKeepsAgreement(disk, w, {id});
    DropEventsKeepsAgreement(disk, w, {id});
    if id !in c.aliases && id in c.events && Members(c, id) != {} {
      var heir := Least(Members(c, id));
      var promoted := c.events[id].(serverID := heir, uid := c.aliases[heir].uid);
      DropAliasesKeepsAgreement(disk, w, {heir});
      DropEventsKeepsAgreement(disk, DropAliases(w, {heir}), {id});
      var w2 := DropEvent(DropAliases(w, {heir}), id);
      PutEventKeepsAgreement(disk, w2, promoted);
      PutAliasesKeepsAgreement(disk, PutEvent(w2, promoted), Retargeted(c, Members(c, id) - {heir}, heir));
    }
  }

  lemma {:induction false} DedupeKeepsAgreement(disk: Cal, w: World)
    requires Agrees(disk, w.batch, w.cal)
    ensures Agrees(disk, Dedupe(w).batch, Dedupe(w).cal)
  {
    DropEventsKeepsAgreement(disk, w, Folded(w.cal.events));
    PutAliasesKeepsAgreement(disk, DropEvents(w, Folded(w.cal.events)), FoldedAliases(w.cal.events));
  }

  lemma {:induction false} ListsKeepAgreement(disk: Cal, w: World, evs: seq<Event>, ids: seq<string>, replay: bool)
    requires Agrees(disk, w.batch, w.cal)
    ensures var a := AddAll(w, evs, replay).0; Agrees(disk, a.batch, a.cal)
    ensures var c := ChangeAll(w, evs).0; Agrees(disk, c.batch, c.cal)
    ensures var d := DeleteAll(w, ids).0; Agrees(disk, d.batch, d.cal)
    decreases |evs| + |ids|
  {
    if evs != [] {
      var init, ev := evs[..|evs| - 1], evs[|evs| - 1];
      ListsKeepAgreement(disk, w, init, ids, replay);
      AddKeepsAgreement(disk, AddAll(w, init, replay).0, ev, replay);
      ChangeKeepsAgreement(disk, ChangeAll(w, init).0, ev);
    }
    if ids != [] {
      var init, id := ids[..|ids| - 1], ids[|ids| - 1];
      ListsKeepAgreement(disk, w, [], init, replay);
      DeleteKeepsAgreement(disk, DeleteAll(w, init).0, id);
    }
  }

  /** A whole server page, pruning included, is recorded faithfully. */
  lemma {:induction false} PageKeepsAgreement(disk: Cal, w: World, page: Page)
    requires Agrees(disk, w.batch, w.cal)
    ensures var w' := ApplyPage(w, page).0; Agrees(disk, w'.batch, w'.cal)
  {
    var replay := IsDuplicateReplay(page, w.cal);
    var w0 := if replay then PruneAliases(w, page.added) else w;
    DropAliasesKeepsAgreement(disk, w, Pruned(w.cal, page.added));
    ListsKeepAgreement(disk, w0, page.added, [], replay);
    var w1 := AddAll(w0, page.added, replay).0;
    ListsKeepAgreement(disk, w1, page.changed, [], false);
    ListsKeepAgreement(disk, ChangeAll(w1, page.changed).0, [], page.deleted, false);
  }
}
