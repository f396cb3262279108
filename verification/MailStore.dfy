/** The mail part of diskState and the mail round of the sync engine, in place. */
module MailStore {
  import opened Ids
  import opened Mail
  import opened MailMerge
  import opened Uids

  function Get<T>(m: map<string, T>, key: string, zero: T): T { if key in m then m[key] else zero }

  datatype Shard = Shard(items: seq<EmailItem>, uids: seq<UidEntry>, deleted: set<string>)

  datatype MailReply = MailPageReply(page: MailPage) | Status5 | Failure

  datatype Outcome = Completed | Failed | TooManyPages | NotWritten

  const MAX_PAGES := 500

  // ---------- syncMailOnce: what the server's replies amount to ----------

  /** The pages since the last reply that was none. */
  ghost function Received(server: nat -> MailReply, calls: nat): seq<MailPage> {
    if calls == 0 || !server(calls - 1).MailPageReply? then []
    else Received(server, calls - 1) + [server(calls - 1).page]
  }

  ghost function Refusals(server: nat -> MailReply, calls: nat): seq<MailReply> {
    if calls == 0 then []
    else Refusals(server, calls - 1) + if server(calls - 1).MailPageReply? then [] else [server(calls - 1)]
  }

  ghost predicate AllHaveMore(server: nat -> MailReply, calls: nat) {
    forall i: nat :: i < calls && server(i).MailPageReply? ==> server(i).page.moreAvailable
  }

  /** The calls of a round: pages with more to follow, at most one refusal that was answered
      with a reset, and a last reply; and the pages that are merged. */
  ghost predicate Fetched(server: nat -> MailReply, calls: nat, reset: bool, pages: seq<MailPage>) {
    && 0 < calls <= (if reset then 1000 else 500)
    && AllHaveMore(server, calls - 1)
    && var last := server(calls - 1);
    && Refusals(server, calls)
       == (if reset then [Status5] else []) + (if last.MailPageReply? then [] else [last])
    && (last == Status5 ==> reset)
    && pages == Received(server, if last.MailPageReply? then calls else calls - 1)
  }

  ghost predicate Ending(outcome: Outcome, server: nat -> MailReply, calls: nat, reset: bool)
    requires calls > 0
  {
    var last := server(calls - 1);
    match outcome
    case Completed => last.MailPageReply? && !last.page.moreAvailable
    case Failed => !last.MailPageReply?
    case TooManyPages => last.MailPageReply? && last.page.moreAvailable && calls >= if reset then 501 else 500
    case NotWritten => true
  }

  // ---------- syncMailOnce: merging what was collected ----------

  /** The body of the merge closure: adds, changes, then deletes as a filter. */
  method MergeCollected(items: seq<EmailItem>, added: seq<EmailItem>, changed: seq<EmailItem>, deleted: seq<string>)
    returns (merged: seq<EmailItem>, invalidated: seq<string>)
    ensures merged == Merged(items, added, changed, deleted)
    ensures invalidated == Invalidated(BoxOf(items), added, changed, deleted)
  {
    var box := Load(items);
    var fromAdds: seq<string>, fromChanges: seq<string>;
    box, fromAdds := ApplyAdds(box, added);
    box, fromChanges := ApplyChanges(box, changed);
    merged := WithoutDeleted(box, deleted);
    invalidated := fromAdds + fromChanges + deleted;
    RunConcat(BoxOf(items), Adds(added) + Changes(changed), Deletes(deleted));
    RunConcat(BoxOf(items), Adds(added), Changes(changed));
  }

  method Load(items: seq<EmailItem>) returns (b: Box)
    ensures b == BoxOf(items)
  {
    var existing: map<string, EmailItem>, order: seq<string> := map[], [];
    for i := 0 to |items|
      invariant Box(order, existing) == BoxOf(items[..i])
    {
      assert items[..i + 1][..i] == items[..i];
      existing := existing[items[i].serverID := items[i]];
      order := order + [items[i].serverID];
    }
    assert items[..|items|] == items;
    b := Box(order, existing);
  }

  method ApplyAdds(start: Box, added: seq<EmailItem>) returns (b: Box, invalidated: seq<string>)
    ensures b == Run(start, Adds(added)) && invalidated == IDs(added)
  {
    var existing, order := start.store, start.order;
    invalidated := [];
    for i := 0 to |added|
      invariant Box(order, existing) == Run(start, Adds(added[..i]))
      invariant invalidated == IDs(added[..i])
    {
      assert added[..i + 1][..i] == added[..i];
      var it := added[i];
      if it.serverID !in existing {
        order := order + [it.serverID];
      }
      existing := existing[it.serverID := it];
      invalidated := invalidated + [it.serverID];
    }
    assert added[..|added|] == added;
    b := Box(order, existing);
  }

  /** The first loop of assignUIDs. */
  method KnownUIDs(entries: seq<UidEntry>) returns (sidMap: map<string, nat>)
    ensures sidMap == Lookup(entries)
  {
    sidMap := map[];
    for i := 0 to |entries|
      invariant sidMap == Lookup(entries[..i])
    {
      assert entries[..i + 1][..i] == entries[..i];
      sidMap := sidMap[entries[i].serverID := entries[i].uid];
    }
    assert entries[..|entries|] == entries;
  }

  /** The second loop of assignUIDs. */
  method GiveUIDs(known: map<string, nat>, start: nat, list: seq<EmailItem>)
    returns (sidMap: map<string, nat>, next: nat)
    ensures Allocation(sidMap, next) == Allocate(known, start, list)
  {
    sidMap, next := known, start;
    for i := 0 to |list|
      invariant Allocation(sidMap, next) == Allocate(known, start, list[..i])
    {
      assert list[..i + 1][..i] == list[..i];
      if list[i].serverID !in sidMap {
        sidMap := sidMap[list[i].serverID := next];
        next := next + 1;
      }
    }
    assert list[..|list|] == list;
  }

  method ApplyChanges(start: Box, changed: seq<EmailItem>) returns (b: Box, invalidated: seq<string>)
    ensures b == Run(start, Changes(changed)) && invalidated == ChangedIDs(start, changed)
  {
    var existing, order := start.store, start.order;
    invalidated := [];
    for i := 0 to |changed|
      invariant Box(order, existing) == Run(start, Changes(changed[..i]))
      invariant invalidated == ChangedIDs(start, changed[..i])
    {
      assert changed[..i + 1][..i] == changed[..i];
      var it := changed[i];
      var before := if it.serverID in existing then existing[it.serverID] else ZERO_ITEM;
      if it.serverID !in existing {
        order := order + [it.serverID];
      }
      var after := MergeEmailChange(before, it);
      existing := existing[it.serverID := after];
      if !MIMEContentEqual(before, after) {
        invalidated := invalidated + [it.serverID];
      }
    }
    assert changed[..|changed|] == changed;
    b := Box(order, existing);
  }

  method WithoutDeleted(b: Box, deleted: seq<string>) returns (merged: seq<EmailItem>)
    ensures merged == Items(Run(b, Deletes(deleted)))
  {
    var deletedIDs: set<string> := {};
    for i := 0 to |deleted|
      invariant deletedIDs == Elems(deleted[..i])
    {
      assert deleted[..i + 1] == deleted[..i] + [deleted[i]];
      deletedIDs := deletedIDs + {deleted[i]};
    }
    assert deleted[..|deleted|] == deleted;
    merged := [];
    for i := 0 to |b.order|
      invariant merged == Listed(Filtered(b.order[..i], deletedIDs), b.store)
    {
      assert b.order[..i + 1] == b.order[..i] + [b.order[i]];
      FilteredSnoc(b.order[..i], b.order[i], deletedIDs, b.store);
      if b.order[i] !in deletedIDs && b.order[i] in b.store {
        merged := merged + [b.store[b.order[i]]];
      }
    }
    assert b.order[..|b.order|] == b.order;
    DeletesFilter(b, deleted);
    ListedUnderFilter(b.order, b.store, deletedIDs);
  }

  function Filtered(order: seq<string>, gone: set<string>): seq<string>
    decreases |order|
  {
    if order == [] then []
    else Filtered(order[..|order| - 1], gone) + (if order[|order| - 1] in gone then [] else [order[|order| - 1]])
  }

  lemma {:induction false} FilteredSnoc(order: seq<string>, id: string, gone: set<string>,
          store: map<string, EmailItem>)
    ensures Listed(Filtered(order + [id], gone), store)
      == Listed(Filtered(order, gone), store) + if id !in gone && id in store then [store[id]] else []
  {
    assert (order + [id])[..|order|] == order;
    if id in gone {
      assert Filtered(order, gone) + [] == Filtered(order, gone);
    } else {
      ListedSnoc(Filtered(order, gone), store, id);
    }
  }

  lemma {:induction false} FilterOneMore(order: seq<string>, gone: set<string>, id: string)
    ensures Without(Filtered(order, gone), id) == Filtered(order, gone + {id})
    decreases |order|
  {
    if order != [] {
      var init, last := order[..|order| - 1], order[|order| - 1];
      FilterOneMore(init, gone, id);
      WithoutAppended(Filtered(init, gone), id, last);
      assert Filtered(init, gone) + [] == Filtered(init, gone);
    }
  }

  lemma {:induction false} FilterNothing(order: seq<string>)
    ensures Filtered(order, {}) == order
    decreases |order|
  {
    if order != [] { FilterNothing(order[..|order| - 1]); }
  }

  /** Deleting one by one is filtering the order and forgetting the items. */
  lemma {:induction false} DeletesFilter(b: Box, deleted: seq<string>)
    ensures Run(b, Deletes(deleted)) == Box(Filtered(b.order, Elems(deleted)), b.store - Elems(deleted))
    decreases |deleted|
  {
    if deleted == [] {
      FilterNothing(b.order);
      assert Elems(deleted) == {} && b.store - {} == b.store;
    } else {
      var init, id := deleted[..|deleted| - 1], deleted[|deleted| - 1];
      assert deleted == init + [id];
      DeletesFilter(b, init);
      assert Elems(deleted) == Elems(init) + {id};
      FilterOneMore(b.order, Elems(init), id);
      assert (b.store - Elems(init)) - {id} == b.store - Elems(deleted);
    }
  }

  lemma {:induction false} ListedUnderFilter(order: seq<string>, store: map<string, EmailItem>, gone: set<string>)
    ensures Listed(Filtered(order, gone), store) == Listed(Filtered(order, gone), store - gone)
    decreases |order|
  {
    if order != [] {
      var init, last := order[..|order| - 1], order[|order| - 1];
      ListedUnderFilter(init, store, gone);
      assert init + [last] == order;
      FilteredSnoc(init, last, gone, store);
      FilteredSnoc(init, last, gone, store - gone);
    }
  }

  // ---------- diskState ----------

  /** A method that does to memory and files what a step of the UID machine does. */
  predicate Steps(mem: Mem, files: Files, step: Step, mem': Mem, files': Files) {
    var t := Next(Machine(mem, files, {}), step);
    t.mem == mem' && t.files == files'
  }

  function FateOf(mainWritten: bool, shardWritten: bool): Fate {
    if !mainWritten then MainNotWritten else if shardWritten then BothWritten else ShardNotWritten
  }

  lemma {:induction false} InstallSteps(mem: Mem, files: Files, list: seq<EmailItem>, now: nat, mainWritten: bool,
          shardWritten: bool)
    ensures var r := Assign(mem.meta, mem.uids, list, now);
      Steps(mem, files, AssignStep(list, now, FateOf(mainWritten, shardWritten)), Mem(r.items, r.uids, r.meta),
            Installed(files, Mem(r.items, r.uids, r.meta), mainWritten, shardWritten))
  {
  }

  function Installed(files: Files, mem: Mem, mainWritten: bool, shardWritten: bool): Files {
    if !mainWritten then files
    else if shardWritten then Files(mem.meta, mem.items, mem.uids) else files.(main := mem.meta)
  }

  class MailState {
    var items: map<string, seq<EmailItem>>
    var uids: map<string, seq<UidEntry>>
    var folderMeta: map<string, Meta>
    var deleted: map<string, set<string>>   // messages marked \Deleted
    var main: map<string, Meta>        // FolderMeta as written in state.json
    var shards: map<string, Shard>     // folders/<id>.json

    function Folder(folderID: string): Mem
      reads this
    {
      Mem(Get(items, folderID, []), Get(uids, folderID, []), Get(folderMeta, folderID, NO_META))
    }

    function FilesOf(folderID: string): Files
      reads this
    {
      var shard := Get(shards, folderID, Shard([], [], {}));
      Files(Get(main, folderID, NO_META), shard.items, shard.uids)
    }

    /** assignUIDs.  `now` is the clock a fresh UIDVALIDITY is taken from; counters are
        taken to stay below 2^32. */
    method AssignUIDs(folderID: string, list: seq<EmailItem>, now: nat) returns (result: seq<EmailItem>)
      modifies this`uids, this`folderMeta
      ensures var was := old(Folder(folderID));
        var r := Assign(was.meta, was.uids, list, now);
        && result == r.items
        && uids == old(uids)[folderID := r.uids] && folderMeta == old(folderMeta)[folderID := r.meta]
    {
      var entries := Get(uids, folderID, []);
      var meta := Get(folderMeta, folderID, NO_META);
      var validity := if meta.uidValidity == 0 then now else meta.uidValidity;
      var next := ClampNext(if meta.nextUID == 0 then 1 else meta.nextUID, entries);
      var sidMap := KnownUIDs(entries);
      sidMap, next := GiveUIDs(sidMap, next, list);
      folderMeta := folderMeta[folderID := Meta(next, validity)];
      var rebuilt: seq<UidEntry>;
      result, rebuilt := ListByUID(list, sidMap);
      uids := uids[folderID := rebuilt];
    }

    method SaveMain(written: bool)
      modifies this`main
      ensures main == if written then folderMeta else old(main)
    {
      if written {
        main := folderMeta;
      }
    }

    method SaveFolder(folderID: string, written: bool)
      modifies this`shards
      ensures shards == if written
        then old(shards)[folderID := Shard(Folder(folderID).items, Folder(folderID).uids, Get(deleted, folderID, {}))]
        else old(shards)
    {
      if written {
        var shard := Shard(Get(items, folderID, []), Get(uids, folderID, []), Get(deleted, folderID, {}));
        shards := shards[folderID := shard];
      }
    }

    /** The main file first, the shard only if that worked. */
    method SaveBoth(folderID: string, mainWritten: bool, shardWritten: bool)
      modifies this`main, this`shards
      ensures FilesOf(folderID) == Installed(old(FilesOf(folderID)), Folder(folderID), mainWritten, shardWritten)
    {
      SaveMain(mainWritten);
      if mainWritten {
        SaveFolder(folderID, shardWritten);
      }
    }

    /** Installs a new item list: assign UIDs, write the main file, then the shard. */
    method Install(folderID: string, list: seq<EmailItem>, now: nat, mainWritten: bool, shardWritten: bool)
      returns (ok: bool)
      modifies this
      ensures ok == (mainWritten && shardWritten)
      ensures Steps(old(Folder(folderID)), old(FilesOf(folderID)),
                    AssignStep(list, now, FateOf(mainWritten, shardWritten)),
                    Folder(folderID), FilesOf(folderID))
      ensures forall f :: f != folderID ==> Folder(f) == old(Folder(f))
    {
      ghost var was, files := Folder(folderID), FilesOf(folderID);
      ghost var r := Assign(was.meta, was.uids, list, now);
      InstallSteps(was, files, list, now, mainWritten, shardWritten);
      var result := AssignUIDs(folderID, list, now);
      items := items[folderID := result];
      assert Folder(folderID) == Mem(r.items, r.uids, r.meta);
      SaveBoth(folderID, mainWritten, shardWritten);
      ok := mainWritten && shardWritten;
    }

    /** addMovedItems: the moved messages go behind those already there. */
    method AddMovedItems(folderID: string, moved: seq<EmailItem>, now: nat, mainWritten: bool, shardWritten: bool)
      returns (ok: bool)
      modifies this
      ensures ok == (mainWritten && shardWritten)
      ensures Steps(old(Folder(folderID)), old(FilesOf(folderID)),
                    AssignStep(old(Folder(folderID)).items + moved, now, FateOf(mainWritten, shardWritten)),
                    Folder(folderID), FilesOf(folderID))
      ensures forall f :: f != folderID ==> Folder(f) == old(Folder(f))
    {
      ok := Install(folderID, Get(items, folderID, []) + moved, now, mainWritten, shardWritten);
    }

    /** removeItems: marks of removed messages go with them; the UID list is left alone until
        the next assignment. */
    method RemoveItems(folderID: string, ids: seq<string>, written: bool)
      modifies this`items, this`deleted, this`shards
      ensures Steps(old(Folder(folderID)), old(FilesOf(folderID)), RemoveStep(Elems(ids), written),
                    Folder(folderID), FilesOf(folderID))
      ensures deleted == if folderID in old(deleted)
        then old(deleted)[folderID := old(deleted)[folderID] - Elems(ids)] else old(deleted)
      ensures written ==> folderID in shards && shards[folderID].deleted == Get(deleted, folderID, {})
    {
      var list := Get(items, folderID, []);
      var drop := Elems(ids);
      var kept: seq<EmailItem> := [];
      for i := 0 to |list|
        invariant kept == Kept(list[..i], drop)
      {
        assert list[..i + 1][..i] == list[..i];
        if list[i].serverID !in drop {
          kept := kept + [list[i]];
        }
      }
      assert list[..|list|] == list;
      items := items[folderID := kept];
      if folderID in deleted {
        ClearMarks(folderID, ids);
      }
      SaveFolder(folderID, written);
    }

    method ClearMarks(folderID: string, ids: seq<string>)
      requires folderID in deleted
      modifies this`deleted
      ensures deleted == old(deleted)[folderID := old(deleted)[folderID] - Elems(ids)]
    {
      var marks := deleted[folderID];
      for i := 0 to |ids|
        invariant marks == deleted[folderID] - Elems(ids[..i])
      {
        assert ids[..i + 1] == ids[..i] + [ids[i]];
        assert Elems(ids[..i + 1]) == Elems(ids[..i]) + {ids[i]};
        marks := marks - {ids[i]};
      }
      assert ids[..|ids|] == ids;
      deleted := deleted[folderID := marks];
    }

    /** syncMailOnce.  `server` answers the i-th request.  A reset of the sync key writes the
        main file at once.  Whatever was collected since the last reset is merged, also when a
        later page failed; when the result cannot be written, the message cache is left as it
        is. */
    method SyncMailOnce(folderID: string, server: nat -> MailReply, now: nat, keyMoved: bool, resetWritten: bool,
                        mainWritten: bool, shardWritten: bool)
      returns (outcome: Outcome, calls: nat, reset: bool, invalidated: seq<string>, ghost pages: seq<MailPage>)
      modifies this
      ensures Fetched(server, calls, reset, pages) && Ending(outcome, server, calls, reset)
      ensures var was, files := old(Folder(folderID)), old(FilesOf(folderID));
        var (a, c, d) := Collected(pages);
        var atMerge := if reset && resetWritten then files.(main := was.meta) else files;
        if a == [] && c == [] && d == [] then
          && Folder(folderID) == was && invalidated == []
          && FilesOf(folderID) == if keyMoved && mainWritten then files.(main := was.meta) else atMerge
        else
          && Steps(was, atMerge, AssignStep(Merged(was.items, a, c, d), now, FateOf(mainWritten, shardWritten)),
                   Folder(folderID), FilesOf(folderID))
          && (outcome == NotWritten <==> !(mainWritten && shardWritten))
          && invalidated == if outcome == NotWritten then [] else Invalidated(BoxOf(was.items), a, c, d)
      ensures outcome == Completed ==> pages != [] && !pages[|pages| - 1].moreAvailable
    {
      var added: seq<EmailItem>, changed: seq<EmailItem>, deleted: seq<string>;
      outcome, calls, reset, added, changed, deleted, pages := Collect(server);
      if reset {
        SaveMain(resetWritten);
      }
      invalidated := [];
      if |added| == 0 && |changed| == 0 && |deleted| == 0 {
        if keyMoved {
          SaveMain(mainWritten);
        }
        return;
      }
      var merged: seq<EmailItem>, stale: seq<string>;
      merged, stale := MergeCollected(Get(items, folderID, []), added, changed, deleted);
      var ok := Install(folderID, merged, now, mainWritten, shardWritten);
      if ok {
        invalidated := stale;
      } else {
        outcome := NotWritten;
      }
    }
  }

  /** NextUID may have fallen behind the list when the main file is older than the shard. */
  method ClampNext(first: nat, entries: seq<UidEntry>) returns (next: nat)
    ensures next == Clamp(first, entries)
  {
    next := first;
    for i := 0 to |entries|
      invariant next == Clamp(first, entries[..i])
    {
      assert entries[..i + 1][..i] == entries[..i];
      if entries[i].uid >= next {
        next := entries[i].uid + 1;
      }
    }
    assert entries[..|entries|] == entries;
  }

  /** The messages in UID order, and the UID list rebuilt to match. */
  method ListByUID(list: seq<EmailItem>, sidMap: map<string, nat>)
    returns (result: seq<EmailItem>, rebuilt: seq<UidEntry>)
    ensures result == Untag(Sort(Tag(list, sidMap))) && rebuilt == Entries(Sort(Tag(list, sidMap)))
  {
    var tagged: seq<Tagged> := [];
    for i := 0 to |list|
      invariant tagged == Tag(list[..i], sidMap)
    {
      assert list[..i + 1][..i] == list[..i];
      tagged := tagged + [Tagged(list[i], Get(sidMap, list[i].serverID, 0))];
    }
    assert list[..|list|] == list;
    tagged := Sort(tagged);
    result, rebuilt := [], [];
    for i := 0 to |tagged|
      invariant result == Untag(tagged[..i]) && rebuilt == Entries(tagged[..i])
    {
      assert tagged[..i + 1][..i] == tagged[..i];
      result := result + [tagged[i].item];
      rebuilt := rebuilt + [UidEntry(tagged[i].item.serverID, tagged[i].uid)];
    }
    assert tagged[..|tagged|] == tagged;
  }

  /** The page loop of syncMailOnce, with its one reset on Status 5. */
  method Collect(server: nat -> MailReply)
    returns (outcome: Outcome, calls: nat, reset: bool, added: seq<EmailItem>, changed: seq<EmailItem>,
             deleted: seq<string>, ghost pages: seq<MailPage>)
    ensures Fetched(server, calls, reset, pages) && Ending(outcome, server, calls, reset) && outcome != NotWritten
    ensures (added, changed, deleted) == Collected(pages)
    ensures outcome == Completed ==> pages != [] && !pages[|pages| - 1].moreAvailable
  {
    added, changed, deleted, pages := [], [], [], [];
    calls := 0;
    var page := 0;
    reset := false;
    while page < MAX_PAGES
      invariant 0 <= page <= MAX_PAGES
      invariant page + (if reset then 1 else 0) <= calls <= (if reset then MAX_PAGES else 0) + page
      invariant AllHaveMore(server, calls) && Refusals(server, calls) == if reset then [Status5] else []
      invariant pages == Received(server, calls) && (page > 0 ==> server(calls - 1).MailPageReply?)
      invariant (added, changed, deleted) == Collected(pages)
      decreases !reset, MAX_PAGES - page
    {
      var reply := server(calls);
      calls := calls + 1;
      if reply == Status5 && !reset {
        reset, page := true, 0;
        added, changed, deleted, pages := [], [], [], [];
        continue;
      }
      if !reply.MailPageReply? {
        outcome := Failed;
        return;
      }
      added, changed, deleted := added + reply.page.added, changed + reply.page.changed, deleted + reply.page.deleted;
      assert (pages + [reply.page])[..|pages|] == pages;
      pages := pages + [reply.page];
      if !reply.page.moreAvailable {
        outcome := Completed;
        return;
      }
      page := page + 1;
    }
    outcome := TooManyPages;
  }
}
