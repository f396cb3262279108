/** What single steps of the UID machine leave behind: consecutive numbers, removals that
    touch nothing else, and what a restart finds after each way of writing. */
module UidSteps {
  import opened Ids
  import opened Mail
  import opened MailMerge
  import opened Uids

  // ---------- numbers are given without gaps ----------

  /** Some identifier not known before has this number. */
  ghost predicate GivenTo(known: map<string, nat>, a: Allocation, uid: nat) {
    exists id :: id in a.known && id !in known && a.known[id] == uid
  }

  lemma {:induction false} AllocateHasNoGaps(known: map<string, nat>, next: nat, items: seq<EmailItem>, uid: nat)
    requires Injective(known) && Below(known, next)
    requires next <= uid < Allocate(known, next, items).next
    ensures GivenTo(known, Allocate(known, next, items), uid)
    decreases |items|
  {
    var init, id := items[..|items| - 1], items[|items| - 1].serverID;
    AllocateLaws(known, next, init);
    var a, b := Allocate(known, next, init), Allocate(known, next, items);
    if uid < a.next {
      AllocateHasNoGaps(known, next, init, uid);
      var other :| other in a.known && other !in known && a.known[other] == uid;
      assert other in b.known && b.known[other] == uid;
    } else {
      assert id in b.known && id !in known && b.known[id] == uid;
    }
  }

  /** The new messages get the numbers from the counter on, and the counter ends behind them:
      nothing is skipped. */
  lemma {:induction false} NewUidsAreConsecutive(meta: Meta, uids: seq<UidEntry>, items: seq<EmailItem>, now: nat,
          uid: nat)
    requires Unique(uids) && Distinct(IDs(items))
    ensures var r, start := Assign(meta, uids, items, now), StartMeta(meta, uids, now);
      start.nextUID <= uid < r.meta.nextUID <==> exists e :: e in r.uids && e !in uids && e.uid == uid
  {
    var r, start := Assign(meta, uids, items, now), StartMeta(meta, uids, now);
    AssignLaws(meta, uids, items, now);
    LookupHolds(uids);
    LookupBelow(uids, start.nextUID);
    AllocateLaws(Lookup(uids), start.nextUID, items);
    if start.nextUID <= uid < r.meta.nextUID {
      AllocateHasNoGaps(Lookup(uids), start.nextUID, items, uid);
      var a := Allocate(Lookup(uids), start.nextUID, items);
      var id :| id in a.known && id !in Lookup(uids) && a.known[id] == uid;
      EntryOf(meta, uids, items, now, UidEntry(id, uid));
      assert UidEntry(id, uid) in r.uids && UidEntry(id, uid) !in uids;
    }
  }

  /** The counter starts from the least number that is neither below the recorded one, or 1 if
      none was recorded, nor taken by the list. */
  lemma {:induction false} CounterIsLeast(meta: Meta, uids: seq<UidEntry>, now: nat, n: nat)
    ensures var next := StartMeta(meta, uids, now).nextUID;
      next <= n <==> 1 <= n && meta.nextUID <= n && forall e :: e in uids ==> e.uid < n
  {
    ClampIsLeast(if meta.nextUID == 0 then 1 else meta.nextUID, uids, n);
  }

  lemma {:induction false} ClampIsLeast(first: nat, uids: seq<UidEntry>, n: nat)
    ensures Clamp(first, uids) <= n <==> first <= n && forall e :: e in uids ==> e.uid < n
    decreases |uids|
  {
    if uids != [] {
      var init, last := uids[..|uids| - 1], uids[|uids| - 1];
      assert uids == init + [last];
      ClampIsLeast(first, init, n);
    }
  }

  /** The first message of a folder has UID 1, and the folder's UIDVALIDITY is the time it got
      it. */
  lemma {:induction false} FirstUidIsOne(x: EmailItem, now: nat)
    ensures Assign(NO_META, [], [x], now).uids == [UidEntry(x.serverID, 1)]
    ensures Assign(NO_META, [], [x], now).meta == Meta(2, now)
  {
    AssignOne(NO_META, [], x, now);
    AllocateOne(Lookup([]), 1, x);
  }

  // ---------- removals ----------

  lemma {:induction false} KeptCounts(items: seq<EmailItem>, ids: set<string>, x: EmailItem)
    ensures multiset(Kept(items, ids))[x] == if x.serverID in ids then 0 else multiset(items)[x]
    decreases |items|
  {
    if items != [] {
      var init, last := items[..|items| - 1], items[|items| - 1];
      assert items == init + [last];
      KeptCounts(init, ids, x);
    }
  }

  lemma {:induction false} KeptInOrder(items: seq<EmailItem>, ids: set<string>, m: nat, n: nat)
    requires m < n < |Kept(items, ids)|
    ensures Precedes(items, Kept(items, ids)[m], Kept(items, ids)[n])
    decreases |items|
  {
    var init, last, kept := items[..|items| - 1], items[|items| - 1], Kept(items, ids);
    if last.serverID !in ids && n == |kept| - 1 {
      KeptCounts(init, ids, kept[m]);
      assert kept[m] in Kept(init, ids);
      var i :| 0 <= i < |init| && init[i] == kept[m];
      assert items[i] == kept[m] && items[|items| - 1] == kept[n];
    } else {
      KeptInOrder(init, ids, m, n);
      var i, j :| 0 <= i < j < |init| && init[i] == kept[m] && init[j] == kept[n];
      assert items[i] == kept[m] && items[j] == kept[n];
    }
  }

  /** A removal takes exactly the named messages, keeps the order of the others, and shows no
      UID that was not shown before. */
  lemma {:induction false} RemovalTakesOnlyTheNamed(s: Machine, ids: set<string>, written: bool)
    ensures var t := Next(s, RemoveStep(ids, written));
      && t.mem.uids == s.mem.uids && t.mem.meta == s.mem.meta && t.files.main == s.files.main
      && t.shown == s.shown + ShownNow(s.mem)
      && (forall x :: multiset(t.mem.items)[x] == if x.serverID in ids then 0 else multiset(s.mem.items)[x])
      && (forall m, n :: 0 <= m < n < |t.mem.items| ==> Precedes(s.mem.items, t.mem.items[m], t.mem.items[n]))
  {
    forall x ensures multiset(Kept(s.mem.items, ids))[x] == if x.serverID in ids then 0 else multiset(s.mem.items)[x] {
      KeptCounts(s.mem.items, ids, x);
    }
    var kept := Kept(s.mem.items, ids);
    forall m, n | 0 <= m < n < |kept| ensures Precedes(s.mem.items, kept[m], kept[n]) {
      KeptInOrder(s.mem.items, ids, m, n);
    }
  }

  // ---------- restarts ----------

  /** With both files written, a restart finds what memory held. */
  lemma {:induction false} WrittenSurvives(s: Machine, items: seq<EmailItem>, now: nat)
    ensures var t := Next(s, AssignStep(items, now, BothWritten));
      Next(t, CrashStep).mem == t.mem && t.mem.meta.nextUID >= s.mem.meta.nextUID
    ensures Next(After(s, [SaveMainStep, SaveShardStep]), CrashStep).mem == s.mem
    ensures Next(After(s, [SaveShardStep, SaveMainStep]), CrashStep).mem == s.mem
  {
    AfterTwo(s, SaveMainStep, SaveShardStep);
    AfterTwo(s, SaveShardStep, SaveMainStep);
    var r := Assign(s.mem.meta, s.mem.uids, items, now);
    AllocateGrows(Lookup(s.mem.uids), StartMeta(s.mem.meta, s.mem.uids, now).nextUID, items);
    assert r.meta.nextUID >= s.mem.meta.nextUID;
  }

  lemma {:induction false} AfterTwo(s: Machine, x: Step, y: Step)
    ensures After(s, [x, y]) == Next(Next(s, x), y)
  {
    assert [x, y][..1] == [x] && [x][..0] == [] && After(s, []) == s;
    assert After(s, [x]) == Next(s, x);
  }

  lemma {:induction false} AllocateGrows(known: map<string, nat>, next: nat, items: seq<EmailItem>)
    ensures Allocate(known, next, items).next >= next
    decreases |items|
  {
    if items != [] { AllocateGrows(known, next, items[..|items| - 1]); }
  }

  /** A process that goes on shows the new list, whatever could be written. */
  lemma {:induction false} NewListIsShown(s: Machine, items: seq<EmailItem>, now: nat, fate: Fate, e: UidEntry)
    requires fate in {BothWritten, ShardNotWritten, MainNotWritten}
    ensures var r, t := Assign(s.mem.meta, s.mem.uids, items, now), Next(s, AssignStep(items, now, fate));
      && t.mem == Mem(r.items, r.uids, r.meta) && s.shown <= t.shown
      && (e in r.uids ==> Shown(r.meta.uidValidity, e.uid, e.serverID) in t.shown)
  {
    var r, t := Assign(s.mem.meta, s.mem.uids, items, now), Next(s, AssignStep(items, now, fate));
    assert t.shown == s.shown + ShownNow(Mem(r.items, r.uids, r.meta));
  }

  /** A process that dies between the two writes comes back with the old list and the new
      counter, whether it died in between or went on and died later; one that dies before
      them, with the old files. */
  lemma {:induction false} HalfWrittenRestarts(s: Machine, items: seq<EmailItem>, now: nat)
    ensures var meta := Assign(s.mem.meta, s.mem.uids, items, now).meta;
      && Next(s, AssignStep(items, now, CrashBetweenWrites)).mem == Mem(s.files.items, s.files.uids, meta)
      && Next(Next(s, AssignStep(items, now, ShardNotWritten)), CrashStep).mem == Mem(s.files.items, s.files.uids, meta)
      && Next(s, AssignStep(items, now, CrashBeforeWrites)).mem == Mem(s.files.items, s.files.uids, s.files.main)
      && Next(Next(s, AssignStep(items, now, MainNotWritten)), CrashStep).mem
         == Mem(s.files.items, s.files.uids, s.files.main)
  {
    var r := Assign(s.mem.meta, s.mem.uids, items, now);
    assert Next(s, AssignStep(items, now, ShardNotWritten)).files == s.files.(main := r.meta);
    assert Next(s, AssignStep(items, now, MainNotWritten)).files == s.files;
  }

  /** The messages of a round that was lost half-way get other numbers the next time. */
  lemma {:induction false} RepeatedRoundTakesNewUids(s: Machine, items: seq<EmailItem>, now: nat, later: nat)
    requires Safe(s) && Distinct(IDs(items))
    ensures var lost := Next(s, AssignStep(items, now, CrashBetweenWrites));
      var again := Next(lost, AssignStep(items, later, BothWritten));
      forall e :: e in again.mem.uids && e !in s.files.uids ==>
                    e.uid >= Assign(s.mem.meta, s.mem.uids, items, now).meta.nextUID
  {
    var lost := Next(s, AssignStep(items, now, CrashBetweenWrites));
    AssignLaws(s.mem.meta, s.mem.uids, items, now);
    AssignLaws(lost.mem.meta, lost.mem.uids, items, later);
  }
}
