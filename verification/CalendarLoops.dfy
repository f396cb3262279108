/** What the loops over the calendar maps amount to: each loop mirrored by a fold, and
    each fold by one simultaneous change of the maps. */
module CalendarLoops {
  import opened Ids
  import opened Calendar
  import opened CalendarLaws
  import opened CalendarIndex
  import opened EventLog
  import opened CalendarRun
  import CalendarRepair
  import CalendarReplay

  lemma {:induction false} HeadIsLeast(ids: seq<string>, s: set<string>)
    requires Lists(ids, s) && ids != []
    ensures s != {} && Least(s) == ids[0]
    ensures Elems(ids[1..]) == s - {ids[0]}
  {
    assert ids[0] in s;
    forall y | y in s && y != ids[0] ensures Less(ids[0], y) {
      assert y in ids;
    }
    LeastUnique(ids[0], s);
    forall x ensures x in ids[1..] <==> x in s - {ids[0]} { ListingTail(ids, s, x); }
  }

  lemma {:induction false} PutNoAliases(w: World)
    ensures PutAliases(w, map[]) == w
  {
    assert w.cal.aliases + map[] == w.cal.aliases && w.batch.aliasUpserts + map[] == w.batch.aliasUpserts;
    var none: map<string, Alias> := map[];
    assert w.batch.aliasDeletes - none.Keys == w.batch.aliasDeletes;
  }

  lemma {:induction false} PutAliasesTwice(w: World, m: map<string, Alias>, n: map<string, Alias>)
    ensures PutAliases(PutAliases(w, m), n) == PutAliases(w, m + n)
  {
    assert (w.cal.aliases + m) + n == w.cal.aliases + (m + n);
    assert (w.batch.aliasUpserts + m) + n == w.batch.aliasUpserts + (m + n);
    assert (w.batch.aliasDeletes - m.Keys) - n.Keys == w.batch.aliasDeletes - (m + n).Keys;
  }

  ghost function RetargetAll(w: World, members: seq<string>, heir: string): World
    decreases |members|
  {
    if members == [] then w
    else
      var w1, id := RetargetAll(w, members[..|members| - 1], heir), members[|members| - 1];
      if id in w1.cal.aliases then PutAliases(w1, map[id := w1.cal.aliases[id].(canonicalID := heir)]) else w1
  }

  lemma {:induction false} RetargetStep(w: World, members: seq<string>, heir: string, i: nat)
    requires i < |members| && members[i] in RetargetAll(w, members[..i], heir).cal.aliases
    ensures var w1, id := RetargetAll(w, members[..i], heir), members[i];
      RetargetAll(w, members[..i + 1], heir) == PutAliases(w1, map[id := w1.cal.aliases[id].(canonicalID := heir)])
  {
    assert members[..i + 1][..i] == members[..i];
  }

  lemma {:induction false} RetargetAllIs(w: World, members: seq<string>, heir: string)
    requires forall m :: m in members ==> m in w.cal.aliases
    ensures RetargetAll(w, members, heir) == PutAliases(w, Retargeted(w.cal, Elems(members), heir))
    decreases |members|
  {
    if members == [] {
      PutNoAliases(w);
    } else {
      var init, id := members[..|members| - 1], members[|members| - 1];
      assert members == init + [id];
      RetargetAllIs(w, init, heir);
      ElemsSnoc(init, id);
      RetargetedMore(w.cal, Elems(init), id, heir);
      PutAliasesTwice(w, Retargeted(w.cal, Elems(init), heir), map[id := w.cal.aliases[id].(canonicalID := heir)]);
      var w1 := PutAliases(w, Retargeted(w.cal, Elems(init), heir));
      assert w1.cal.aliases[id].(canonicalID := heir) == w.cal.aliases[id].(canonicalID := heir);
    }
  }

  lemma {:induction false} RetargetedMore(c: Cal, done: set<string>, id: string, heir: string)
    requires id in c.aliases
    ensures Retargeted(c, done, heir) + map[id := c.aliases[id].(canonicalID := heir)] ==
      Retargeted(c, done + {id}, heir)
  {
  }

  lemma {:induction false} ElemsSnoc(ids: seq<string>, id: string)
    ensures Elems(ids + [id]) == Elems(ids) + {id}
  {
  }

  // ---------- pruning, as sets ----------

  ghost predicate KeepIs(c: Cal, added: seq<Event>, keep: map<string, set<string>>) {
    forall t :: (t in keep <==> Touched(c, added, t)) && (t in keep ==> keep[t] == KeptIDs(c, added, t))
  }

  lemma {:induction false} KeepMore(c: Cal, added: seq<Event>, ev: Event, keep: map<string, set<string>>)
    requires KeepIs(c, added, keep)
    ensures var target := PageTarget(c, ev);
      KeepIs(c, added + [ev],
             if target.None? then keep
             else keep[target.value := (if target.value in keep then keep[target.value] else {}) + {ev.serverID}])
  {
    var more := added + [ev];
    forall t
      ensures Touched(c, more, t) <==> Touched(c, added, t) || PageTarget(c, ev) == Some(t)
      ensures KeptIDs(c, more, t) == KeptIDs(c, added, t) + (if PageTarget(c, ev) == Some(t) then {ev.serverID} else {})
      ensures !Touched(c, added, t) ==> KeptIDs(c, added, t) == {}
    {
      KeptMore(c, added, ev, t);
    }
  }

  lemma {:induction false} KeptMore(c: Cal, added: seq<Event>, ev: Event, t: string)
    ensures Touched(c, added + [ev], t) <==> Touched(c, added, t) || PageTarget(c, ev) == Some(t)
    ensures KeptIDs(c, added + [ev], t) == KeptIDs(c, added, t) +
      (if PageTarget(c, ev) == Some(t) then {ev.serverID} else {})
    ensures !Touched(c, added, t) ==> KeptIDs(c, added, t) == {}
  {
    assert forall e :: e in added + [ev] <==> e in added || e == ev;
  }

  /** Neither on the page nor the page's business: an alias pruning looks at. */
  ghost predicate Stale(c: Cal, keep: map<string, set<string>>, a: string) {
    a in c.aliases && c.aliases[a].canonicalID in keep && a !in keep[c.aliases[a].canonicalID]
  }

  ghost function StaleReplays(c: Cal, keep: map<string, set<string>>, seen: set<string>): set<string> {
    set a | a in seen && Stale(c, keep, a) && c.aliases[a].replay
  }

  ghost function StableOf(c: Cal, keep: map<string, set<string>>, seen: set<string>, t: string): set<string> {
    set a | a in seen && Stale(c, keep, a) && !c.aliases[a].replay && c.aliases[a].canonicalID == t
  }

  ghost predicate StableIs(c: Cal, keep: map<string, set<string>>, seen: set<string>,
          stable: map<string, set<string>>)
  {
    forall t :: StableOf(c, keep, seen, t) == if t in stable then stable[t] else {}
  }

  lemma {:induction false} StaleReplaysMore(w: World, keep: map<string, set<string>>, seen: set<string>, id: string)
    ensures DropAliases(w, StaleReplays(w.cal, keep, seen + {id}))
      == if Stale(w.cal, keep, id) && w.cal.aliases[id].replay
         then DropAliases(DropAliases(w, StaleReplays(w.cal, keep, seen)), {id})
         else DropAliases(w, StaleReplays(w.cal, keep, seen))
  {
    var s := StaleReplays(w.cal, keep, seen);
    DropAliasesTwice(w, s, {id});
    assert StaleReplays(w.cal, keep, seen + {id})
      == if Stale(w.cal, keep, id) && w.cal.aliases[id].replay then s + {id} else s;
  }

  lemma {:induction false} StableMore(c: Cal, keep: map<string, set<string>>, seen: set<string>, id: string,
          stable: map<string, set<string>>)
    requires StableIs(c, keep, seen, stable) && id in c.aliases
    ensures var t := c.aliases[id].canonicalID;
      StableIs(c, keep, seen + {id},
               if Stale(c, keep, id) && !c.aliases[id].replay
               then stable[t := (if t in stable then stable[t] else {}) + {id}] else stable)
  {
    var t := c.aliases[id].canonicalID;
    forall u ensures StableOf(c, keep, seen + {id}, u)
      == StableOf(c, keep, seen, u) + (if Stale(c, keep, id) && !c.aliases[id].replay && u == t then {id} else {})
    {
    }
    assert forall u :: StableOf(c, keep, seen, u) + {} == StableOf(c, keep, seen, u);
  }

  ghost function Excess(stable: map<string, set<string>>, targets: set<string>): set<string> {
    set t, a | t in targets && t in stable && a in AllButTop(stable[t], MAX_STABLE_ALIASES) :: a
  }

  lemma {:induction false} ExcessMore(w: World, stable: map<string, set<string>>, targets: set<string>, t: string)
    requires t in stable
    ensures DropAliases(DropAliases(w, Excess(stable, targets)), AllButTop(stable[t], MAX_STABLE_ALIASES))
      == DropAliases(w, Excess(stable, targets + {t}))
  {
    DropAliasesTwice(w, Excess(stable, targets), AllButTop(stable[t], MAX_STABLE_ALIASES));
    assert Excess(stable, targets + {t}) == Excess(stable, targets) + AllButTop(stable[t], MAX_STABLE_ALIASES);
  }

  lemma {:induction false} PrunedIs(c: Cal, added: seq<Event>, keep: map<string, set<string>>,
          stable: map<string, set<string>>)
    requires KeepIs(c, added, keep) && StableIs(c, keep, c.aliases.Keys, stable)
    ensures Pruned(c, added) == StaleReplays(c, keep, c.aliases.Keys) + Excess(stable, stable.Keys)
  {
    forall t | Touched(c, added, t)
      ensures StaleAliases(c, added, t, false) == if t in stable then stable[t] else {}
    {
      assert t in keep;
      assert StaleAliases(c, added, t, false) == StableOf(c, keep, c.aliases.Keys, t);
    }
    forall a
      ensures a in Pruned(c, added) <==> a in StaleReplays(c, keep, c.aliases.Keys) + Excess(stable, stable.Keys)
    {
      PrunedAt(c, added, keep, stable, a);
    }
  }

  lemma {:induction false} PrunedAt(c: Cal, added: seq<Event>, keep: map<string, set<string>>,
          stable: map<string, set<string>>, a: string)
    requires KeepIs(c, added, keep) && StableIs(c, keep, c.aliases.Keys, stable)
    requires forall t :: Touched(c, added, t) ==>
      StaleAliases(c, added, t, false) == if t in stable then stable[t] else {}
    ensures a in Pruned(c, added) <==> a in StaleReplays(c, keep, c.aliases.Keys) + Excess(stable, stable.Keys)
  {
    if a in Excess(stable, stable.Keys) {
      var t :| t in stable && a in AllButTop(stable[t], MAX_STABLE_ALIASES);
      assert a in StableOf(c, keep, c.aliases.Keys, t);
    }
    if a in Pruned(c, added) {
      var t := c.aliases[a].canonicalID;
      if a in StaleAliases(c, added, t, true) {
        assert Stale(c, keep, a);
      } else {
        assert a in AllButTop(StaleAliases(c, added, t, false), MAX_STABLE_ALIASES);
        assert a in StaleAliases(c, added, t, false);
      }
    }
  }

  lemma {:induction false} DropNoAliases(w: World)
    ensures DropAliases(w, {}) == w
  {
    assert w.cal.aliases - {} == w.cal.aliases && w.batch.aliasUpserts - {} == w.batch.aliasUpserts;
    assert w.batch.aliasDeletes + {} == w.batch.aliasDeletes;
  }

  lemma {:induction false} DropAliasesTwice(w: World, a: set<string>, b: set<string>)
    ensures DropAliases(DropAliases(w, a), b) == DropAliases(w, a + b)
  {
    assert (w.cal.aliases - a) - b == w.cal.aliases - (a + b);
    assert (w.batch.aliasUpserts - a) - b == w.batch.aliasUpserts - (a + b);
    assert (w.batch.aliasDeletes + a) + b == w.batch.aliasDeletes + (a + b);
  }

  lemma {:induction false} ElemsOfPrefix(ids: seq<string>, i: nat)
    requires i < |ids|
    ensures Elems(ids[..i + 1]) == Elems(ids[..i]) + {ids[i]}
  {
    assert ids[..i + 1] == ids[..i] + [ids[i]];
  }

  /** In an ascending listing the first |s| - n entries are all but the top n. */
  lemma {:induction false} TopOfListing(ids: seq<string>, s: set<string>, n: nat)
    requires Lists(ids, s) && |ids| == |s|
    ensures AllButTop(s, n) == if |ids| > n then Elems(ids[..|ids| - n]) else {}
  {
    forall k | 0 <= k < |ids| ensures |Above(s, ids[k])| == |ids| - 1 - k { AboveCount(ids, s, k); }
    forall x | |ids| > n && x in ids[..|ids| - n] ensures x in s { assert x in ids; }
    forall x ensures x in AllButTop(s, n) <==> |ids| > n && x in ids[..|ids| - n] {
      if x in s {
        assert x in ids;
        var k :| 0 <= k < |ids| && ids[k] == x;
        if |ids| > n && x in ids[..|ids| - n] {
          var j :| 0 <= j < |ids| - n && ids[j] == x;
        }
      }
    }
  }

  lemma {:induction false} CapIs(w: World, ids: seq<string>, stale: set<string>, n: nat)
    requires Lists(ids, stale) && |ids| == |stale|
    ensures DropAliases(w, AllButTop(stale, n)) == if |ids| > n then DropAliases(w, Elems(ids[..|ids| - n])) else w
  {
    TopOfListing(ids, stale, n);
    DropNoAliases(w);
  }

  lemma {:induction false} PositionOrder(ids: seq<string>, s: set<string>, j: nat, k: nat)
    requires Lists(ids, s) && j < |ids| && k < |ids|
    ensures Less(ids[k], ids[j]) <==> k < j
  {
    if j == k { LessIrreflexive(ids[k]); }
    if j < k { LessAsymmetric(ids[j], ids[k]); }
  }

  lemma {:induction false} AboveStep(ids: seq<string>, s: set<string>, k: nat)
    requires Lists(ids, s) && k + 1 < |ids|
    ensures Above(s, ids[k]) == Above(s, ids[k + 1]) + {ids[k + 1]}
    ensures ids[k + 1] !in Above(s, ids[k + 1])
  {
    LessIrreflexive(ids[k + 1]);
    assert ids[k + 1] in ids;
    forall y | y in s ensures y in Above(s, ids[k]) <==> y in Above(s, ids[k + 1]) || y == ids[k + 1] {
      assert y in ids;
      var j :| 0 <= j < |ids| && ids[j] == y;
      PositionOrder(ids, s, j, k);
      PositionOrder(ids, s, j, k + 1);
    }
  }

  lemma {:induction false} AboveLast(ids: seq<string>, s: set<string>)
    requires Lists(ids, s) && ids != []
    ensures Above(s, ids[|ids| - 1]) == {}
  {
    forall y | y in s ensures !Less(ids[|ids| - 1], y) {
      assert y in ids;
      var j :| 0 <= j < |ids| && ids[j] == y;
      PositionOrder(ids, s, j, |ids| - 1);
    }
  }

  lemma {:induction false} AboveCount(ids: seq<string>, s: set<string>, k: nat)
    requires Lists(ids, s) && k < |ids|
    ensures |Above(s, ids[k])| == |ids| - 1 - k
    decreases |ids| - k
  {
    if k + 1 == |ids| {
      AboveLast(ids, s);
    } else {
      AboveCount(ids, s, k + 1);
      AboveStep(ids, s, k);
    }
  }

  method ListEvents(m: map<string, Event>) returns (evs: seq<Event>)
    ensures evs == EventsInOrder(m)
  {
    evs := [];
    var ids := SortIds(m.Keys);
    for i := 0 to |ids|
      invariant evs == EventsInOrder(m)[..i]
    {
      assert ids[i] in ids;
      evs := evs + [m[ids[i]]];
    }
  }

  method ListAliases(m: map<string, Alias>) returns (entries: seq<(string, Alias)>)
    ensures entries == AliasesInOrder(m)
  {
    entries := [];
    var ids := SortIds(m.Keys);
    for i := 0 to |ids|
      invariant entries == AliasesInOrder(m)[..i]
    {
      assert ids[i] in ids;
      entries := entries + [(ids[i], m[ids[i]])];
    }
  }

  // ---------- dedupe, part way ----------

  datatype DedupeState = DedupeState(kept: map<string, Event>, mem: Cal, duplicates: seq<string>)

  /** The repair as it proceeds through the identifiers. */
  ghost function FoldEach(c: Cal, d: DedupeState, id: string): DedupeState {
    if id !in c.events then d
    else
      var ev := c.events[id];
      var canonical := if ev.uid != "" then Find(d.kept, ev, false) else None;
      if canonical.Some? then
        DedupeState(d.kept, Cal(d.mem.events - {id}, d.mem.aliases[id := Alias(canonical.value, ev.uid, false)]),
                    d.duplicates + [id])
      else DedupeState(d.kept[id := ev], d.mem, d.duplicates)
  }

  ghost function DedupeFold(c: Cal, ids: seq<string>): DedupeState
    decreases |ids|
  {
    if ids == [] then DedupeState(map[], c, [])
    else FoldEach(c, DedupeFold(c, ids[..|ids| - 1]), ids[|ids| - 1])
  }

  lemma {:induction false} DedupeFoldStep(c: Cal, ids: seq<string>, i: nat)
    requires i < |ids|
    ensures DedupeFold(c, ids[..i + 1]) == FoldEach(c, DedupeFold(c, ids[..i]), ids[i])
  {
    assert ids[..i + 1][..i] == ids[..i];
  }

  lemma {:induction false} KeptNames(c: Cal, ids: seq<string>)
    ensures DedupeFold(c, ids).kept.Keys <= Elems(ids) * c.events.Keys
    decreases |ids|
  {
    if ids != [] {
      KeptNames(c, ids[..|ids| - 1]);
      assert ids == ids[..|ids| - 1] + [ids[|ids| - 1]];
    }
  }

  lemma {:induction false} KeptSoFarNames(c: Cal, ids: seq<string>, i: nat)
    requires Separated(c) && Lists(ids, c.events.Keys) && i < |ids|
    ensures ids[i] !in DedupeFold(c, ids[..i]).kept && "" !in DedupeFold(c, ids[..i]).kept
  {
    KeptNames(c, ids[..i]);
    assert ids[i] in ids;
    PrefixIsBelow(ids, c.events.Keys, i);
    LessIrreflexive(ids[i]);
  }

  ghost function KeptSoFar(events: map<string, Event>, done: set<string>): map<string, Event> {
    map id | id in events && id in done && id !in Folded(events) :: events[id]
  }

  /** Aliases made for the folded events among `gone`. */
  ghost function AliasesFor(events: map<string, Event>, gone: set<string>): map<string, Alias> {
    map id | id in gone && id in FoldedAliases(events) :: FoldedAliases(events)[id]
  }

  lemma {:induction false} KeptOneMore(events: map<string, Event>, done: set<string>, id: string)
    requires id in events
    ensures KeptSoFar(events, done + {id})
      == if id in Folded(events) then KeptSoFar(events, done) else KeptSoFar(events, done)[id := events[id]]
  {
  }

  lemma {:induction false} AliasesOneMore(events: map<string, Event>, gone: set<string>, id: string)
    requires id in FoldedAliases(events)
    ensures AliasesFor(events, gone + {id}) == AliasesFor(events, gone)[id := FoldedAliases(events)[id]]
  {
  }

  lemma {:induction false} ListingSnoc(d: seq<string>, s: set<string>, id: string)
    requires Lists(d, s) && forall x :: x in s ==> Less(x, id)
    ensures Lists(d + [id], s + {id})
  {
    forall i | 0 <= i < |d| ensures Less(d[i], id) { assert d[i] in d; }
  }

  /** In ascending order, an event is folded exactly when a representative equal to it
      has been met, and the only such one is its own. */
  lemma {:induction false} FindAmongKept(c: Cal, done: set<string>, id: string)
    requires Separated(c) && id in c.events && c.events[id].uid != ""
    requires forall x :: x in c.events ==> (x in done <==> Less(x, id))
    ensures Find(KeptSoFar(c.events, done), c.events[id], false)
      == if id in Folded(c.events) then Some(Representative(c.events, id)) else None
  {
    var ev, kept, r := c.events[id], KeptSoFar(c.events, done), Representative(c.events, id);
    CalendarRepair.RepresentativeIsKept(c.events, id);
    forall y | y in Matches(kept, ev, false) ensures y == r {
      CalendarRepair.DuplicatesShareRepresentative(c.events, id, y);
    }
    if r == id {
      LessIrreflexive(id);
      assert Matches(kept, ev, false) == {};
    } else {
      assert r in Matches(kept, ev, false);
      assert Matches(kept, ev, false) == {r};
    }
  }

  lemma {:induction false} PrefixIsBelow(ids: seq<string>, s: set<string>, i: nat)
    requires Lists(ids, s) && i < |ids|
    ensures forall x :: x in s ==> (x in ids[..i] <==> Less(x, ids[i]))
  {
    forall x | x in s ensures x in ids[..i] <==> Less(x, ids[i]) {
      assert x in ids;
      var j :| 0 <= j < |ids| && ids[j] == x;
      if i < j { LessAsymmetric(ids[i], x); }
      if i == j { LessIrreflexive(x); }
      if x in ids[..i] {
        var k :| 0 <= k < i && ids[k] == x;
      }
    }
  }

  ghost predicate DedupedTo(c: Cal, done: set<string>, d: DedupeState) {
    var gone := Folded(c.events) * done;
    && d.kept == KeptSoFar(c.events, done)
    && d.mem == Cal(c.events - gone, c.aliases + AliasesFor(c.events, gone))
    && Lists(d.duplicates, gone)
  }

  lemma {:induction false} DedupeFoldIs(c: Cal, ids: seq<string>, i: nat)
    requires Separated(c) && Lists(ids, c.events.Keys) && i <= |ids|
    ensures DedupedTo(c, Elems(ids[..i]), DedupeFold(c, ids[..i]))
    decreases i
  {
    if i == 0 {
      NothingFolded(c, ids);
    } else {
      DedupeFoldIs(c, ids, i - 1);
      DedupeFoldMore(c, ids, i - 1);
    }
  }

  lemma {:induction false} NothingFolded(c: Cal, ids: seq<string>)
    ensures DedupedTo(c, Elems(ids[..0]), DedupeFold(c, ids[..0]))
  {
    assert ids[..0] == [] && Elems(ids[..0]) == {};
    assert DedupeFold(c, []) == DedupeState(map[], c, []);
    NoneGone(c);
  }

  lemma {:induction false} NoneGone(c: Cal)
    ensures KeptSoFar(c.events, {}) == map[] && Folded(c.events) * {} == {}
    ensures Cal(c.events - {}, c.aliases + AliasesFor(c.events, {})) == c
    ensures Lists([], {})
  {
    assert c.aliases + AliasesFor(c.events, {}) == c.aliases && c.events - {} == c.events;
  }

  lemma {:induction false} DedupeFoldMore(c: Cal, ids: seq<string>, i: nat)
    requires Separated(c) && Lists(ids, c.events.Keys) && i < |ids|
    requires DedupedTo(c, Elems(ids[..i]), DedupeFold(c, ids[..i]))
    ensures DedupedTo(c, Elems(ids[..i + 1]), DedupeFold(c, ids[..i + 1]))
  {
    var id, done, d := ids[i], Elems(ids[..i]), DedupeFold(c, ids[..i]);
    assert id in ids;
    DedupeFoldStep(c, ids, i);
    ElemsOfPrefix(ids, i);
    PrefixIsBelow(ids, c.events.Keys, i);
    FoldEachIsNext(c, done, d, id);
    DedupeOneMore(c, done, id, d);
  }

  lemma {:induction false} FoldEachIsNext(c: Cal, done: set<string>, d: DedupeState, id: string)
    requires Separated(c) && id in c.events && d.kept == KeptSoFar(c.events, done)
    requires forall x :: x in c.events ==> (x in done <==> Less(x, id))
    ensures FoldEach(c, d, id) == DedupeNext(c, d, id)
  {
    if c.events[id].uid != "" { FindAmongKept(c, done, id); }
  }

  ghost function DedupeNext(c: Cal, d: DedupeState, id: string): DedupeState
    requires id in c.events
  {
    if id in FoldedAliases(c.events)
    then DedupeState(d.kept, Cal(d.mem.events - {id}, d.mem.aliases[id := FoldedAliases(c.events)[id]]),
      d.duplicates + [id])
    else DedupeState(d.kept[id := c.events[id]], d.mem, d.duplicates)
  }

  lemma {:induction false} GoneOneMore(folded: set<string>, done: set<string>, id: string)
    ensures folded * (done + {id}) == if id in folded then folded * done + {id} else folded * done
  {
  }

  lemma {:induction false} MemOneMore(c: Cal, gone: set<string>, id: string)
    requires id in FoldedAliases(c.events)
    ensures (c.aliases + AliasesFor(c.events, gone))[id := FoldedAliases(c.events)[id]]
      == c.aliases + AliasesFor(c.events, gone + {id})
    ensures (c.events - gone) - {id} == c.events - (gone + {id})
  {
    AliasesOneMore(c.events, gone, id);
    PutOver(c.aliases, AliasesFor(c.events, gone), id, FoldedAliases(c.events)[id]);
  }

  lemma {:induction false} DedupeOneMore(c: Cal, done: set<string>, id: string, d: DedupeState)
    requires id in c.events && DedupedTo(c, done, d) && forall x :: x in c.events ==> (x in done <==> Less(x, id))
    ensures DedupedTo(c, done + {id}, DedupeNext(c, d, id))
  {
    var f := Folded(c.events);
    KeptOneMore(c.events, done, id);
    GoneOneMore(f, done, id);
    if id in f {
      MemOneMore(c, f * done, id);
      ListingSnoc(d.duplicates, f * done, id);
    }
  }

  lemma {:induction false} DedupedAll(c: Cal, ids: seq<string>)
    requires Separated(c) && Lists(ids, c.events.Keys)
    ensures var d := DedupeFold(c, ids);
      d.mem == Dedupe(World(c, EMPTY_BATCH)).cal && Separated(d.mem) && Lists(d.duplicates, Folded(c.events))
  {
    DedupeFoldIs(c, ids, |ids|);
    assert ids[..|ids|] == ids && Elems(ids) == c.events.Keys;
    AllFolded(c);
    var d := DedupeFold(c, ids);
    assert d.mem == Cal(c.events - Folded(c.events), c.aliases + FoldedAliases(c.events));
    assert Separated(d.mem);
  }

  lemma {:induction false} AllFolded(c: Cal)
    ensures Folded(c.events) * c.events.Keys == Folded(c.events)
    ensures AliasesFor(c.events, Folded(c.events)) == FoldedAliases(c.events)
  {
  }
}
