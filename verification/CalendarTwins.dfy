/** The exact condition for replay pages to give an event aliases without end: a visible
    event with a smaller identifier has its content, and so is what pruning looks at. */
module CalendarTwins {
  import opened Ids
  import opened Calendar
  import opened CalendarLaws
  import opened CalendarReplay

  /** A smaller visible event has the content of `y`; none smaller has its UID as well. */
  ghost predicate Shadowed(c: Cal, y: string) {
    && y in c.events && c.events[y].uid != ""
    && HasSmallerTwin(c, y)
    && (forall z :: z in c.events && EqualExceptServerID(c.events[z], c.events[y]) && z != y ==> Less(y, z))
  }

  predicate Unknown(c: Cal, id: string) { id != "" && id !in c.events && id !in c.aliases }

  predicate Copies(c: Cal, y: string, ev: Event)
    requires y in c.events
  {
    ev.uid == c.events[y].uid && SameContent(c.events[y], ev)
  }

  /** A page of copies of `y` under unknown identities, with more to come. */
  ghost predicate CopiesOf(c: Cal, page: Page, y: string)
    requires y in c.events
  {
    && page.moreAvailable && |page.added| >= 2 && page.changed == [] && page.deleted == []
    && forall ev :: ev in page.added ==> Unknown(c, ev.serverID) && Copies(c, y, ev)
  }

  /** By UID a copy belongs to `y`, by content alone to the smaller twin. */
  lemma {:induction false} CopyGoesAstray(c: Cal, y: string, ev: Event)
    requires Shadowed(c, y) && Copies(c, y, ev)
    ensures FoldTarget(c.events, ev, true) == Some(y)
    ensures Find(c.events, ev, true).Some? && Find(c.events, ev, true) != Some(y)
  {
    SameButForName(c.events[y], ev);
    forall z | z in c.events
      ensures EqualExceptServerID(c.events[z], ev) <==> EqualExceptServerID(c.events[z], c.events[y])
    {
      SameButForName(c.events[z], ev);
      SameButForName(c.events[z], c.events[y]);
    }
    assert IsLeast(y, Matches(c.events, ev, false));
    LeastUnique(y, Matches(c.events, ev, false));
    var x :| x in c.events && SameContent(c.events[x], c.events[y]) && Less(x, y);
    assert x in Matches(c.events, ev, true);
    var t := Least(Matches(c.events, ev, true));
    assert t == x || Less(t, x);
    LessAsymmetric(x, y);
  }

  lemma {:induction false} CopiesAreAReplay(c: Cal, page: Page, y: string)
    requires Shadowed(c, y) && CopiesOf(c, page, y)
    ensures IsDuplicateReplay(page, c) && !Touched(c, page.added, y)
  {
    forall ev | ev in page.added ensures Repeats(c, ev) && PageTarget(c, ev) != Some(y) { CopyGoesAstray(c, y, ev); }
  }

  /** One more copy is one more alias of `y`. */
  lemma {:induction false} OneMoreCopy(w: World, y: string, ev: Event)
    requires Shadowed(w.cal, y) && Copies(w.cal, y, ev) && ev.serverID != "" && ev.serverID !in w.cal.events
    requires ev.serverID in w.cal.aliases ==> w.cal.aliases[ev.serverID].canonicalID == y
    ensures var d := AddEvent(w, ev, true).0.cal;
      && d.events == w.cal.events && Members(d, y) == Members(w.cal, y) + {ev.serverID}
      && AliasesDifferOnly(w.cal, d, {ev.serverID})
      && ev.serverID in d.aliases && d.aliases[ev.serverID].canonicalID == y
  {
    CopyGoesAstray(w.cal, y, ev);
  }

  /** Aliases for unknown identities and for copies met before. */
  ghost predicate OnlyCopies(c: Cal, d: Cal, y: string, ids: set<string>) {
    && d.events == c.events && AliasesDifferOnly(c, d, ids) && Members(d, y) == Members(c, y) + ids
    && forall a :: a in ids ==> a in d.aliases && d.aliases[a].canonicalID == y
  }

  lemma {:induction false} AllCopies(w: World, y: string, evs: seq<Event>)
    requires Shadowed(w.cal, y) && forall ev :: ev in evs ==> Unknown(w.cal, ev.serverID) && Copies(w.cal, y, ev)
    ensures OnlyCopies(w.cal, AddAll(w, evs, true).0.cal, y, PageIDs(evs))
    decreases |evs|
  {
    if evs == [] {
      assert PageIDs(evs) == {};
    } else {
      var init, ev := evs[..|evs| - 1], evs[|evs| - 1];
      assert evs == init + [ev] && ev in evs;
      forall e | e in init ensures e in evs {}
      AllCopies(w, y, init);
      assert PageIDs(evs) == PageIDs(init) + {ev.serverID};
      NextCopy(w.cal, AddAll(w, init, true).0, y, PageIDs(init), ev);
    }
  }

  lemma {:induction false} NextCopy(c: Cal, w: World, y: string, ids: set<string>, ev: Event)
    requires Shadowed(c, y) && OnlyCopies(c, w.cal, y, ids) && Unknown(c, ev.serverID) && Copies(c, y, ev)
    ensures OnlyCopies(c, AddEvent(w, ev, true).0.cal, y, ids + {ev.serverID})
  {
    OneMoreCopy(w, y, ev);
    var d := AddEvent(w, ev, true).0.cal;
    forall a | a in ids + {ev.serverID} ensures a in d.aliases && d.aliases[a].canonicalID == y {}
  }

  /** Such a page leaves every visible event as it was and makes each of its identities an
      alias of `y`, from which it prunes nothing. */
  lemma {:induction false} TwinCollectsAliases(w: World, page: Page, y: string)
    requires Shadowed(w.cal, y) && CopiesOf(w.cal, page, y)
    ensures var d := ApplyPage(w, page).0.cal;
      && IsDuplicateReplay(page, w.cal) && !Touched(w.cal, page.added, y)
      && d.events == w.cal.events && Members(d, y) == Members(w.cal, y) + PageIDs(page.added)
  {
    CopiesAreAReplay(w.cal, page, y);
    var w0 := PruneAliases(w, page.added);
    assert Members(w0.cal, y) == Members(w.cal, y);
    AllCopies(w0, y, page.added);
    assert ApplyPage(w, page).0 == AddAll(w0, page.added, true).0;
  }

  /** A page of two copies under identities that are new. */
  lemma {:induction false} NextCopies(c: Cal, y: string) returns (page: Page, a: string, b: string)
    requires y in c.events
    ensures CopiesOf(c, page, y) && |page.added| == 2
    ensures PageIDs(page.added) == {a, b} && a != b && a !in c.aliases && b !in c.aliases
  {
    var n := LongerThanAll(c.events.Keys + c.aliases.Keys);
    a, b := Long(n), Long(n + 1);
    assert a !in c.events.Keys + c.aliases.Keys && b !in c.events.Keys + c.aliases.Keys;
    assert |a| != |b|;
    var first, second := c.events[y].(serverID := a), c.events[y].(serverID := b);
    SameButForName(c.events[y], first);
    SameButForName(c.events[y], second);
    page := Page([first, second], [], [], true);
    assert page.added == [first] + [second];
    assert first in page.added && second in page.added;
  }

  lemma {:induction false} TwoMoreAliases(w: World, y: string) returns (page: Page)
    requires Shadowed(w.cal, y)
    ensures IsDuplicateReplay(page, w.cal) && |page.added| == 2
    ensures var d := ApplyPage(w, page).0.cal;
      d.events == w.cal.events && Shadowed(d, y) && |Members(d, y)| == |Members(w.cal, y)| + 2
  {
    var a, b;
    page, a, b := NextCopies(w.cal, y);
    TwinCollectsAliases(w, page, y);
    assert a !in Members(w.cal, y) && b !in Members(w.cal, y);
    assert Members(ApplyPage(w, page).0.cal, y) == Members(w.cal, y) + {a} + {b};
  }

  /** From any cache with a shadowed event, for every number there is a run of that many
      replay pages of two records each, over which the event gains two aliases a page. */
  lemma {:induction false} TwinGrowsForEver(w: World, y: string, n: nat) returns (pages: seq<Page>)
    requires Shadowed(w.cal, y)
    ensures |pages| == n && ReplayRun(w, pages) && forall p :: p in pages ==> |p.added| == 2
    ensures var d := AfterPages(w, pages).cal;
      d.events == w.cal.events && |Members(d, y)| == |Members(w.cal, y)| + 2 * n
    decreases n
  {
    if n == 0 {
      pages := [];
    } else {
      var page := TwoMoreAliases(w, y);
      var rest := TwinGrowsForEver(ApplyPage(w, page).0, y, n - 1);
      pages := [page] + rest;
      assert pages[1..] == rest;
    }
  }

  // ---------- any event with a smaller twin ----------

  function UIDs(events: map<string, Event>): set<string> { set id | id in events :: events[id].uid }

  /** Two records of `y` itself, under a UID no event has. */
  function Rename(c: Cal, y: string, uid: string): Page
    requires y in c.events
  {
    var ev := c.events[y].(serverID := y, uid := uid);
    Page([ev, ev], [], [], true)
  }

  lemma {:induction false} AddTwice(w: World, ev: Event)
    ensures AddAll(w, [ev, ev], true).0 == AddEvent(AddEvent(w, ev, true).0, ev, true).0
  {
    assert [ev, ev][..1] == [ev] && [ev][..0] == [];
    assert AddAll(w, [ev], true).0 == AddEvent(AddAll(w, [], true).0, ev, true).0;
  }

  lemma {:induction false} RenameIsAReplay(c: Cal, y: string, uid: string)
    requires Sound(c) && y in c.events
    ensures IsDuplicateReplay(Rename(c, y, uid), c)
  {
  }

  lemma {:induction false} Renamed(w: World, y: string, uid: string)
    requires Sound(w.cal) && y in w.cal.events && uid !in UIDs(w.cal.events)
    ensures var ev := w.cal.events[y].(serverID := y, uid := uid);
      ApplyPage(w, Rename(w.cal, y, uid)).0.cal.events == w.cal.events[y := ev]
  {
    var page := Rename(w.cal, y, uid);
    var ev, w0 := page.added[0], PruneAliases(w, page.added);
    RenameIsAReplay(w.cal, y, uid);
    AddTwice(w0, ev);
    assert w.cal.events[y].uid in UIDs(w.cal.events);
    assert ApplyPage(w, page).0 == AddAll(w0, page.added, true).0;
  }

  /** A replay page can give the event a UID of its own; then it is shadowed by its twin. */
  lemma {:induction false} RenameShadows(w: World, y: string) returns (page: Page)
    requires Sound(w.cal) && HasSmallerTwin(w.cal, y)
    ensures IsDuplicateReplay(page, w.cal) && |page.added| == 2 && Shadowed(ApplyPage(w, page).0.cal, y)
  {
    var c := w.cal;
    var n := LongerThanAll(UIDs(c.events));
    var uid := Long(n + 1);
    page := Rename(c, y, uid);
    RenameIsAReplay(c, y, uid);
    Renamed(w, y, uid);
    var d := ApplyPage(w, page).0.cal;
    ReplayPageShowsNothingNew(w, page);
    SmallerTwinStays(c, d, y);
    forall z | z in d.events && z != y ensures !EqualExceptServerID(d.events[z], d.events[y]) {
      assert d.events[z] == c.events[z] && c.events[z].uid in UIDs(c.events);
      assert Unnamed(d.events[z]).uid == d.events[z].uid && Unnamed(d.events[y]).uid == uid;
    }
  }

  ghost predicate PagesWithin(pages: seq<Page>, windowSize: nat) { forall p :: p in pages ==> |p.added| <= windowSize }

  /** No run of replay pages of the given size leaves the event more than `bound` aliases. */
  ghost predicate AliasesWithin(w: World, y: string, windowSize: nat, bound: nat) {
    forall pages :: ReplayRun(w, pages) && PagesWithin(pages, windowSize) ==>
      |Members(AfterPages(w, pages).cal, y)| <= bound
  }

  lemma {:induction false} ReplayExceeds(w: World, y: string, windowSize: nat, bound: nat)
    requires Sound(w.cal) && HasSmallerTwin(w.cal, y) && windowSize >= 2
    ensures !AliasesWithin(w, y, windowSize, bound)
  {
    var page := RenameShadows(w, y);
    var rest := TwinGrowsForEver(ApplyPage(w, page).0, y, bound + 1);
    var pages := [page] + rest;
    assert pages[1..] == rest && ReplayRun(w, pages) && PagesWithin(pages, windowSize);
    assert AfterPages(w, pages) == AfterPages(ApplyPage(w, page).0, rest);
  }

  /** The aliases of a visible event stay bounded over every run of replay pages exactly if
      no smaller visible event has its content.  The server decides pages and identities;
      the condition is on the cache at the start alone. */
  lemma {:induction false} AliasesStayBoundedIff(w: World, y: string, windowSize: nat)
    requires Sound(w.cal) && windowSize >= 2
    ensures (exists bound :: AliasesWithin(w, y, windowSize, bound)) <==> !HasSmallerTwin(w.cal, y)
  {
    if HasSmallerTwin(w.cal, y) {
      forall bound ensures !AliasesWithin(w, y, windowSize, bound) { ReplayExceeds(w, y, windowSize, bound); }
    } else {
      var bound := |Members(w.cal, y)| + MAX_STABLE_ALIASES + windowSize;
      forall pages | ReplayRun(w, pages) && PagesWithin(pages, windowSize)
        ensures |Members(AfterPages(w, pages).cal, y)| <= bound
      {
        EndlessReplayIsBounded(w, pages, windowSize, y);
      }
      assert AliasesWithin(w, y, windowSize, bound);
    }
  }
}
