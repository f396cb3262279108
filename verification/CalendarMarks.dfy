/** What a replay page marks, what pruning takes and what it must leave: laws on the maps
    before and after. */
module CalendarMarks {
  import opened Ids
  import opened Calendar
  import opened CalendarLaws
  import opened CalendarReplay

  // ---------- what pruning takes and leaves ----------

  lemma {:induction false} AboveLeast(s: set<string>, x: string)
    requires IsLeast(x, s)
    ensures Above(s, x) == s - {x}
    ensures forall y :: y in s - {x} ==> Above(s, y) == Above(s - {x}, y)
  {
    LessIrreflexive(x);
    forall y | y in s - {x} ensures Above(s, y) == Above(s - {x}, y) { LessAsymmetric(x, y); }
  }

  /** Taking all but the top n takes nothing from n or fewer, and else leaves n that sort
      above all it takes. */
  lemma {:induction false} TopIsExact(s: set<string>, n: nat)
    ensures |s| <= n ==> AllButTop(s, n) == {}
    ensures |s| > n ==> |s - AllButTop(s, n)| == n
    ensures forall x, y :: x in AllButTop(s, n) && y in s - AllButTop(s, n) ==> Less(x, y)
    decreases |s|
  {
    if |s| <= n {
      forall x | x in s ensures |Above(s, x)| < n {
        LessIrreflexive(x);
        SubsetSize(Above(s, x), s - {x});
      }
    } else {
      LeastExists(s);
      var x :| IsLeast(x, s);
      var rest := s - {x};
      AboveLeast(s, x);
      TopIsExact(rest, n);
      assert AllButTop(s, n) == AllButTop(rest, n) + {x};
      assert s - AllButTop(s, n) == rest - AllButTop(rest, n);
    }
  }

  /** The unmarked aliases of an event that the page does not list. */
  ghost function Reserve(c: Cal, added: seq<Event>, x: string): set<string> {
    set a | a in c.aliases && c.aliases[a].canonicalID == x && !c.aliases[a].replay && a !in PageIDs(added)
  }

  lemma {:induction false} ListedIsKept(c: Cal, page: Page, a: string)
    requires Sound(c) && IsDuplicateReplay(page, c) && a in c.aliases
    ensures a in KeptIDs(c, page.added, c.aliases[a].canonicalID) <==> a in PageIDs(page.added)
  {
    var x := c.aliases[a].canonicalID;
    if a in PageIDs(page.added) {
      var ev :| ev in page.added && ev.serverID == a;
      assert Canonical(c, a) == Some(x) && PageTarget(c, ev) == Some(x);
    }
  }

  /** What pruning for a replay page does to the aliases of one event.  If the page touches the
      event, marked aliases that the page does not list go; of the unmarked ones it does not
      list, none goes if they are eight or fewer, else the eight that sort last stay. */
  ghost predicate PrunedRight(c: Cal, d: Cal, added: seq<Event>, x: string) {
    var reserve := Reserve(c, added, x);
    && (forall a :: a in c.aliases && c.aliases[a].canonicalID == x ==>
          && (a in PageIDs(added) || !Touched(c, added, x) ==> a in d.aliases)
          && (Touched(c, added, x) && c.aliases[a].replay && a !in PageIDs(added) ==> a !in d.aliases))
    && (|reserve| <= 8 ==> reserve <= d.aliases.Keys)
    && (Touched(c, added, x) && |reserve| > 8 ==> |reserve * d.aliases.Keys| == 8)
    && (forall p, k :: p in reserve - d.aliases.Keys && k in reserve * d.aliases.Keys ==> Less(p, k))
  }

  lemma {:induction false} StaleIsReserve(c: Cal, page: Page, x: string)
    requires Sound(c) && IsDuplicateReplay(page, c)
    ensures StaleAliases(c, page.added, x, false) == Reserve(c, page.added, x)
  {
    forall a | a in Members(c, x) ensures a in KeptIDs(c, page.added, x) <==> a in PageIDs(page.added) {
      ListedIsKept(c, page, a);
    }
  }

  lemma {:induction false} PrunedIff(c: Cal, page: Page, a: string)
    requires Sound(c) && IsDuplicateReplay(page, c) && a in c.aliases
    ensures var x := c.aliases[a].canonicalID;
      a in Pruned(c, page.added) <==>
        Touched(c, page.added, x) && a !in PageIDs(page.added)
        && (c.aliases[a].replay || a in AllButTop(Reserve(c, page.added, x), 8))
  {
    ListedIsKept(c, page, a);
    StaleIsReserve(c, page, c.aliases[a].canonicalID);
  }

  lemma {:induction false} ReserveLeft(c: Cal, d: Cal, page: Page, x: string)
    requires Sound(c) && IsDuplicateReplay(page, c) && d.aliases == c.aliases - Pruned(c, page.added)
    ensures var reserve := Reserve(c, page.added, x);
      reserve * d.aliases.Keys == if Touched(c, page.added, x) then reserve - AllButTop(reserve, 8) else reserve
  {
    forall a | a in Reserve(c, page.added, x)
      ensures a in d.aliases <==> !(Touched(c, page.added, x) && a in AllButTop(Reserve(c, page.added, x), 8))
    {
      PrunedIff(c, page, a);
    }
  }

  lemma {:induction false} PruningIsRight(w: World, page: Page, x: string)
    requires Sound(w.cal) && IsDuplicateReplay(page, w.cal)
    ensures var d := PruneAliases(w, page.added).cal;
      && d.events == w.cal.events
      && (forall a :: a in d.aliases ==> a in w.cal.aliases && d.aliases[a] == w.cal.aliases[a])
      && PrunedRight(w.cal, d, page.added, x)
  {
    var c, d := w.cal, PruneAliases(w, page.added).cal;
    MarkedRight(c, d, page, x);
    ReserveLeft(c, d, page, x);
    ReserveRight(Reserve(c, page.added, x), d.aliases.Keys, Touched(c, page.added, x));
  }

  lemma {:induction false} MarkedRight(c: Cal, d: Cal, page: Page, x: string)
    requires Sound(c) && IsDuplicateReplay(page, c) && d.aliases == c.aliases - Pruned(c, page.added)
    ensures forall a :: a in c.aliases && c.aliases[a].canonicalID == x ==>
      && (a in PageIDs(page.added) || !Touched(c, page.added, x) ==> a in d.aliases)
      && (Touched(c, page.added, x) && c.aliases[a].replay && a !in PageIDs(page.added) ==> a !in d.aliases)
  {
    forall a | a in c.aliases && c.aliases[a].canonicalID == x
      ensures (a in PageIDs(page.added) || !Touched(c, page.added, x) ==> a in d.aliases)
      ensures Touched(c, page.added, x) && c.aliases[a].replay && a !in PageIDs(page.added) ==> a !in d.aliases
    {
      PrunedIff(c, page, a);
    }
  }

  lemma {:induction false} ReserveRight(reserve: set<string>, left: set<string>, touched: bool)
    requires reserve * left == if touched then reserve - AllButTop(reserve, 8) else reserve
    ensures |reserve| <= 8 ==> reserve <= left
    ensures touched && |reserve| > 8 ==> |reserve * left| == 8
    ensures forall p, k :: p in reserve - left && k in reserve * left ==> Less(p, k)
  {
    TopIsExact(reserve, 8);
    forall a | a in reserve ensures a in left <==> !(touched && a in AllButTop(reserve, 8)) {
      assert a in left <==> a in reserve * left;
    }
  }

  // ---------- what an Add marks ----------

  /** Whether the identity is an alias of an event that reads as the record does. */
  predicate StandsFor(c: Cal, ev: Event) {
    && ev.serverID in c.aliases && c.aliases[ev.serverID].canonicalID in c.events
    && SameContent(c.events[c.aliases[ev.serverID].canonicalID], ev)
  }

  /** After an Add, an alias for its identity has the record's UID, stands for an event with
      its content, and is marked exactly if the Add belongs to a replay or the alias stood
      for that content before and was marked.  No other alias changes. */
  lemma {:induction false} AddMarks(w: World, ev: Event, replay: bool)
    requires Sound(w.cal)
    ensures var c, d, id := w.cal, AddEvent(w, ev, replay).0.cal, ev.serverID;
      && (id in d.aliases ==>
            && d.aliases[id].uid == ev.uid && StandsFor(d, ev)
            && d.aliases[id].replay == (replay || (StandsFor(c, ev) && c.aliases[id].replay))
            && (StandsFor(c, ev) ==> d.aliases[id].canonicalID == c.aliases[id].canonicalID))
      && (StandsFor(c, ev) ==> id in d.aliases)
      && AliasesDifferOnly(c, d, {id})
  {
    var c := w.cal;
    if ev.serverID != "" && ev.serverID !in c.events && !StandsFor(c, ev) && FoldTarget(c.events, ev, replay).Some? {
      FoldTargetIsVisible(c.events, ev, replay);
    }
  }

  // ---------- runs of replay pages ----------

  /** Every alias the page lists is marked, and every other one is as it was. */
  ghost predicate ListedAreMarked(c: Cal, d: Cal, ids: set<string>) {
    forall a :: a in d.aliases ==>
      if a in ids then d.aliases[a].replay else a in c.aliases && d.aliases[a] == c.aliases[a]
  }

  lemma {:induction false} AddsMark(w: World, evs: seq<Event>)
    requires Sound(w.cal) && forall ev :: ev in evs ==> Backed(w.cal, ev)
    ensures ListedAreMarked(w.cal, AddAll(w, evs, true).0.cal, PageIDs(evs))
    decreases |evs|
  {
    if evs != [] {
      var init, ev := evs[..|evs| - 1], evs[|evs| - 1];
      assert evs == init + [ev];
      forall e | e in init ensures e in evs {}
      AddsMark(w, init);
      ReplayedAdds(w, init);
      var w1 := AddAll(w, init, true).0;
      AddMarks(w1, ev, true);
      assert PageIDs(evs) == PageIDs(init) + {ev.serverID};
      OneMoreMarked(w.cal, w1.cal, AddEvent(w1, ev, true).0.cal, PageIDs(init), ev.serverID);
    }
  }

  lemma {:induction false} OneMoreMarked(c: Cal, d: Cal, e: Cal, ids: set<string>, id: string)
    requires ListedAreMarked(c, d, ids) && AliasesDifferOnly(d, e, {id})
    requires id in e.aliases ==> e.aliases[id].replay
    ensures ListedAreMarked(c, e, ids + {id})
  {
  }

  lemma {:induction false} PageMarks(w: World, page: Page)
    requires Sound(w.cal) && IsDuplicateReplay(page, w.cal)
    ensures ListedAreMarked(w.cal, ApplyPage(w, page).0.cal, PageIDs(page.added))
  {
    PrunedIsBacked(w, page);
    AddsMark(PruneAliases(w, page.added), page.added);
    assert ApplyPage(w, page).0 == AddAll(PruneAliases(w, page.added), page.added, true).0;
  }

  ghost function ListedIn(pages: seq<Page>): set<string>
    decreases |pages|
  {
    if pages == [] then {} else PageIDs(pages[0].added) + ListedIn(pages[1..])
  }

  lemma {:induction false} RunMarks(w: World, pages: seq<Page>)
    requires Sound(w.cal) && ReplayRun(w, pages)
    ensures var d := AfterPages(w, pages).cal;
      Sound(d) && ListedAreMarked(w.cal, d, ListedIn(pages))
    decreases |pages|
  {
    if pages != [] {
      var w1 := ApplyPage(w, pages[0]).0;
      ReplayPageShowsNothingNew(w, pages[0]);
      PageMarks(w, pages[0]);
      RunMarks(w1, pages[1..]);
      StillMarked(w.cal, w1.cal, AfterPages(w, pages).cal, PageIDs(pages[0].added), ListedIn(pages[1..]));
    }
  }

  lemma {:induction false} StillMarked(c: Cal, d: Cal, e: Cal, ids: set<string>, more: set<string>)
    requires ListedAreMarked(c, d, ids) && ListedAreMarked(d, e, more)
    ensures ListedAreMarked(c, e, ids + more)
  {
  }

  /** After any run of replay pages, one more that touches an event leaves it, besides the
      identities it lists, only unmarked aliases that the event had at the start and no page
      listed; and of these eight, or all if they are fewer. */
  lemma {:induction false} OnlyOldReserveStays(w: World, pages: seq<Page>, last: Page, x: string)
    requires Sound(w.cal) && ReplayRun(w, pages)
    requires var c := AfterPages(w, pages).cal; IsDuplicateReplay(last, c) && Touched(c, last.added, x)
    ensures var c := AfterPages(w, pages).cal;
      var d := ApplyPage(AfterPages(w, pages), last).0.cal;
      var left := Members(d, x) - PageIDs(last.added);
      && (forall a :: a in left ==>
            a in w.cal.aliases && !w.cal.aliases[a].replay && w.cal.aliases[a].canonicalID == x
            && a !in ListedIn(pages) && d.aliases[a] == w.cal.aliases[a])
      && |left| == if |Reserve(c, last.added, x)| <= 8 then |Reserve(c, last.added, x)| else 8
  {
    var w1 := AfterPages(w, pages);
    var c, d := w1.cal, ApplyPage(w1, last).0.cal;
    RunMarks(w, pages);
    PageMarks(w1, last);
    LeftIsReserve(w1, last, x);
  }

  /** What an event keeps over a page that touches it, besides what the page lists. */
  lemma {:induction false} LeftIsReserve(w: World, page: Page, x: string)
    requires Sound(w.cal) && IsDuplicateReplay(page, w.cal) && Touched(w.cal, page.added, x)
    ensures var d, reserve := ApplyPage(w, page).0.cal, Reserve(w.cal, page.added, x);
      var left := Members(d, x) - PageIDs(page.added);
      left <= reserve && |left| == if |reserve| <= 8 then |reserve| else 8
  {
    var c, d0 := w.cal, PruneAliases(w, page.added).cal;
    var reserve := Reserve(c, page.added, x);
    ReplayAliases(w, page);
    UnprunedIsReserve(c, page, x);
    TopIsExact(reserve, 8);
    assert |reserve| <= 8 ==> reserve - AllButTop(reserve, 8) == reserve;
  }

  lemma {:induction false} UnprunedIsReserve(c: Cal, page: Page, x: string)
    requires Sound(c) && IsDuplicateReplay(page, c) && Touched(c, page.added, x)
    ensures var reserve := Reserve(c, page.added, x);
      Members(c, x) - Pruned(c, page.added) - PageIDs(page.added) == reserve - AllButTop(reserve, 8)
  {
    forall a | a in Members(c, x)
      ensures a in Pruned(c, page.added) <==>
        a !in PageIDs(page.added) && (c.aliases[a].replay || a in AllButTop(Reserve(c, page.added, x), 8))
    {
      PrunedIff(c, page, a);
    }
  }

  lemma {:induction false} MarkedGoes(c: Cal, d: Cal, ids: set<string>, a: string)
    requires a in c.aliases && c.aliases[a].replay && a !in ids && ListedAreMarked(c, d, ids)
    requires forall b :: b in Members(d, c.aliases[a].canonicalID) - ids ==> b in c.aliases && !c.aliases[b].replay
    ensures a !in d.aliases
  {
    var left := Members(d, c.aliases[a].canonicalID) - ids;
    assert a !in left;
  }

  /** An identity that a replay page folds is gone after the next one that touches its event
      without listing it. */
  lemma {:induction false} FoldedIsForgotten(w: World, page: Page, w1: World, next: Page, a: string)
    requires Sound(w.cal) && IsDuplicateReplay(page, w.cal) && a in PageIDs(page.added) && w1 == ApplyPage(w, page).0
    requires IsDuplicateReplay(next, w1.cal) && a in w1.cal.aliases
    requires Touched(w1.cal, next.added, w1.cal.aliases[a].canonicalID) && a !in PageIDs(next.added)
    ensures var d := ApplyPage(w1, next).0.cal; a !in d.aliases && a !in d.events
  {
    ReplayPageShowsNothingNew(w, page);
    PageMarks(w, page);
    LeftIsReserve(w1, next, w1.cal.aliases[a].canonicalID);
    PageMarks(w1, next);
    ReplayPageShowsNothingNew(w1, next);
    MarkedGoes(w1.cal, ApplyPage(w1, next).0.cal, PageIDs(next.added), a);
  }

  // ---------- which pages are judged replays ----------

  /** Only a page of two Adds or more and nothing else, with more pages to come, all of whose
      records read as visible events; and each such page. */
  lemma {:induction false} ReplayIsJudgedRight(page: Page, c: Cal)
    requires Sound(c)
    ensures IsDuplicateReplay(page, c) <==>
      && page.moreAvailable && |page.added| > 1 && |page.changed| + |page.deleted| == 0
      && forall i :: 0 <= i < |page.added| ==>
           var ev := page.added[i];
           if ev.serverID in c.events then SameContent(c.events[ev.serverID], ev)
           else if ev.serverID in c.aliases then StandsFor(c, ev)
           else exists y :: y in c.events && SameContent(c.events[y], ev)
  {
    forall ev: Event | Canonical(c, ev.serverID).None?
      ensures Repeats(c, ev) <==> exists y :: y in c.events && SameContent(c.events[y], ev)
    {
      if y :| y in c.events && SameContent(c.events[y], ev) { assert y in Matches(c.events, ev, true); }
      if Find(c.events, ev, true).Some? { FoundIsEquivalent(c.events, ev, true); }
    }
    if IsDuplicateReplay(page, c) {
      forall i | 0 <= i < |page.added| ensures Repeats(c, page.added[i]) { assert page.added[i] in page.added; }
    }
  }
}
