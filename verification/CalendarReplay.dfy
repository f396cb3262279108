/** Pages that only repeat cached meetings under fresh identities. */
module CalendarReplay {
  import opened Ids
  import opened Calendar
  import opened CalendarLaws

  /** The same visible identities with the same content; only UIDs may differ. */
  ghost predicate SameMeetings(c: Cal, d: Cal) {
    && c.events.Keys == d.events.Keys
    && forall id :: id in c.events ==> SameContent(c.events[id], d.events[id])
  }

  /** Some smaller visible event has the content of the visible event `y`. */
  ghost predicate HasSmallerTwin(c: Cal, y: string) {
    y in c.events && exists x :: x in c.events && SameContent(c.events[x], c.events[y]) && Less(x, y)
  }

  function PageIDs(added: seq<Event>): set<string> { set ev | ev in added :: ev.serverID }

  /** Some visible meeting has this record's content, and the record's own
      identity, when visible, shows it. */
  ghost predicate Backed(c: Cal, ev: Event) {
    && (ev.serverID in c.events ==> SameContent(c.events[ev.serverID], ev))
    && exists y :: y in c.events && SameContent(c.events[y], ev)
  }

  ghost predicate Resolves(c: Cal, ev: Event) {
    var x := Canonical(c, ev.serverID);
    x.Some? && SameContent(c.events[x.value], ev)
  }

  ghost predicate AliasesDifferOnly(c: Cal, d: Cal, ids: set<string>) {
    forall a :: a !in ids ==> (a in d.aliases <==> a in c.aliases) && (a in d.aliases ==> d.aliases[a] == c.aliases[a])
  }

  /** An Add during a replay changes at most its own alias or its own UID. */
  lemma {:induction false} ReplayedAdd(w: World, ev: Event)
    requires Sound(w.cal) && Backed(w.cal, ev)
    ensures var d := AddEvent(w, ev, true).0.cal;
      && SameMeetings(w.cal, d) && AliasesDifferOnly(w.cal, d, {ev.serverID})
      && (ev.serverID != "" ==> Resolves(d, ev))
  {
    var c, id := w.cal, ev.serverID;
    if id != "" && id !in c.events && !KeepsAlias(c, ev) {
      var y :| y in c.events && SameContent(c.events[y], ev);
      assert y in Matches(c.events, ev, true);
      assert FoldTarget(c.events, ev, true).Some?;
      FoldTargetIsVisible(c.events, ev, true);
      assert AddEvent(w, ev, true).0.cal.events == c.events;
    }
  }

  lemma {:induction false} BackedStays(c: Cal, d: Cal, ev: Event)
    requires SameMeetings(c, d) && Backed(c, ev)
    ensures Backed(d, ev)
  {
    var y :| y in c.events && SameContent(c.events[y], ev);
    assert SameContent(d.events[y], ev);
  }

  ghost predicate AllResolve(d: Cal, evs: seq<Event>) {
    forall id :: id in PageIDs(evs) && id != "" ==> exists ev :: ev in evs && ev.serverID == id && Resolves(d, ev)
  }

  lemma {:induction false} ReplayedAdds(w: World, evs: seq<Event>)
    requires Sound(w.cal) && forall ev :: ev in evs ==> Backed(w.cal, ev)
    ensures var d := AddAll(w, evs, true).0.cal;
      Sound(d) && SameMeetings(w.cal, d) && AliasesDifferOnly(w.cal, d, PageIDs(evs)) && AllResolve(d, evs)
    decreases |evs|
  {
    if evs != [] {
      var init, ev := evs[..|evs| - 1], evs[|evs| - 1];
      assert evs == init + [ev];
      ReplayedAdds(w, init);
      var w1 := AddAll(w, init, true).0;
      BackedStays(w.cal, w1.cal, ev);
      ReplayedAdd(w1, ev);
      AddKeepsSound(w1, ev, true);
      var d := AddEvent(w1, ev, true).0.cal;
      assert PageIDs(evs) == PageIDs(init) + {ev.serverID};
      ResolvedStay(w1.cal, d, init, ev);
    }
  }

  lemma {:induction false} ResolvedStay(c: Cal, d: Cal, init: seq<Event>, ev: Event)
    requires SameMeetings(c, d) && AliasesDifferOnly(c, d, {ev.serverID}) && AllResolve(c, init)
    requires ev.serverID != "" ==> Resolves(d, ev)
    ensures AllResolve(d, init + [ev])
  {
    var evs := init + [ev];
    forall id | id in PageIDs(evs) && id != "" ensures exists e :: e in evs && e.serverID == id && Resolves(d, e) {
      if id == ev.serverID {
        assert ev in evs;
      } else {
        assert id in PageIDs(init);
        var e :| e in init && e.serverID == id && Resolves(c, e);
        assert e in evs && Resolves(d, e);
      }
    }
  }

  lemma {:induction false} ReplayIsBacked(page: Page, c: Cal, ev: Event)
    requires Sound(c) && IsDuplicateReplay(page, c) && ev in page.added
    ensures Backed(c, ev) && PageTarget(c, ev).Some?
    ensures var x := PageTarget(c, ev).value; x in c.events && SameContent(c.events[x], ev)
  {
    if Canonical(c, ev.serverID).None? { FoundIsEquivalent(c.events, ev, true); }
  }

  /** A page judged a duplicate replay never adds or removes a visible identity and
      never changes what a visible event says, apart from its UID. */
  lemma {:induction false} ReplayPageShowsNothingNew(w: World, page: Page)
    requires Sound(w.cal) && IsDuplicateReplay(page, w.cal)
    ensures Sound(ApplyPage(w, page).0.cal) && SameMeetings(w.cal, ApplyPage(w, page).0.cal)
  {
    ReplayAliases(w, page);
  }

  /** The cache after a replay page: pruned, then only page identities re-aliased. */
  lemma {:induction false} ReplayAliases(w: World, page: Page)
    requires Sound(w.cal) && IsDuplicateReplay(page, w.cal)
    ensures var d, ids := ApplyPage(w, page).0.cal, PageIDs(page.added);
      && Sound(d) && SameMeetings(w.cal, d)
      && (forall x :: Members(d, x) - ids == Members(w.cal, x) - Pruned(w.cal, page.added) - ids)
      && AllResolve(d, page.added)
  {
    var w0 := PruneAliases(w, page.added);
    PruneKeepsSound(w, page.added);
    forall ev | ev in page.added ensures Backed(w0.cal, ev) {
      ReplayIsBacked(page, w.cal, ev);
      BackedStays(w.cal, w0.cal, ev);
    }
    ReplayedAdds(w0, page.added);
    assert ApplyPage(w, page).0 == AddAll(w0, page.added, true).0;
  }

  lemma {:induction false} SubsetSize(a: set<string>, b: set<string>)
    requires a <= b
    ensures |a| <= |b|
  {
    assert b == a + (b - a);
  }

  /** Dropping all but the top n leaves at most n elements. */
  lemma {:induction false} TopIsBounded(s: set<string>, n: nat)
    ensures |s - AllButTop(s, n)| <= n
  {
    var top := s - AllButTop(s, n);
    if top != {} {
      var x := Least(top);
      assert top - {x} <= Above(s, x);
      SubsetSize(top - {x}, Above(s, x));
    }
  }

  lemma {:induction false} PruningBounds(c: Cal, added: seq<Event>, x: string)
    requires Touched(c, added, x)
    ensures |Members(c, x) - Pruned(c, added) - PageIDs(added)| <= MAX_STABLE_ALIASES
  {
    var stable := StaleAliases(c, added, x, false);
    TopIsBounded(stable, MAX_STABLE_ALIASES);
    forall a | a in Members(c, x) - Pruned(c, added) - PageIDs(added)
      ensures a in stable - AllButTop(stable, MAX_STABLE_ALIASES)
    {
      assert a !in KeptIDs(c, added, x);
    }
    SubsetSize(Members(c, x) - Pruned(c, added) - PageIDs(added), stable - AllButTop(stable, MAX_STABLE_ALIASES));
  }

  // ---------- which events receive the page's identities ----------

  /** The visible event that a record's identity is made an alias of during a replay. */
  ghost function Recipient(c: Cal, ev: Event): Option<string> {
    var id := ev.serverID;
    if id == "" || id in c.events then None
    else if KeepsAlias(c, ev) then Some(c.aliases[id].canonicalID)
    else FoldTarget(c.events, ev, true)
  }

  /** The cache when record i of the page is reached. */
  ghost function Reached(w: World, page: Page, i: nat): Cal
    requires i <= |page.added|
  {
    AddAll(PruneAliases(w, page.added), page.added[..i], true).0.cal
  }

  ghost predicate LastOfItsID(added: seq<Event>, i: nat)
    requires i < |added|
  {
    forall j :: i < j < |added| ==> added[j].serverID != added[i].serverID
  }

  /** Wherever `x` is the recipient of one of the page's identities, some record of the page
      has it for its replay target, so that its aliases have been pruned. */
  ghost predicate Aimed(w: World, page: Page, x: string) {
    forall i :: 0 <= i < |page.added| && LastOfItsID(page.added, i) &&
                Recipient(Reached(w, page, i), page.added[i]) == Some(x) ==>
      Touched(w.cal, page.added, x)
  }

  /** The event an identity is an alias of. */
  function Holder(c: Cal, id: string): Option<string> {
    if id in c.aliases then Some(c.aliases[id].canonicalID) else None
  }

  lemma {:induction false} RecipientHolds(w: World, ev: Event)
    requires Sound(w.cal) && Backed(w.cal, ev) && ev.serverID != ""
    ensures Holder(AddEvent(w, ev, true).0.cal, ev.serverID) == Recipient(w.cal, ev)
  {
    var c, id := w.cal, ev.serverID;
    if id !in c.events && !KeepsAlias(c, ev) {
      var y :| y in c.events && SameContent(c.events[y], ev);
      assert y in Matches(c.events, ev, true);
      assert FoldTarget(c.events, ev, true).Some?;
    }
  }

  lemma {:induction false} HolderStays(c: Cal, d: Cal, ids: set<string>, a: string)
    requires AliasesDifferOnly(c, d, ids) && a !in ids
    ensures Holder(d, a) == Holder(c, a)
  {
  }

  /** The page without its last record, and that record. */
  lemma {:induction false} LastAdd(w: World, init: seq<Event>, ev: Event)
    requires Sound(w.cal) && (forall e :: e in init + [ev] ==> Backed(w.cal, e))
    ensures var w1 := AddAll(w, init, true).0;
      AddAll(w, init + [ev], true).0 == AddEvent(w1, ev, true).0 && Sound(w1.cal) && Backed(w1.cal, ev)
  {
    assert (init + [ev])[..|init|] == init;
    forall e | e in init ensures Backed(w.cal, e) { assert e in init + [ev]; }
    ReplayedAdds(w, init);
    assert ev in init + [ev];
    BackedStays(w.cal, AddAll(w, init, true).0.cal, ev);
  }

  /** The last record puts its identity with its recipient and leaves the others alone. */
  lemma {:induction false} LastAddHolds(w: World, init: seq<Event>, ev: Event, id: string)
    requires Sound(w.cal) && (forall e :: e in init + [ev] ==> Backed(w.cal, e)) && id != ""
    ensures var c, d := AddAll(w, init, true).0.cal, AddAll(w, init + [ev], true).0.cal;
      Holder(d, id) == if id == ev.serverID then Recipient(c, ev) else Holder(c, id)
  {
    var w1 := AddAll(w, init, true).0;
    LastAdd(w, init, ev);
    if id == ev.serverID {
      RecipientHolds(w1, ev);
    } else {
      ReplayedAdd(w1, ev);
      HolderStays(w1.cal, AddEvent(w1, ev, true).0.cal, {ev.serverID}, id);
    }
  }

  /** Later records with other identities leave it where it was put. */
  lemma {:induction false} RecipientStays(w: World, evs: seq<Event>, i: nat)
    requires Sound(w.cal) && (forall ev :: ev in evs ==> Backed(w.cal, ev)) && i < |evs|
    requires evs[i].serverID != "" && LastOfItsID(evs, i)
    ensures Holder(AddAll(w, evs, true).0.cal, evs[i].serverID) == Recipient(AddAll(w, evs[..i], true).0.cal, evs[i])
    decreases |evs|
  {
    var init, ev := evs[..|evs| - 1], evs[|evs| - 1];
    assert evs == init + [ev];
    LastAddHolds(w, init, ev, evs[i].serverID);
    if i < |init| {
      forall e | e in init ensures Backed(w.cal, e) { assert e in evs; }
      assert init[i] == evs[i] && init[..i] == evs[..i];
      RecipientStays(w, init, i);
    }
  }

  lemma {:induction false} LastRecord(added: seq<Event>, id: string) returns (i: nat)
    requires id in PageIDs(added)
    ensures i < |added| && added[i].serverID == id && LastOfItsID(added, i)
    decreases |added|
  {
    var n := |added| - 1;
    if added[n].serverID == id {
      i := n;
    } else {
      var init := added[..n];
      assert added == init + [added[n]];
      i := LastRecord(init, id);
      assert forall j :: i < j < n ==> init[j] == added[j];
    }
  }

  lemma {:induction false} PrunedIsBacked(w: World, page: Page)
    requires Sound(w.cal) && IsDuplicateReplay(page, w.cal)
    ensures var w0 := PruneAliases(w, page.added);
      Sound(w0.cal) && forall ev :: ev in page.added ==> Backed(w0.cal, ev)
  {
    var w0 := PruneAliases(w, page.added);
    PruneKeepsSound(w, page.added);
    forall ev | ev in page.added ensures Backed(w0.cal, ev) {
      ReplayIsBacked(page, w.cal, ev);
      BackedStays(w.cal, w0.cal, ev);
    }
  }

  /** The identity of record i, if no later one has it, ends up with its recipient. */
  lemma {:induction false} RecordEndsAtRecipient(w: World, page: Page, i: nat, x: string)
    requires Sound(w.cal) && IsDuplicateReplay(page, w.cal) && i < |page.added|
    requires page.added[i].serverID != "" && LastOfItsID(page.added, i)
    ensures page.added[i].serverID in Members(ApplyPage(w, page).0.cal, x)
      <==> Recipient(Reached(w, page, i), page.added[i]) == Some(x)
  {
    var w0, evs := PruneAliases(w, page.added), page.added;
    PrunedIsBacked(w, page);
    RecipientStays(w0, evs, i);
    assert ApplyPage(w, page).0 == AddAll(w0, evs, true).0;
  }

  /** Exactly when a page is aimed at an event, the event cannot receive aliases from the
      page without having its own pruned. */
  lemma {:induction false} ReceivesOnlyIfTouchedIffAimed(w: World, page: Page, x: string)
    requires Sound(w.cal) && IsDuplicateReplay(page, w.cal)
    ensures (Members(ApplyPage(w, page).0.cal, x) * PageIDs(page.added) != {} ==> Touched(w.cal, page.added, x))
      <==> Aimed(w, page, x)
  {
    var d, ids := ApplyPage(w, page).0.cal, PageIDs(page.added);
    ReplayAliases(w, page);
    if id :| id in Members(d, x) * ids {
      var i := LastRecord(page.added, id);
      RecordEndsAtRecipient(w, page, i, x);
    }
    forall i | 0 <= i < |page.added| && LastOfItsID(page.added, i)
               && Recipient(Reached(w, page, i), page.added[i]) == Some(x)
      ensures Members(d, x) * ids != {}
    {
      RecordEndsAtRecipient(w, page, i, x);
      assert page.added[i].serverID in Members(d, x) * ids;
    }
  }

  lemma {:induction false} AliasReceives(c: Cal, d: Cal, ev: Event, t: string)
    requires SameMeetings(c, d) && Sound(d) && Holder(d, ev.serverID) == Some(t)
    requires t in c.events && SameContent(c.events[t], ev)
    ensures Recipient(d, ev) == Some(t)
  {
    assert SameContent(c.events[t], d.events[t]);
  }

  /** Every record of the page with this identity has the content of the event the identity
      is an alias of; so the identity stays where it is. */
  lemma {:induction false} HolderKept(w: World, evs: seq<Event>, id: string, t: string)
    requires Sound(w.cal) && (forall ev :: ev in evs ==> Backed(w.cal, ev)) && Holder(w.cal, id) == Some(t)
    requires forall ev :: ev in evs && ev.serverID == id ==> SameContent(w.cal.events[t], ev)
    ensures Holder(AddAll(w, evs, true).0.cal, id) == Some(t)
    decreases |evs|
  {
    if evs != [] {
      var init, ev := evs[..|evs| - 1], evs[|evs| - 1];
      assert evs == init + [ev] && ev in evs;
      forall e | e in init ensures e in evs {}
      HolderKept(w, init, id, t);
      LastAddHolds(w, init, ev, id);
      if ev.serverID == id {
        ReplayedAdds(w, init);
        AliasReceives(w.cal, AddAll(w, init, true).0.cal, ev, t);
      }
    }
  }

  /** A page identity that is an alias already is kept by pruning and by the records in
      front of it. */
  lemma {:induction false} KnownRecipient(w: World, page: Page, i: nat)
    requires Sound(w.cal) && IsDuplicateReplay(page, w.cal) && i < |page.added|
    requires page.added[i].serverID in w.cal.aliases
    ensures Recipient(Reached(w, page, i), page.added[i]) == PageTarget(w.cal, page.added[i])
  {
    var c, w0, ev := w.cal, PruneAliases(w, page.added), page.added[i];
    var id, t := ev.serverID, c.aliases[ev.serverID].canonicalID;
    PrunedIsBacked(w, page);
    assert ev in page.added && PageTarget(c, ev) == Some(t);
    assert id in KeptIDs(c, page.added, t);
    assert Holder(w0.cal, id) == Some(t);
    forall e | e in page.added[..i] ensures e in page.added && Backed(w0.cal, e) {}
    forall e | e in page.added && e.serverID == id ensures SameContent(w0.cal.events[t], e) {
      assert Repeats(c, e) && Canonical(c, id) == Some(t);
    }
    HolderKept(w0, page.added[..i], id, t);
    ReplayedAdds(w0, page.added[..i]);
    AliasReceives(w0.cal, Reached(w, page, i), ev, t);
  }

  /** An event that no smaller one shares its content with is aimed at by every replay page:
      the identities it may receive are its own aliases, or unknown and then looked up by
      content. */
  lemma {:induction false} LeastTwinIsAimed(w: World, page: Page, x: string)
    requires Sound(w.cal) && IsDuplicateReplay(page, w.cal) && !HasSmallerTwin(w.cal, x)
    ensures Aimed(w, page, x)
  {
    forall i | 0 <= i < |page.added| && Recipient(Reached(w, page, i), page.added[i]) == Some(x)
      ensures Touched(w.cal, page.added, x)
    {
      var ev := page.added[i];
      RecipientHasContent(w, page, i, x);
      ReplayIsBacked(page, w.cal, ev);
      if ev.serverID in w.cal.aliases {
        KnownRecipient(w, page, i);
      } else {
        ReachedShows(w, page, i);
        LeastByContent(w.cal, ev, x);
      }
      assert PageTarget(w.cal, ev) == Some(x);
    }
  }

  lemma {:induction false} ReachedShows(w: World, page: Page, i: nat)
    requires Sound(w.cal) && IsDuplicateReplay(page, w.cal) && i <= |page.added|
    ensures Reached(w, page, i).events.Keys == w.cal.events.Keys
  {
    var w0 := PruneAliases(w, page.added);
    PrunedIsBacked(w, page);
    forall e | e in page.added[..i] ensures Backed(w0.cal, e) { assert e in page.added; }
    ReplayedAdds(w0, page.added[..i]);
  }

  lemma {:induction false} LeastByContent(c: Cal, ev: Event, x: string)
    requires x in c.events && SameContent(c.events[x], ev) && !HasSmallerTwin(c, x)
    ensures Find(c.events, ev, true) == Some(x)
  {
    var m := Matches(c.events, ev, true);
    assert x in m;
    forall y | y in m && y != x ensures Less(x, y) {
      LessTotal(x, y);
      assert SameContent(c.events[y], c.events[x]);
    }
    assert IsLeast(x, m);
    LeastUnique(x, m);
  }

  lemma {:induction false} RecipientHasContent(w: World, page: Page, i: nat, x: string)
    requires Sound(w.cal) && IsDuplicateReplay(page, w.cal) && i < |page.added|
    requires Recipient(Reached(w, page, i), page.added[i]) == Some(x)
    ensures x in w.cal.events && SameContent(w.cal.events[x], page.added[i])
  {
    var w0, c := PruneAliases(w, page.added), Reached(w, page, i);
    PrunedIsBacked(w, page);
    ReplayedAdds(w0, page.added[..i]);
    if !KeepsAlias(c, page.added[i]) { FoldTargetIsVisible(c.events, page.added[i], true); }
    assert SameContent(w0.cal.events[x], c.events[x]);
  }

  // ---------- how many aliases a page can leave ----------

  /** After a replay page, every event that one of the page's identities stands for keeps at
      most eight other aliases, unless a smaller one has its content. */
  lemma {:induction false} ReplayPageBoundsAliases(w: World, page: Page, id: string)
    requires Sound(w.cal) && IsDuplicateReplay(page, w.cal)
    requires id in PageIDs(page.added) && id != ""
    ensures var d := ApplyPage(w, page).0.cal;
      && Canonical(d, id).Some?
      && var x := Canonical(d, id).value;
         (!HasSmallerTwin(w.cal, x) || Touched(w.cal, page.added, x) ==>
            |Members(d, x) - PageIDs(page.added)| <= MAX_STABLE_ALIASES)
  {
    var c, d := w.cal, ApplyPage(w, page).0.cal;
    ReplayAliases(w, page);
    var ev :| ev in page.added && ev.serverID == id && Resolves(d, ev);
    var x := Canonical(d, id).value;
    ReplayIsBacked(page, c, ev);
    assert SameContent(c.events[x], d.events[x]) && SameContent(c.events[PageTarget(c, ev).value], c.events[x]);
    if id == x {
      assert PageTarget(c, ev) == Some(x);
    } else if !HasSmallerTwin(c, x) {
      LeastTwinIsAimed(w, page, x);
      assert id in Members(d, x) * PageIDs(page.added);
      ReceivesOnlyIfTouchedIffAimed(w, page, x);
    }
    if Touched(c, page.added, x) { PruningBounds(c, page.added, x); }
  }

  lemma {:induction false} PageSize(added: seq<Event>)
    ensures |PageIDs(added)| <= |added|
    decreases |added|
  {
    if added != [] {
      var init, ev := added[..|added| - 1], added[|added| - 1];
      PageSize(init);
      assert added == init + [ev];
      assert PageIDs(added) == PageIDs(init) + {ev.serverID};
    }
  }

  lemma {:induction false} SplitCount(s: set<string>, ids: set<string>)
    ensures |s| <= |s - ids| + |ids|
  {
    SubsetSize(s * ids, ids);
    assert s == (s - ids) + (s * ids);
  }

  lemma {:induction false} NoneOfThePage(members: set<string>, was: set<string>, pruned: set<string>, ids: set<string>)
    requires members * ids == {} && members - ids == was - pruned - ids
    ensures |members| <= |was|
  {
    forall a | a in members ensures a in was {
      assert a in ids ==> a in members * ids;
      assert a in members - ids;
    }
    SubsetSize(members, was);
  }

  lemma {:induction false} TouchedAliasCount(w: World, page: Page, x: string)
    requires Sound(w.cal) && Touched(w.cal, page.added, x) && IsDuplicateReplay(page, w.cal)
    ensures |Members(ApplyPage(w, page).0.cal, x)| <= MAX_STABLE_ALIASES + |page.added|
  {
    ReplayAliases(w, page);
    PruningBounds(w.cal, page.added, x);
    PageSize(page.added);
    SplitCount(Members(ApplyPage(w, page).0.cal, x), PageIDs(page.added));
  }

  lemma {:induction false} ReplayPageAliasCount(w: World, page: Page, x: string)
    requires Sound(w.cal) && Aimed(w, page, x) && IsDuplicateReplay(page, w.cal)
    ensures var n := |Members(ApplyPage(w, page).0.cal, x)|;
            n <= |Members(w.cal, x)| || n <= MAX_STABLE_ALIASES + |page.added|
  {
    if Touched(w.cal, page.added, x) {
      TouchedAliasCount(w, page, x);
    } else {
      ReceivesOnlyIfTouchedIffAimed(w, page, x);
      ReplayAliases(w, page);
      NoneOfThePage(Members(ApplyPage(w, page).0.cal, x), Members(w.cal, x), Pruned(w.cal, page.added),
        PageIDs(page.added));
    }
  }

  ghost predicate ReplayRun(w: World, pages: seq<Page>)
    decreases |pages|
  {
    pages == [] || (IsDuplicateReplay(pages[0], w.cal) && ReplayRun(ApplyPage(w, pages[0]).0, pages[1..]))
  }

  ghost function AfterPages(w: World, pages: seq<Page>): World
    decreases |pages|
  {
    if pages == [] then w else AfterPages(ApplyPage(w, pages[0]).0, pages[1..])
  }

  lemma {:induction false} SmallerTwinStays(c: Cal, d: Cal, y: string)
    requires SameMeetings(c, d)
    ensures HasSmallerTwin(c, y) <==> HasSmallerTwin(d, y)
  {
    forall x | x in c.events && y in c.events
      ensures SameContent(c.events[x], c.events[y]) <==> SameContent(d.events[x], d.events[y])
    {
      assert SameContent(c.events[x], d.events[x]) && SameContent(c.events[y], d.events[y]);
    }
  }

  /** However long the server keeps replaying, the visible meetings stay, and an event whose
      content no smaller one has never collects more aliases than it had or one page plus
      eight. */
  lemma {:induction false} EndlessReplayIsBounded(w: World, pages: seq<Page>, windowSize: nat, x: string)
    requires Sound(w.cal) && ReplayRun(w, pages) && !HasSmallerTwin(w.cal, x)
    requires forall p :: p in pages ==> |p.added| <= windowSize
    ensures var d := AfterPages(w, pages).cal;
      && Sound(d) && SameMeetings(w.cal, d)
      && (|Members(d, x)| <= |Members(w.cal, x)| || |Members(d, x)| <= MAX_STABLE_ALIASES + windowSize)
    decreases |pages|
  {
    if pages != [] {
      var w1 := ApplyPage(w, pages[0]).0;
      ReplayPageShowsNothingNew(w, pages[0]);
      LeastTwinIsAimed(w, pages[0], x);
      ReplayPageAliasCount(w, pages[0], x);
      SmallerTwinStays(w.cal, w1.cal, x);
      EndlessReplayIsBounded(w1, pages[1..], windowSize, x);
    }
  }
}
