/** What single records and whole pages mean for what is shown, field by field and record by
    record. */
module CalendarMeaning {
  import opened Ids
  import opened Calendar
  import opened CalendarLaws

  // ---------- what counts as the same ----------

  /** Two events have the same content if nothing but the two identity fields differs. */
  lemma {:induction false} SameContentIff(a: Event, b: Event)
    ensures SameContent(a, b) <==>
      && a.subject == b.subject && a.location == b.location && a.body == b.body
      && a.start == b.start && a.end == b.end && a.allDay == b.allDay
      && a.organizerEmail == b.organizerEmail && a.details == b.details
    ensures EqualExceptServerID(a, b) <==> SameContent(a, b) && a.uid == b.uid
  {
    var x, y := Content(a), Content(b);
    assert x.subject == a.subject && x.location == a.location && x.body == a.body && x.start == a.start;
    assert x.end == a.end && x.allDay == a.allDay && x.organizerEmail == a.organizerEmail && x.details == a.details;
    assert Unnamed(a).uid == a.uid && Content(Unnamed(a)) == x && Content(Unnamed(b)) == y;
  }

  // ---------- progress ----------

  /** A record reports progress exactly if it changes what is shown. */
  lemma {:induction false} AddProgress(w: World, ev: Event, replay: bool)
    requires Sound(w.cal)
    ensures AddEvent(w, ev, replay).1 <==> AddEvent(w, ev, replay).0.cal.events != w.cal.events
  {
    var c, d := w.cal, AddEvent(w, ev, replay).0.cal;
    if ev.serverID in d.events && ev.serverID !in c.events { assert d.events != c.events; }
    if AddEvent(w, ev, replay).1 { assert ev.serverID in d.events && d.events[ev.serverID] == ev; }
  }

  lemma {:induction false} ChangeProgress(w: World, ev: Event)
    requires Sound(w.cal)
    ensures ChangeEvent(w, ev).1 <==> ChangeEvent(w, ev).0.cal.events != w.cal.events
  {
    if ChangeEvent(w, ev).1 { assert ev.serverID in ChangeEvent(w, ev).0.cal.events; }
  }

  lemma {:induction false} DeleteProgress(w: World, id: string)
    requires Sound(w.cal)
    ensures DeleteEvent(w, id).1 <==> DeleteEvent(w, id).0.cal.events != w.cal.events
    ensures DeleteEvent(w, id).1 <==> id in w.cal.events
  {
    if id in w.cal.events {
      if Members(w.cal, id) != {} {
        LeastExists(Members(w.cal, id));
        assert Least(Members(w.cal, id)) in w.cal.aliases;
      }
      assert id !in DeleteEvent(w, id).0.cal.events;
    }
  }

  /** Some record of the list, when its turn comes, changes what is shown. */
  ghost predicate AddsAlter(w: World, evs: seq<Event>, replay: bool)
    decreases |evs|
  {
    evs != [] && (AddsAlter(w, evs[..|evs| - 1], replay) ||
                  AddAll(w, evs, replay).0.cal.events != AddAll(w, evs[..|evs| - 1], replay).0.cal.events)
  }

  ghost predicate ChangesAlter(w: World, evs: seq<Event>)
    decreases |evs|
  {
    evs != [] && (ChangesAlter(w, evs[..|evs| - 1]) ||
                  ChangeAll(w, evs).0.cal.events != ChangeAll(w, evs[..|evs| - 1]).0.cal.events)
  }

  ghost predicate DeletesAlter(w: World, ids: seq<string>)
    decreases |ids|
  {
    ids != [] && (DeletesAlter(w, ids[..|ids| - 1]) ||
                  DeleteAll(w, ids).0.cal.events != DeleteAll(w, ids[..|ids| - 1]).0.cal.events)
  }

  lemma {:induction false} AddsProgress(w: World, evs: seq<Event>, replay: bool)
    requires Sound(w.cal)
    ensures Sound(AddAll(w, evs, replay).0.cal) && (AddAll(w, evs, replay).1 <==> AddsAlter(w, evs, replay))
    decreases |evs|
  {
    if evs != [] {
      var init, ev := evs[..|evs| - 1], evs[|evs| - 1];
      AddsProgress(w, init, replay);
      AddKeepsSound(AddAll(w, init, replay).0, ev, replay);
      AddProgress(AddAll(w, init, replay).0, ev, replay);
    }
  }

  lemma {:induction false} ChangesProgress(w: World, evs: seq<Event>)
    requires Sound(w.cal)
    ensures Sound(ChangeAll(w, evs).0.cal) && (ChangeAll(w, evs).1 <==> ChangesAlter(w, evs))
    decreases |evs|
  {
    if evs != [] {
      var init, ev := evs[..|evs| - 1], evs[|evs| - 1];
      ChangesProgress(w, init);
      ChangeKeepsSound(ChangeAll(w, init).0, ev);
      ChangeProgress(ChangeAll(w, init).0, ev);
    }
  }

  lemma {:induction false} DeletesProgress(w: World, ids: seq<string>)
    requires Sound(w.cal)
    ensures Sound(DeleteAll(w, ids).0.cal) && (DeleteAll(w, ids).1 <==> DeletesAlter(w, ids))
    decreases |ids|
  {
    if ids != [] {
      var init, id := ids[..|ids| - 1], ids[|ids| - 1];
      DeletesProgress(w, init);
      DeleteKeepsSound(DeleteAll(w, init).0, id);
      DeleteProgress(DeleteAll(w, init).0, id);
    }
  }

  // ---------- a page, record by record ----------

  /** The cache after the page's pruning, its adds, its changes, and its deletes. */
  ghost function Stages(w: World, page: Page): (World, World, World, World) {
    var replay := IsDuplicateReplay(page, w.cal);
    var w0 := if replay then PruneAliases(w, page.added) else w;
    var w1 := AddAll(w0, page.added, replay).0;
    var w2 := ChangeAll(w1, page.changed).0;
    (w0, w1, w2, DeleteAll(w2, page.deleted).0)
  }

  lemma {:induction false} StagesAreSound(w: World, page: Page)
    requires Sound(w.cal)
    ensures var (w0, w1, w2, w3) := Stages(w, page);
      Sound(w0.cal) && Sound(w1.cal) && Sound(w2.cal) && Sound(w3.cal) && ApplyPage(w, page).0 == w3
  {
    var (w0, w1, w2, _) := Stages(w, page);
    PruneKeepsSound(w, page.added);
    AddsProgress(w0, page.added, IsDuplicateReplay(page, w.cal));
    ChangesProgress(w1, page.changed);
    DeletesProgress(w2, page.deleted);
  }

  /** A page counts as progress exactly if one of its records, in the order adds, changes,
      deletes, changes what is shown when its turn comes. */
  lemma {:induction false} PageProgress(w: World, page: Page)
    requires Sound(w.cal)
    ensures var (w0, w1, w2, _) := Stages(w, page);
      ApplyPage(w, page).1 <==>
        AddsAlter(w0, page.added, IsDuplicateReplay(page, w.cal)) || ChangesAlter(w1, page.changed)
        || DeletesAlter(w2, page.deleted)
  {
    var (w0, w1, w2, _) := Stages(w, page);
    StagesAreSound(w, page);
    AddsProgress(w0, page.added, IsDuplicateReplay(page, w.cal));
    ChangesProgress(w1, page.changed);
    DeletesProgress(w2, page.deleted);
  }

  /** The identity stands for an event that reads as the record does, under its UID. */
  ghost predicate Stands(c: Cal, ev: Event) {
    var x := Canonical(c, ev.serverID);
    && x.Some? && SameContent(c.events[x.value], ev)
    && (if ev.serverID in c.events then c.events[ev.serverID].uid == ev.uid
        else ev.serverID in c.aliases && c.aliases[ev.serverID].uid == ev.uid)
  }

  lemma {:induction false} AddStands(w: World, ev: Event, replay: bool)
    requires Sound(w.cal) && ev.serverID != ""
    ensures Stands(AddEvent(w, ev, replay).0.cal, ev)
  {
    var c := w.cal;
    if ev.serverID !in c.events && !KeepsAlias(c, ev) && FoldTarget(c.events, ev, replay).Some? {
      FoldTargetIsVisible(c.events, ev, replay);
    }
  }

  lemma {:induction false} ChangeStands(w: World, ev: Event)
    requires Sound(w.cal) && ev.serverID != ""
    ensures Stands(ChangeEvent(w, ev).0.cal, ev)
  {
  }

  lemma {:induction false} DeletedIsGone(w: World, id: string)
    requires Sound(w.cal)
    ensures var d := DeleteEvent(w, id).0.cal; id !in d.events && id !in d.aliases
    ensures forall x :: x !in w.cal.events && x !in w.cal.aliases ==>
      var d := DeleteEvent(w, id).0.cal; x !in d.events && x !in d.aliases
  {
    if id in w.cal.events && Members(w.cal, id) != {} {
      LeastExists(Members(w.cal, id));
      assert Least(Members(w.cal, id)) in w.cal.aliases;
    }
  }

  lemma {:induction false} DeletedAreGone(w: World, ids: seq<string>)
    requires Sound(w.cal)
    ensures var d := DeleteAll(w, ids).0.cal; forall id :: id in ids ==> id !in d.events && id !in d.aliases
    decreases |ids|
  {
    if ids != [] {
      var init, id := ids[..|ids| - 1], ids[|ids| - 1];
      assert ids == init + [id];
      DeletedAreGone(w, init);
      DeletesProgress(w, init);
      DeletedIsGone(DeleteAll(w, init).0, id);
    }
  }

  /** The records of a page take effect in the order adds, changes, deletes: what it deletes is
      gone afterwards, whatever it adds or changes; without deletes, its last change reads as
      it says; with neither, its last add. */
  lemma {:induction false} PageInOrder(w: World, page: Page)
    requires Sound(w.cal)
    ensures var d := ApplyPage(w, page).0.cal;
      && (forall id :: id in page.deleted ==> id !in d.events && id !in d.aliases)
      && (page.deleted == [] && page.changed != [] && page.changed[|page.changed| - 1].serverID != "" ==>
            Stands(d, page.changed[|page.changed| - 1]))
      && (page.deleted == [] && page.changed == [] && page.added != []
          && page.added[|page.added| - 1].serverID != "" ==>
            Stands(d, page.added[|page.added| - 1]))
  {
    var (w0, w1, w2, w3) := Stages(w, page);
    StagesAreSound(w, page);
    DeletedAreGone(w2, page.deleted);
    if page.deleted == [] && page.changed != [] && page.changed[|page.changed| - 1].serverID != "" {
      var init := page.changed[..|page.changed| - 1];
      ChangesProgress(w1, init);
      ChangeStands(ChangeAll(w1, init).0, page.changed[|page.changed| - 1]);
    }
    if page.deleted == [] && page.changed == [] && page.added != [] && page.added[|page.added| - 1].serverID != "" {
      var init, replay := page.added[..|page.added| - 1], IsDuplicateReplay(page, w.cal);
      AddsProgress(w0, init, replay);
      AddStands(AddAll(w0, init, replay).0, page.added[|page.added| - 1], replay);
    }
  }

  // ---------- what a Delete leaves of the others ----------

  /** The other identities of a deleted event's group keep their UID and their mark; the one
      that takes its place keeps its UID and shows the content. */
  lemma {:induction false} DeleteLeavesTheOthers(w: World, id: string)
    requires Sound(w.cal)
    ensures var c, d := w.cal, DeleteEvent(w, id).0.cal;
      && (forall a :: a in d.aliases ==>
            && a in c.aliases && a != id
            && d.aliases[a].uid == c.aliases[a].uid && d.aliases[a].replay == c.aliases[a].replay
            && (if c.aliases[a].canonicalID == id then IsLeast(d.aliases[a].canonicalID, Members(c, id))
                else d.aliases[a].canonicalID == c.aliases[a].canonicalID))
      && (forall x :: x in d.events && x in c.events ==> x != id && d.events[x] == c.events[x])
      && (forall x :: x in d.events && x !in c.events ==>
            && IsLeast(x, Members(c, id)) && id in c.events
            && d.events[x] == c.events[id].(serverID := x, uid := c.aliases[x].uid))
  {
    var c, d := w.cal, DeleteEvent(w, id).0.cal;
    if id in c.events && Members(c, id) != {} {
      LeastExists(Members(c, id));
      var heir := Least(Members(c, id));
      assert IsLeast(heir, Members(c, id)) && heir in c.aliases;
      forall a | a in d.aliases && c.aliases[a].canonicalID == id ensures d.aliases[a].canonicalID == heir {
        assert a in Members(c, id) - {heir};
      }
    } else {
      forall a | a in d.aliases ensures c.aliases[a].canonicalID != id {
        assert a in Members(c, c.aliases[a].canonicalID);
      }
    }
  }

  // ---------- repairs ----------

  /** What normalize leaves of loaded maps: the events, and of the aliases those that stand for
      a visible event other than themselves; one is marked if it was, or if it has a UID and
      this is not the event's. */
  lemma {:induction false} NormalizeLeaves(c: Cal)
    ensures var d := Normalize(c);
      && d.events == c.events
      && (forall a :: a in d.aliases <==>
            && a in c.aliases && a != "" && a !in c.events && c.aliases[a].canonicalID in c.events
            && c.aliases[a].canonicalID != "" && c.aliases[a].canonicalID != a)
      && (forall a :: a in d.aliases ==>
            && d.aliases[a].canonicalID == c.aliases[a].canonicalID && d.aliases[a].uid == c.aliases[a].uid
            && (d.aliases[a].replay <==>
                  c.aliases[a].replay
                  || (c.aliases[a].uid != "" && c.aliases[a].uid != c.events[c.aliases[a].canonicalID].uid)))
  {
  }

  lemma {:induction false} RepresentativeIsLeast(events: map<string, Event>, x: string)
    requires x in events && events[x].uid != ""
    ensures IsLeast(Representative(events, x), Matches(events, events[x], false))
    ensures var r := Representative(events, x); r in events && Representative(events, r) == r
  {
    var same := Matches(events, events[x], false);
    assert x in same;
    var r := Representative(events, x);
    assert r in same && Unnamed(events[r]).uid == Unnamed(events[x]).uid;
    assert Matches(events, events[r], false) == same;
  }

  lemma {:induction false} FoldedIff(events: map<string, Event>, x: string)
    requires x in events
    ensures x !in Folded(events) <==>
            events[x].uid == "" ||
            forall y :: y in events && EqualExceptServerID(events[y], events[x]) && y != x ==> Less(x, y)
  {
    if events[x].uid != "" {
      var same := Matches(events, events[x], false);
      RepresentativeIsLeast(events, x);
      assert forall y :: y in same <==> y in events && EqualExceptServerID(events[y], events[x]);
      if Representative(events, x) != x {
        LessAsymmetric(Representative(events, x), x);
      }
    }
  }

  /** What the repair of duplicates makes of an event: it stays as it is, or becomes an unmarked
      alias, under its own UID, of a visible event that equals it.  It stays if it has no UID
      or no smaller event equals it. */
  lemma {:induction false} DedupeFolds(w: World, x: string)
    requires Sound(w.cal) && x in w.cal.events
    ensures var c, d := w.cal, Dedupe(w).cal;
      && (x in d.events <==>
            c.events[x].uid == "" ||
            forall y :: y in c.events && EqualExceptServerID(c.events[y], c.events[x]) && y != x ==> Less(x, y))
      && (x in d.events ==> d.events[x] == c.events[x])
      && (x !in d.events ==>
            && x in d.aliases && d.aliases[x].uid == c.events[x].uid && !d.aliases[x].replay
            && d.aliases[x].canonicalID in d.events
            && EqualExceptServerID(c.events[d.aliases[x].canonicalID], c.events[x]))
  {
    FoldedIff(w.cal.events, x);
    if x in Folded(w.cal.events) { RepresentativeIsLeast(w.cal.events, x); }
  }
}
