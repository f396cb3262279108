/** What every calendar operation keeps, and the plain map of remote identities
    that the folded cache stands for. */
module CalendarLaws {
  import opened Ids
  import opened Calendar

  /** Events are keyed by their own ServerID; no alias is visible; no empty key. */
  ghost predicate Separated(c: Cal) {
    && "" !in c.events && "" !in c.aliases
    && (forall id :: id in c.events ==> c.events[id].serverID == id)
    && c.events.Keys !! c.aliases.Keys
  }

  ghost predicate Attached(c: Cal) {
    forall a :: a in c.aliases ==> c.aliases[a].canonicalID in c.events
  }

  ghost predicate Sound(c: Cal) { Separated(c) && Attached(c) }

  /** The plain store: every remote identity the server has not deleted, with the
      event the server last sent for it. */
  ghost function View(c: Cal): map<string, Event> {
    map id | id in c.events.Keys + c.aliases.Keys && Canonical(c, id).Some? :: Seen(c, id)
  }

  ghost function Seen(c: Cal, id: string): Event
    requires Canonical(c, id).Some?
  {
    if id in c.events then c.events[id]
    else c.events[c.aliases[id].canonicalID].(serverID := id, uid := c.aliases[id].uid)
  }

  /** An update of a canonical event that other remote identities are folded into. */
  ghost predicate Drags(c: Cal, ev: Event) {
    && ev.serverID in c.events
    && !SameContent(c.events[ev.serverID], ev)
    && Members(c, ev.serverID) != {}
  }

  ghost function Dragged(c: Cal, ev: Event): map<string, Event> {
    if ev.serverID in c.events
    then map a | a in Members(c, ev.serverID) :: ev.(serverID := a, uid := c.aliases[a].uid)
    else map[]
  }

  lemma {:induction false} FoundIsEquivalent(events: map<string, Event>, ev: Event, ignoreUID: bool)
    requires Find(events, ev, ignoreUID).Some?
    ensures var id := Find(events, ev, ignoreUID).value;
            id in events && Equivalent(events[id], ev, ignoreUID) && SameContent(events[id], ev)
            && IsLeast(id, Matches(events, ev, ignoreUID))
  {
    var id := Find(events, ev, ignoreUID).value;
    assert id in Matches(events, ev, ignoreUID);
    assert Equivalent(events[id], ev, ignoreUID);
    SameButForName(events[id], ev);
  }

  lemma {:induction false} SameButForName(a: Event, b: Event)
    ensures EqualExceptServerID(a, b) <==> SameContent(a, b) && a.uid == b.uid
  {
    assert Content(a) == Unnamed(a).(uid := "") && Content(b) == Unnamed(b).(uid := "");
    assert a.(serverID := "") == Content(a).(uid := a.uid);
    assert b.(serverID := "") == Content(b).(uid := b.uid);
  }

  lemma {:induction false} FoldTargetIsVisible(events: map<string, Event>, ev: Event, replay: bool)
    requires FoldTarget(events, ev, replay).Some?
    ensures var id := FoldTarget(events, ev, replay).value; id in events && SameContent(events[id], ev)
  {
    if ev.uid != "" && Find(events, ev, false).Some? {
      FoundIsEquivalent(events, ev, false);
    } else {
      FoundIsEquivalent(events, ev, true);
    }
  }

  /** Same content means the same event under another name. */
  lemma {:induction false} SameContentRenamed(a: Event, b: Event)
    requires SameContent(a, b)
    ensures a.(serverID := b.serverID, uid := b.uid) == b
  {
    assert Content(a).(serverID := b.serverID, uid := b.uid) == Content(b).(serverID := b.serverID, uid := b.uid);
    assert Content(b).(serverID := b.serverID, uid := b.uid) == b;
    assert Content(a).(serverID := b.serverID, uid := b.uid) == a.(serverID := b.serverID, uid := b.uid);
  }

  // ---------- soundness is kept ----------

  lemma {:induction false} EventPut(c: Cal, ev: Event)
    requires ev.serverID != "" && ev.serverID !in c.aliases
    ensures var c' := c.(events := c.events[ev.serverID := ev]);
      (Separated(c) ==> Separated(c')) && (Sound(c) ==> Sound(c'))
  {
  }

  lemma {:induction false} AliasPut(c: Cal, id: string, a: Alias)
    requires id != "" && id !in c.events
    ensures var c' := c.(aliases := c.aliases + map[id := a]);
      (Separated(c) ==> Separated(c')) && (Sound(c) && a.canonicalID in c.events ==> Sound(c'))
  {
  }

  lemma {:induction false} Detached(w: World, id: string)
    ensures var c' := Detach(w, id).cal;
      && c'.events == w.cal.events && id !in c'.aliases
      && (Separated(w.cal) ==> Separated(c')) && (Sound(w.cal) ==> Sound(c'))
  {
  }

  lemma {:induction false} AddKeepsSound(w: World, ev: Event, replay: bool)
    ensures Separated(w.cal) ==> Separated(AddEvent(w, ev, replay).0.cal)
    ensures Sound(w.cal) ==> Sound(AddEvent(w, ev, replay).0.cal)
  {
    var id := ev.serverID;
    if id == "" {
    } else if id in w.cal.events {
      if id !in w.cal.aliases { EventPut(w.cal, ev); }
    } else if KeepsAlias(w.cal, ev) {
      var a := w.cal.aliases[id];
      AliasPut(w.cal, id, Alias(a.canonicalID, ev.uid, a.replay || replay));
    } else {
      var w', target := Detach(w, id), FoldTarget(w.cal.events, ev, replay);
      Detached(w, id);
      if target.Some? {
        FoldTargetIsVisible(w.cal.events, ev, replay);
        AliasPut(w'.cal, id, Alias(target.value, ev.uid, replay));
      } else {
        EventPut(w'.cal, ev);
      }
    }
  }

  lemma {:induction false} ChangeKeepsSound(w: World, ev: Event)
    ensures Separated(w.cal) ==> Separated(ChangeEvent(w, ev).0.cal)
    ensures Sound(w.cal) ==> Sound(ChangeEvent(w, ev).0.cal)
  {
  }

  lemma {:induction false} DeleteKeepsSound(w: World, id: string)
    ensures Separated(w.cal) ==> Separated(DeleteEvent(w, id).0.cal)
    ensures Sound(w.cal) ==> Sound(DeleteEvent(w, id).0.cal)
  {
    var c := w.cal;
    if Sound(c) && id !in c.aliases && id in c.events {
      if Members(c, id) == {} {
        assert forall a :: a in c.aliases ==> a in Members(c, id) || c.aliases[a].canonicalID != id;
      } else {
        PromotedAliases(w, id, Least(Members(c, id)));
      }
    }
  }

  lemma {:induction false} PruneKeepsSound(w: World, added: seq<Event>)
    ensures Separated(w.cal) ==> Separated(PruneAliases(w, added).cal)
    ensures Sound(w.cal) ==> Sound(PruneAliases(w, added).cal)
  {
  }

  lemma {:induction false} LocalUpsertKeepsSound(w: World, ev: Event)
    requires ev.serverID != ""
    ensures Separated(w.cal) ==> Separated(LocalUpsert(w, ev).cal)
    ensures Sound(w.cal) ==> Sound(LocalUpsert(w, ev).cal)
  {
  }

  lemma {:induction false} LocalDeleteKeepsSound(w: World, id: string)
    ensures Separated(w.cal) ==> Separated(LocalDelete(w, id).cal)
    ensures Sound(w.cal) ==> Sound(LocalDelete(w, id).cal)
  {
  }

  // ---------- the folded cache refines the plain store ----------

  lemma {:induction false} ViewIs(c: Cal, m: map<string, Event>)
    requires forall id :: id in m <==> Canonical(c, id).Some?
    requires forall id :: id in m ==> m[id] == Seen(c, id)
    ensures View(c) == m
  {
  }

  lemma {:induction false} DropAliasesView(w: World, ids: set<string>)
    requires Separated(w.cal)
    ensures View(DropAliases(w, ids).cal) == View(w.cal) - (ids - w.cal.events.Keys)
  {
    var c' := DropAliases(w, ids).cal;
    forall id ensures id in View(w.cal) - (ids - w.cal.events.Keys) <==> Canonical(c', id).Some? {}
    ViewIs(c', View(w.cal) - (ids - w.cal.events.Keys));
  }

  /** Folding an identity into a visible event with the same content. */
  lemma {:induction false} PutAliasView(w: World, ev: Event, a: Alias)
    requires Separated(w.cal) && ev.serverID !in w.cal.events && a.uid == ev.uid
    requires a.canonicalID in w.cal.events && SameContent(w.cal.events[a.canonicalID], ev)
    ensures View(PutAliases(w, map[ev.serverID := a]).cal) == View(w.cal)[ev.serverID := ev]
  {
    var c' := PutAliases(w, map[ev.serverID := a]).cal;
    SameContentRenamed(w.cal.events[a.canonicalID], ev);
    ViewIs(c', View(w.cal)[ev.serverID := ev]);
  }

  lemma {:induction false} PutNewEventView(w: World, ev: Event)
    requires Sound(w.cal) && ev.serverID !in w.cal.events && ev.serverID !in w.cal.aliases
    ensures View(PutEvent(w, ev).cal) == View(w.cal)[ev.serverID := ev]
  {
    ViewIs(PutEvent(w, ev).cal, View(w.cal)[ev.serverID := ev]);
  }

  /** Overwriting a visible event carries along the identities folded into it. */
  lemma {:induction false} OverlayChanges<T>(m: map<string, T>, over: map<string, T>)
    requires over.Keys <= m.Keys
    ensures m + over == m <==> forall a :: a in over ==> over[a] == m[a]
  {
    forall a | a in over ensures (m + over)[a] == over[a] {}
    if forall a :: a in over ==> over[a] == m[a] { assert m + over == m; }
  }

  lemma {:induction false} DraggedChanges(c: Cal, ev: Event)
    requires Sound(c) && ev.serverID in c.events
    ensures var m := View(c)[ev.serverID := ev];
      Dragged(c, ev).Keys <= m.Keys && (m + Dragged(c, ev) == m <==> !Drags(c, ev))
  {
    var id, m, over := ev.serverID, View(c)[ev.serverID := ev], Dragged(c, ev);
    forall a | a in over ensures a in m && (over[a] == m[a] <==> SameContent(c.events[id], ev)) {
      DraggedContent(c, ev, a);
    }
    OverlayChanges(m, over);
    assert over.Keys == Members(c, id);
  }

  lemma {:induction false} OverwriteView(w: World, ev: Event)
    requires Sound(w.cal) && ev.serverID in w.cal.events
    ensures View(PutEvent(w, ev).cal) == View(w.cal)[ev.serverID := ev] + Dragged(w.cal, ev)
    ensures View(PutEvent(w, ev).cal) == View(w.cal)[ev.serverID := ev] <==> !Drags(w.cal, ev)
  {
    ViewIs(PutEvent(w, ev).cal, View(w.cal)[ev.serverID := ev] + Dragged(w.cal, ev));
    DraggedChanges(w.cal, ev);
  }

  lemma {:induction false} DraggedContent(c: Cal, ev: Event, a: string)
    requires Sound(c) && ev.serverID in c.events && a in Members(c, ev.serverID)
    ensures Seen(c, a) == Dragged(c, ev)[a] <==> SameContent(c.events[ev.serverID], ev)
  {
    var was, uid := c.events[ev.serverID], c.aliases[a].uid;
    if SameContent(was, ev) {
      SameContentRenamed(was, ev.(serverID := a, uid := uid));
    } else {
      assert Content(Seen(c, a)) == Content(was);
      assert Content(Dragged(c, ev)[a]) == Content(ev);
    }
  }

  lemma {:induction false} UnchangedView(c: Cal, ev: Event)
    requires Sound(c) && Canonical(c, ev.serverID).Some? && Seen(c, ev.serverID) == ev
    ensures View(c)[ev.serverID := ev] == View(c)
  {
  }

  /** Add stores exactly what the server sent under that identity, whether it is
      shown or folded, and every other identity keeps its event, except that the
      identities folded into an overwritten event follow its new content. */
  lemma {:induction false} AddRefinesPlainStore(w: World, ev: Event, replay: bool)
    requires Sound(w.cal) && ev.serverID != ""
    ensures View(AddEvent(w, ev, replay).0.cal) == View(w.cal)[ev.serverID := ev] + Dragged(w.cal, ev)
    ensures View(AddEvent(w, ev, replay).0.cal) == View(w.cal)[ev.serverID := ev] <==> !Drags(w.cal, ev)
  {
    var c, id := w.cal, ev.serverID;
    if id in c.events {
      OverwriteView(w, ev);
      if c.events[id] == ev { assert PutEvent(w, ev).cal == c; }
    } else {
      assert View(c)[id := ev] + map[] == View(c)[id := ev];
      if KeepsAlias(c, ev) {
        KeptAliasView(w, ev, replay);
      } else {
        DetachView(w, id);
        var w' := Detach(w, id);
        if FoldTarget(c.events, ev, replay).Some? {
          var target := FoldTarget(c.events, ev, replay).value;
          FoldTargetIsVisible(c.events, ev, replay);
          PutAliasView(w', ev, Alias(target, ev.uid, replay));
        } else {
          PutNewEventView(w', ev);
        }
        assert (View(c) - {id})[id := ev] == View(c)[id := ev];
      }
    }
  }

  lemma {:induction false} KeptAliasView(w: World, ev: Event, replay: bool)
    requires Sound(w.cal) && KeepsAlias(w.cal, ev) && ev.serverID !in w.cal.events && ev.serverID != ""
    ensures View(AddEvent(w, ev, replay).0.cal) == View(w.cal)[ev.serverID := ev]
    ensures View(ChangeEvent(w, ev).0.cal) == View(w.cal)[ev.serverID := ev]
  {
    var a := w.cal.aliases[ev.serverID];
    PutAliasView(w, ev, Alias(a.canonicalID, ev.uid, a.replay || replay));
    PutAliasView(w, ev, a.(uid := ev.uid));
    if a.uid == ev.uid {
      SameContentRenamed(w.cal.events[a.canonicalID], ev);
      UnchangedView(w.cal, ev);
    }
  }

  lemma {:induction false} DetachView(w: World, id: string)
    requires Sound(w.cal) && id !in w.cal.events
    ensures View(Detach(w, id).cal) == View(w.cal) - {id}
    ensures Sound(Detach(w, id).cal) && id !in Detach(w, id).cal.aliases
    ensures Detach(w, id).cal.events == w.cal.events
  {
    if id in w.cal.aliases {
      DropAliasesView(w, {id});
      assert {id} - w.cal.events.Keys == {id};
    } else {
      assert id !in View(w.cal);
    }
  }

  lemma {:induction false} ChangeRefinesPlainStore(w: World, ev: Event)
    requires Sound(w.cal) && ev.serverID != ""
    ensures View(ChangeEvent(w, ev).0.cal) == View(w.cal)[ev.serverID := ev] + Dragged(w.cal, ev)
    ensures View(ChangeEvent(w, ev).0.cal) == View(w.cal)[ev.serverID := ev] <==> !Drags(w.cal, ev)
  {
    var c, id := w.cal, ev.serverID;
    if id in c.events {
      OverwriteView(w, ev);
      if c.events[id] == ev { assert PutEvent(w, ev).cal == c; }
    } else {
      assert View(c)[id := ev] + map[] == View(c)[id := ev];
      if KeepsAlias(c, ev) {
        KeptAliasView(w, ev, false);
      } else {
        DetachView(w, id);
        PutNewEventView(Detach(w, id), ev);
        assert (View(c) - {id})[id := ev] == View(c)[id := ev];
      }
    }
  }

  lemma {:induction false} PromotedAliases(w: World, id: string, heir: string)
    requires Sound(w.cal) && id in w.cal.events && heir in Members(w.cal, id)
    ensures var c, c' := w.cal, Promote(w, id, heir).cal;
      && c'.events == (c.events - {id})[heir := c.events[id].(serverID := heir, uid := c.aliases[heir].uid)]
      && c'.aliases.Keys == c.aliases.Keys - {heir}
      && (forall a :: a in c'.aliases ==>
            c'.aliases[a] == if a in Members(c, id) then c.aliases[a].(canonicalID := heir) else c.aliases[a])
  {
  }

  /** Delete forgets exactly one remote identity: the survivors keep their content
      and each keeps its own UID, whichever of them becomes the visible event. */
  lemma {:induction false} DeleteRefinesPlainStore(w: World, id: string)
    requires Sound(w.cal)
    ensures View(DeleteEvent(w, id).0.cal) == View(w.cal) - {id}
  {
    var c := w.cal;
    if id in c.aliases {
      DropAliasesView(w, {id});
      assert {id} - c.events.Keys == {id};
    } else if id in c.events {
      if Members(c, id) == {} {
        ViewIs(DropEvent(w, id).cal, View(c) - {id});
      } else {
        PromoteView(w, id, Least(Members(c, id)));
      }
    } else {
      assert id !in View(c);
    }
  }

  lemma {:induction false} PromoteView(w: World, id: string, heir: string)
    requires Sound(w.cal) && id in w.cal.events && heir in Members(w.cal, id)
    ensures View(Promote(w, id, heir).cal) == View(w.cal) - {id}
  {
    var c, c' := w.cal, Promote(w, id, heir).cal;
    PromotedAliases(w, id, heir);
    forall x
      ensures x in View(c) - {id} <==> Canonical(c', x).Some?
      ensures x in View(c) - {id} ==> (View(c) - {id})[x] == Seen(c', x)
    {
    }
    ViewIs(c', View(c) - {id});
  }

  lemma {:induction false} PruneRefinesPlainStore(w: World, added: seq<Event>)
    requires Sound(w.cal)
    ensures View(PruneAliases(w, added).cal) == View(w.cal) - Pruned(w.cal, added)
  {
    DropAliasesView(w, Pruned(w.cal, added));
    assert Pruned(w.cal, added) - w.cal.events.Keys == Pruned(w.cal, added);
  }

  /** A local write stores the event under its own name. */
  lemma {:induction false} LocalInsertView(w: World, ev: Event)
    requires Sound(w.cal) && ev.serverID != "" && ev.serverID !in w.cal.events
    ensures View(LocalUpsert(w, ev).cal) == View(w.cal)[ev.serverID := ev]
  {
    ViewIs(LocalUpsert(w, ev).cal, View(w.cal)[ev.serverID := ev]);
  }

  lemma {:induction false} LocalUpsertRefinesPlainStore(w: World, ev: Event)
    requires Sound(w.cal) && ev.serverID != ""
    ensures View(LocalUpsert(w, ev).cal) == View(w.cal)[ev.serverID := ev] + Dragged(w.cal, ev)
  {
    var c, id := w.cal, ev.serverID;
    if id in c.events {
      OverwriteView(w, ev);
      assert c.aliases - {id} == c.aliases;
      assert LocalUpsert(w, ev).cal == PutEvent(w, ev).cal;
    } else {
      LocalInsertView(w, ev);
      assert View(c)[id := ev] + map[] == View(c)[id := ev];
    }
  }

  /** A local delete forgets the event and every identity folded into it. */
  lemma {:induction false} LocalDeleteRefinesPlainStore(w: World, id: string)
    requires Sound(w.cal)
    ensures View(LocalDelete(w, id).cal) == View(w.cal) - ({id} + Dependents(w.cal, id))
  {
    var c, c' := w.cal, LocalDelete(w, id).cal;
    forall x
      ensures x in View(c) - ({id} + Dependents(c, id)) <==> Canonical(c', x).Some?
      ensures Canonical(c', x).Some? ==> x in View(c) && View(c)[x] == Seen(c', x)
    {
    }
    ViewIs(c', View(c) - ({id} + Dependents(c, id)));
  }
}
