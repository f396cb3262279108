/** Folding of exact duplicates before a round, and repair of aliases at load. */
module CalendarRepair {
  import opened Ids
  import opened Calendar
  import opened CalendarLaws

  // ---------- when Add hides a record ----------

  /** An unknown identity is hidden only on evidence: an event with the same
      non-empty UID and content, or the judgement that the page is a replay. */
  lemma {:induction false} AddHidesOnlyReplays(w: World, ev: Event, replay: bool)
    requires Separated(w.cal) && ev.serverID != "" && Canonical(w.cal, ev.serverID).None?
    ensures var c, c' := w.cal, AddEvent(w, ev, replay).0.cal;
      (ev.serverID in c'.events <==>
        forall id :: id in c.events ==>
          && !(ev.uid != "" && EqualExceptServerID(c.events[id], ev))
          && !(replay && SameContent(c.events[id], ev)))
  {
    var c := w.cal;
    if FoldTarget(c.events, ev, replay).Some? {
      var target := FoldTarget(c.events, ev, replay).value;
      FoldTargetIsVisible(c.events, ev, replay);
      if ev.uid != "" && Find(c.events, ev, false).Some? { FoundIsEquivalent(c.events, ev, false); }
      assert !(!(ev.uid != "" && EqualExceptServerID(c.events[target], ev))
        && !(replay && SameContent(c.events[target], ev)));
    } else {
      forall id | id in c.events
        ensures !(ev.uid != "" && EqualExceptServerID(c.events[id], ev)) && !(replay && SameContent(c.events[id], ev))
      {
        assert id in Matches(c.events, ev, false) || !EqualExceptServerID(c.events[id], ev);
        assert id in Matches(c.events, ev, true) || !SameContent(c.events[id], ev);
      }
    }
  }

  // ---------- dedupe ----------

  /** Exact duplicates have the same set of matches, hence the same representative. */
  lemma {:induction false} DuplicatesShareRepresentative(events: map<string, Event>, a: string, b: string)
    requires a in events && b in events && EqualExceptServerID(events[a], events[b])
    ensures Representative(events, a) == Representative(events, b) || events[a].uid == ""
    ensures events[a].uid == events[b].uid
  {
    SameButForName(events[a], events[b]);
    assert Matches(events, events[a], false) == Matches(events, events[b], false);
  }

  lemma {:induction false} RepresentativeIsKept(events: map<string, Event>, id: string)
    requires id in events
    ensures var r := Representative(events, id);
      r in events && r !in Folded(events) && EqualExceptServerID(events[r], events[id])
      && events[r].uid == events[id].uid && (r == id || Less(r, id))
  {
    if events[id].uid != "" {
      var r := Representative(events, id);
      assert id in Matches(events, events[id], false);
      assert r in Matches(events, events[id], false);
      DuplicatesShareRepresentative(events, r, id);
    }
  }

  /** After the repair each non-empty UID shows every content once; what is folded
      stays reachable through the least of its duplicates, and nothing else moves. */
  lemma {:induction false} DedupeKeepsOneOfEach(w: World)
    ensures var c, c' := w.cal, Dedupe(w).cal;
      && (forall a, b :: (a in c'.events && b in c'.events && c'.events[a].uid != ""
                           && EqualExceptServerID(c'.events[a], c'.events[b])) ==> a == b)
      && (forall id :: id in c.events ==>
            var r := Representative(c.events, id);
            && r in c'.events && c'.events[r] == c.events[r] && EqualExceptServerID(c.events[r], c.events[id])
            && (id in c'.events <==> r == id)
            && (r != id ==> id in c'.aliases && c'.aliases[id] == Alias(r, c.events[id].uid, false) && Less(r, id)))
      && (forall a :: a in c.aliases && a !in c.events ==> a in c'.aliases && c'.aliases[a] == c.aliases[a])
  {
    var c, c' := w.cal, Dedupe(w).cal;
    forall id | id in c.events
      ensures var r := Representative(c.events, id);
            && r in c'.events && c'.events[r] == c.events[r] && EqualExceptServerID(c.events[r], c.events[id])
            && (id in c'.events <==> r == id)
            && (r != id ==> id in c'.aliases && c'.aliases[id] == Alias(r, c.events[id].uid, false) && Less(r, id))
    {
      RepresentativeIsKept(c.events, id);
    }
    forall a, b | a in c'.events && b in c'.events && c'.events[a].uid != ""
      && EqualExceptServerID(c'.events[a], c'.events[b])
      ensures a == b
    {
      DuplicatesShareRepresentative(c.events, a, b);
      assert a !in Folded(c.events) && b !in Folded(c.events);
    }
  }

  /** Aliases whose target the repair is about to fold away. */
  ghost predicate Strands(c: Cal) {
    exists a :: a in c.aliases && c.aliases[a].canonicalID in Folded(c.events)
  }

  /** The repair does not retarget aliases: it keeps the cache sound, and every
      remote identity reachable, exactly when no alias points at a folded event. */
  lemma {:induction false} DedupeIsSafeUnlessItStrands(w: World)
    requires Sound(w.cal)
    ensures Separated(Dedupe(w).cal)
    ensures Sound(Dedupe(w).cal) <==> !Strands(w.cal)
    ensures View(Dedupe(w).cal) == View(w.cal) <==> !Strands(w.cal)
  {
    var c, c' := w.cal, Dedupe(w).cal;
    forall id | id in c.events ensures id in Folded(c.events) || Representative(c.events, id) == id {}
    if Strands(c) {
      var a :| a in c.aliases && c.aliases[a].canonicalID in Folded(c.events);
      assert a in c'.aliases && c'.aliases[a] == c.aliases[a];
      assert a in View(c) && a !in View(c');
    } else {
      DedupeView(w);
    }
  }

  lemma {:induction false} DedupeView(w: World)
    requires Sound(w.cal) && !Strands(w.cal)
    ensures Sound(Dedupe(w).cal) && View(Dedupe(w).cal) == View(w.cal)
  {
    var c, c' := w.cal, Dedupe(w).cal;
    forall id | id in c.events ensures Canonical(c', id).Some? && Seen(c', id) == c.events[id] {
      RepresentativeIsKept(c.events, id);
      var r := Representative(c.events, id);
      SameButForName(c.events[r], c.events[id]);
      SameContentRenamed(c.events[r], c.events[id]);
    }
    forall a | a in c.aliases ensures Canonical(c', a) == Canonical(c, a) && Seen(c', a) == Seen(c, a) {
      assert c.aliases[a].canonicalID !in Folded(c.events);
    }
    forall a | a in c'.aliases ensures c'.aliases[a].canonicalID in c'.events {
      if a in c.events { RepresentativeIsKept(c.events, a); }
    }
    ViewIs(c', View(c));
  }

  /** The failing family is not empty: an alias of the greater of two duplicates. */
  lemma {:induction false} StrandedAliasExample(ev: Event)
    requires ev.uid != ""
    ensures var w := World(Cal(map["1" := ev.(serverID := "1"), "2" := ev.(serverID := "2")],
                               map["3" := Alias("2", ev.uid, false)]), EMPTY_BATCH);
      Sound(w.cal) && Strands(w.cal) && "3" in View(w.cal) && "3" !in View(Dedupe(w).cal)
  {
    var c := Cal(map["1" := ev.(serverID := "1"), "2" := ev.(serverID := "2")], map["3" := Alias("2", ev.uid, false)]);
    var w := World(c, EMPTY_BATCH);
    assert "1" in Matches(c.events, c.events["2"], false);
    RepresentativeIsKept(c.events, "2");
    LessAsymmetric("1", "2");
    assert Representative(c.events, "2") != "2";
    assert c.aliases["3"].canonicalID in Folded(c.events);
    assert Dedupe(w).cal.aliases["3"] == c.aliases["3"];
  }

  // ---------- normalize ----------

  /** Whatever maps were loaded, normalize leaves only aliases of visible events, none
      of them visible itself, and touches nothing that was already in order. */
  lemma {:induction false} NormalizeRepairs(c: Cal)
    ensures Attached(Normalize(c)) && Normalize(c).events == c.events
    ensures Normalize(c).aliases.Keys !! c.events.Keys && "" !in Normalize(c).aliases
    ensures Normalize(Normalize(c)) == Normalize(c)
    ensures Separated(c) ==> View(Normalize(c)) == View(c)
  {
    if Separated(c) { ViewIs(Normalize(c), View(c)); }
  }

  /** An alias whose UID betrays that only a replay can have folded it. */
  ghost predicate Unmarked(c: Cal, a: string)
    requires a in c.aliases && c.aliases[a].canonicalID in c.events
  {
    !c.aliases[a].replay && c.aliases[a].uid != "" && c.aliases[a].uid != c.events[c.aliases[a].canonicalID].uid
  }

  /** On a sound cache normalize is the identity exactly when no marker is missing. */
  lemma {:induction false} NormalizeIsIdentityWhenMarked(c: Cal)
    requires Sound(c)
    ensures Normalize(c) == c <==> forall a :: a in c.aliases ==> !Unmarked(c, a)
    ensures Normalize(c).aliases.Keys == c.aliases.Keys
  {
    var n := Normalize(c);
    assert n.aliases.Keys == c.aliases.Keys;
    if a :| a in c.aliases && Unmarked(c, a) {
      assert n.aliases[a] != c.aliases[a];
    } else {
      forall a | a in c.aliases ensures n.aliases[a] == c.aliases[a] { assert !Unmarked(c, a); }
      assert n.aliases == c.aliases;
    }
  }
}
