/** Remote deletions: the outcome depends only on which identities were deleted. */
module CalendarDeletes {
  import opened Ids
  import opened Calendar
  import opened CalendarLaws

  /** All remote identities of the meeting shown as `x`. */
  ghost function Group(c: Cal, x: string): set<string> { {x} + Members(c, x) }

  /** Who shows the meeting once the identities in `gone` are deleted: the
      canonical identity while it lives, then the least remaining alias. */
  ghost function Survivor(c: Cal, x: string, gone: set<string>): Option<string> {
    if x !in gone then Some(x) else LeastOf(Group(c, x) - gone)
  }

  ghost function SurvivorFor(c: Cal, id: string, gone: set<string>): Option<string> {
    var x := Canonical(c, id);
    if x == None then None else Survivor(c, x.value, gone)
  }

  /** The cache after deleting a set of identities, in no particular order. */
  ghost function Erase(c: Cal, gone: set<string>): Cal {
    var all := c.events.Keys + c.aliases.Keys;
    Cal(map id | id in all && Canonical(c, id).Some? && SurvivorFor(c, id, gone) == Some(id) :: Seen(c, id),
        map a | a in c.aliases && a !in gone && SurvivorFor(c, a, gone).Some? && SurvivorFor(c, a, gone) != Some(a)
          :: c.aliases[a].(canonicalID := SurvivorFor(c, a, gone).value))
  }

  lemma {:induction false} SurvivorIsInGroup(c: Cal, x: string, gone: set<string>)
    ensures Survivor(c, x, gone).Some? <==> Group(c, x) - gone != {}
    ensures Survivor(c, x, gone).Some? ==> Survivor(c, x, gone).value in Group(c, x) - gone
  {
    if x !in gone { assert x in Group(c, x) - gone; }
  }

  lemma {:induction false} OwnGroup(c: Cal, id: string)
    requires Sound(c) && (id in c.events || id in c.aliases)
    ensures Canonical(c, id).Some? && Canonical(c, id).value in c.events && id in Group(c, Canonical(c, id).value)
  {
  }

  /** Each identity belongs to the group of its canonical event and to no other. */
  lemma {:induction false} GroupsPartition(c: Cal, id: string, x: string)
    requires Sound(c) && x in c.events && id in Group(c, x)
    ensures Canonical(c, id) == Some(x)
  {
  }

  lemma {:induction false} EraseShape(c: Cal, gone: set<string>, x: string)
    requires Sound(c) && x in c.events
    ensures var c', s := Erase(c, gone), Survivor(c, x, gone);
      && (s.Some? ==> s.value in c'.events && Members(c', s.value) == Group(c, x) - gone - {s.value})
      && (forall id :: id in Group(c, x) ==> (id in c'.events <==> s == Some(id)))
      && (forall id :: id in Group(c, x) && id in c'.aliases ==> s.Some? && c'.aliases[id].canonicalID == s.value)
  {
    var c', s := Erase(c, gone), Survivor(c, x, gone);
    SurvivorIsInGroup(c, x, gone);
    forall id | id in Group(c, x) ensures Canonical(c, id) == Some(x) { GroupsPartition(c, id, x); }
    if s.Some? {
      forall a ensures a in Members(c', s.value) <==> a in Group(c, x) - gone - {s.value} {
        if a in Members(c', s.value) {
          OwnGroup(c, a);
          var y := Canonical(c, a).value;
          SurvivorIsInGroup(c, y, gone);
          GroupsPartition(c, s.value, y);
        }
      }
    }
  }

  lemma {:induction false} EraseKeepsSound(c: Cal, gone: set<string>)
    requires Sound(c)
    ensures Sound(Erase(c, gone))
  {
    var c' := Erase(c, gone);
    forall a | a in c'.aliases ensures c'.aliases[a].canonicalID in c'.events {
      OwnGroup(c, a);
      EraseShape(c, gone, Canonical(c, a).value);
    }
  }

  lemma {:induction false} EraseNothing(c: Cal)
    requires Sound(c)
    ensures Erase(c, {}) == c
  {
    var c' := Erase(c, {});
    assert c'.events == c.events;
    assert c'.aliases == c.aliases;
  }

  ghost predicate SameAt(d: Cal, e: Cal, k: string) {
    && (k in d.events <==> k in e.events)
    && (k in d.events && k in e.events ==> d.events[k] == e.events[k])
    && (k in d.aliases <==> k in e.aliases)
    && (k in d.aliases && k in e.aliases ==> d.aliases[k] == e.aliases[k])
  }

  lemma {:induction false} SameEverywhere(d: Cal, e: Cal)
    requires forall k :: SameAt(d, e, k)
    ensures d == e
  {
    forall k ensures k in d.events <==> k in e.events { assert SameAt(d, e, k); }
    forall k ensures k in d.aliases <==> k in e.aliases { assert SameAt(d, e, k); }
    assert d.events == e.events && d.aliases == e.aliases by {
      forall k | k in d.events ensures d.events[k] == e.events[k] { assert SameAt(d, e, k); }
      forall k | k in d.aliases ensures d.aliases[k] == e.aliases[k] { assert SameAt(d, e, k); }
    }
  }

  /** What one Delete does to the entry of one identity. */
  ghost predicate DeletedAt(c: Cal, d: Cal, id: string, k: string) {
    if k == id then k !in d.events && k !in d.aliases
    else if id in c.events && k in Members(c, id) then
      var heir := Least(Members(c, id));
      if k == heir then
        k in d.events && k !in d.aliases && d.events[k] == c.events[id].(serverID := k, uid := c.aliases[k].uid)
      else
        k !in d.events && k in d.aliases && d.aliases[k] == c.aliases[k].(canonicalID := heir)
    else SameAt(d, c, k)
  }

  lemma {:induction false} DeleteAt(w: World, id: string, k: string)
    requires Sound(w.cal)
    ensures DeletedAt(w.cal, DeleteEvent(w, id).0.cal, id, k)
  {
    if id in w.cal.events && Members(w.cal, id) != {} {
      PromotedAliases(w, id, Least(Members(w.cal, id)));
    }
  }

  /** One more Delete erases one more identity. */
  lemma {:induction false} DeleteErases(w: World, c: Cal, gone: set<string>, id: string)
    requires Sound(c) && w.cal == Erase(c, gone)
    ensures DeleteEvent(w, id).0.cal == Erase(c, gone + {id})
  {
    EraseKeepsSound(c, gone);
    var d, e := DeleteEvent(w, id).0.cal, Erase(c, gone + {id});
    forall k ensures SameAt(d, e, k) {
      DeleteAt(w, id, k);
      if k in c.events || k in c.aliases {
        OwnGroup(c, k);
        ErasedAt(c, gone, id, Canonical(c, k).value, k, d);
      }
    }
    SameEverywhere(d, e);
  }

  lemma {:induction false} ErasedAt(c: Cal, gone: set<string>, id: string, x: string, k: string, d: Cal)
    requires Sound(c) && Sound(Erase(c, gone)) && DeletedAt(Erase(c, gone), d, id, k)
    requires x in c.events && k in Group(c, x)
    ensures SameAt(d, Erase(c, gone + {id}), k)
  {
    if Survivor(c, x, gone) == Some(id) {
      HeirErasedAt(c, gone, id, x, k, d);
    } else {
      OtherErasedAt(c, gone, id, x, k, d);
    }
  }

  lemma {:induction false} HeirErasedAt(c: Cal, gone: set<string>, id: string, x: string, k: string, d: Cal)
    requires Sound(c) && DeletedAt(Erase(c, gone), d, id, k) && Survivor(c, x, gone) == Some(id)
    requires x in c.events && k in Group(c, x)
    ensures SameAt(d, Erase(c, gone + {id}), k)
  {
    EraseShape(c, gone, x);
    SurvivorIsInGroup(c, x, gone + {id});
    GroupsPartition(c, k, x);
    GroupsPartition(c, id, x);
    HeirAgrees(c, gone, id, x);
  }

  lemma {:induction false} OtherErasedAt(c: Cal, gone: set<string>, id: string, x: string, k: string, d: Cal)
    requires Sound(c) && Sound(Erase(c, gone)) && DeletedAt(Erase(c, gone), d, id, k)
    requires x in c.events && k in Group(c, x) && Survivor(c, x, gone) != Some(id)
    ensures SameAt(d, Erase(c, gone + {id}), k)
  {
    var c1 := Erase(c, gone);
    EraseShape(c, gone, x);
    SurvivorIsInGroup(c, x, gone);
    GroupsPartition(c, k, x);
    SurvivorStays(c, gone, id, x);
    assert id in c1.events ==> k !in Members(c1, id);
  }

  lemma {:induction false} HeirAgrees(c: Cal, gone: set<string>, id: string, x: string)
    requires Sound(c) && x in c.events && Survivor(c, x, gone) == Some(id)
    ensures Survivor(c, x, gone + {id}) == LeastOf(Members(Erase(c, gone), id))
  {
    EraseShape(c, gone, x);
    assert Group(c, x) - (gone + {id}) == Group(c, x) - gone - {id};
    if x == id { assert Group(c, x) - (gone + {id}) == Members(Erase(c, gone), id); }
  }

  lemma {:induction false} SurvivorStays(c: Cal, gone: set<string>, id: string, x: string)
    requires Survivor(c, x, gone) != Some(id)
    ensures Survivor(c, x, gone + {id}) == Survivor(c, x, gone)
  {
    var rest := Group(c, x) - gone;
    assert Group(c, x) - (gone + {id}) == rest - {id};
    if x in gone && rest != {} { LeastOfSubset(rest - {id}, rest); }
  }

  /** A page's list of Deletes has the effect of erasing the set of its members. */
  lemma {:induction false} DeletesErase(w: World, ids: seq<string>)
    requires Sound(w.cal)
    ensures DeleteAll(w, ids).0.cal == Erase(w.cal, set id | id in ids)
    decreases |ids|
  {
    if ids == [] {
      EraseNothing(w.cal);
      assert (set id | id in ids) == {};
    } else {
      var init, id := ids[..|ids| - 1], ids[|ids| - 1];
      DeletesErase(w, init);
      DeleteErases(DeleteAll(w, init).0, w.cal, (set i | i in init), id);
      assert ids == init + [id];
      assert (set i | i in ids) == (set i | i in init) + {id};
    }
  }

  /** Any two orders of the same Deletes leave the same events and aliases. */
  lemma {:induction false} DeletesCommute(w: World, v: World, a: seq<string>, b: seq<string>)
    requires Sound(w.cal) && w.cal == v.cal
    requires (set id | id in a) == (set id | id in b)
    ensures DeleteAll(w, a).0.cal == DeleteAll(v, b).0.cal
  {
    DeletesErase(w, a);
    DeletesErase(v, b);
  }

  /** A folded meeting stays visible, with its content, exactly until the last of
      its remote identities is deleted; the canonical identity shows it while it
      lives, afterwards the least remaining alias does, under that alias's UID. */
  lemma {:induction false} MeetingOutlivesIdentities(w: World, ids: seq<string>, x: string)
    requires Sound(w.cal) && x in w.cal.events
    ensures var gone := set id | id in ids;
      var c, c', left := w.cal, DeleteAll(w, ids).0.cal, Group(w.cal, x) - gone;
      && ((exists id :: id in Group(c, x) && id in c'.events) <==> left != {})
      && (left != {} ==>
            var s := if x in gone then Least(left) else x;
            && s in c'.events && SameContent(c'.events[s], c.events[x])
            && c'.events[s].uid == (if s == x then c.events[x].uid else c.aliases[s].uid)
            && Members(c', s) == left - {s})
  {
    var gone := set id | id in ids;
    DeletesErase(w, ids);
    EraseShape(w.cal, gone, x);
    SurvivorIsInGroup(w.cal, x, gone);
    var s := Survivor(w.cal, x, gone);
    if s.Some? { GroupsPartition(w.cal, s.value, x); }
  }
}
