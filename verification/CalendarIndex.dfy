/** The bucketed search index and the change recorder that calendar sync mutates. */
module CalendarIndex {
  import opened Ids
  import opened Calendar

  datatype DuplicateKey = DuplicateKey(
    subject: string,
    location: string,
    body: string,
    start: int,
    end: int,
    allDay: bool,
    organizerEmail: string)

  function KeyOf(ev: Event): DuplicateKey {
    DuplicateKey(ev.subject, ev.location, ev.body, ev.start, ev.end, ev.allDay, ev.organizerEmail)
  }

  /** Events that compare equal land in the same bucket. */
  lemma {:induction false} EquivalentShareKey(a: Event, b: Event, ignoreUID: bool)
    requires Equivalent(a, b, ignoreUID)
    ensures KeyOf(a) == KeyOf(b)
  {
    assert KeyOf(a) == KeyOf(Content(a)) == KeyOf(Unnamed(a));
    assert KeyOf(b) == KeyOf(Content(b)) == KeyOf(Unnamed(b));
  }

  type Buckets = map<DuplicateKey, map<string, Event>>

  ghost predicate Filed(b: Buckets, k: DuplicateKey, id: string) { k in b && id in b[k] }

  /** The buckets hold exactly these events, each under its own key, and none is empty. */
  ghost predicate Indexes(b: Buckets, events: map<string, Event>) {
    && (forall k :: k in b ==> b[k] != map[])
    && (forall k, id :: Filed(b, k, id) ==> id in events && b[k][id] == events[id] && KeyOf(events[id]) == k)
    && (forall id :: id in events ==> Filed(b, KeyOf(events[id]), id))
  }

  lemma {:induction false} IndexWith(b: Buckets, b': Buckets, events: map<string, Event>, id: string, ev: Event,
          bucket: map<string, Event>)
    requires Indexes(b, events) && id !in events
    requires bucket == if KeyOf(ev) in b then b[KeyOf(ev)] else map[]
    requires b' == b[KeyOf(ev) := bucket[id := ev]]
    ensures Indexes(b', events[id := ev])
  {
    assert id in b'[KeyOf(ev)];
    forall k, x | Filed(b', k, x)
      ensures x in events[id := ev] && b'[k][x] == events[id := ev][x] && KeyOf(b'[k][x]) == k
    {
      if x != id || k != KeyOf(ev) { assert Filed(b, k, x); }
    }
    forall x | x in events ensures Filed(b', KeyOf(events[x]), x) { assert Filed(b, KeyOf(events[x]), x); }
  }

  lemma {:induction false} IndexWithout(b: Buckets, b': Buckets, events: map<string, Event>, id: string,
          bucket: map<string, Event>)
    requires Indexes(b, events) && id in events && KeyOf(events[id]) in b && bucket == b[KeyOf(events[id])] - {id}
    requires b' == if bucket == map[] then b - {KeyOf(events[id])} else b[KeyOf(events[id]) := bucket]
    ensures Indexes(b', events - {id})
  {
    var key := KeyOf(events[id]);
    forall k, x | Filed(b', k, x) ensures Filed(b, k, x) && x != id && b'[k][x] == b[k][x] {
      if k == key { assert x in bucket; } else { assert Filed(b, k, x); }
    }
    forall x | x in events && x != id ensures Filed(b', KeyOf(events[x]), x) {
      assert Filed(b, KeyOf(events[x]), x);
      if KeyOf(events[x]) == key { assert x in bucket; }
    }
  }

  class DuplicateIndex {
    var buckets: Buckets

    ghost predicate Holds(events: map<string, Event>)
      reads this
    {
      Indexes(buckets, events)
    }

    constructor Empty()
      ensures Holds(map[])
    {
      buckets := map[];
    }

    method Add(id: string, ev: Event, ghost events: map<string, Event>)
      requires Holds(events) && id !in events
      modifies this
      ensures Holds(events[id := ev])
    {
      var key := KeyOf(ev);
      var bucket := if key in buckets then buckets[key] else map[];
      buckets := buckets[key := bucket[id := ev]];
      IndexWith(old(buckets), buckets, events, id, ev, bucket);
    }

    method Remove(id: string, ev: Event, ghost events: map<string, Event>)
      requires Holds(events) && id in events && events[id] == ev
      modifies this
      ensures Holds(events - {id})
    {
      var key := KeyOf(ev);
      assert Filed(buckets, key, id);
      var bucket := buckets[key] - {id};
      buckets := if bucket == map[] then buckets - {key} else buckets[key := bucket];
      IndexWithout(old(buckets), buckets, events, id, bucket);
    }

    /** newCalendarEventDuplicateIndex. */
    method Fill(events: map<string, Event>)
      requires Holds(map[])
      modifies this
      ensures Holds(events)
    {
      var rest := events.Keys;
      ghost var done: map<string, Event> := map[];
      while rest != {}
        invariant rest <= events.Keys
        invariant done == map id | id in events && id !in rest :: events[id]
        invariant Holds(done)
      {
        var id :| id in rest;
        Add(id, events[id], done);
        done := done[id := events[id]];
        rest := rest - {id};
      }
      assert done == events;
    }

    /** Looking in one bucket finds what a scan of all events would: the least
        equivalent identifier. */
    method FindEquivalent(ev: Event, ignoreUID: bool, ghost events: map<string, Event>) returns (found: Option<string>)
      requires Holds(events) && "" !in events
      ensures found == Find(events, ev, ignoreUID)
    {
      var key := KeyOf(ev);
      var bucket := if key in buckets then buckets[key] else map[];
      var best := "";
      var rest := bucket.Keys;
      while rest != {}
        invariant rest <= bucket.Keys
        invariant best == "" ==> Matches(events, ev, ignoreUID) * (bucket.Keys - rest) == {}
        invariant best != "" ==> IsLeast(best, Matches(events, ev, ignoreUID) * (bucket.Keys - rest))
      {
        var id :| id in rest;
        assert Filed(buckets, key, id);
        ghost var seen := Matches(events, ev, ignoreUID) * (bucket.Keys - rest);
        var equal := EqualExceptServerID(bucket[id], ev);
        if ignoreUID {
          equal := SameContent(bucket[id], ev);
        }
        assert equal <==> id in Matches(events, ev, ignoreUID);
        assert Matches(events, ev, ignoreUID) * (bucket.Keys - (rest - {id})) == if equal then seen + {id} else seen;
        if equal && (best == "" || Less(id, best)) {
          if best != "" {
            forall y | y in seen && y != best ensures Less(id, y) { LessTransitive(id, best, y); }
          }
          best := id;
        } else if equal {
          LessTotal(id, best);
        }
        rest := rest - {id};
      }
      forall id | id in Matches(events, ev, ignoreUID) ensures id in bucket {
        EquivalentShareKey(events[id], ev, ignoreUID);
        assert Filed(buckets, KeyOf(events[id]), id);
      }
      assert Matches(events, ev, ignoreUID) * bucket.Keys == Matches(events, ev, ignoreUID);
      if best == "" {
        found := None;
      } else {
        LeastUnique(best, Matches(events, ev, ignoreUID));
        found := Some(best);
      }
    }
  }

  /** calendarMutations. */
  class Mutations {
    var upserts: map<string, Event>
    var deletes: set<string>
    var aliasUpserts: map<string, Alias>
    var aliasDeletes: set<string>

    function Value(): Batch
      reads this
    {
      Batch(upserts, deletes, aliasUpserts, aliasDeletes)
    }

    constructor Empty()
      ensures Value() == EMPTY_BATCH
    {
      upserts, deletes, aliasUpserts, aliasDeletes := map[], {}, map[], {};
    }

    method RecordUpsert(ev: Event)
      modifies this
      ensures Value() == Upserted(old(Value()), ev)
    {
      deletes := deletes - {ev.serverID};
      upserts := upserts[ev.serverID := ev];
    }

    method RecordDelete(id: string)
      modifies this
      ensures Value() == Deleted(old(Value()), {id})
    {
      upserts := upserts - {id};
      deletes := deletes + {id};
    }

    method RecordAlias(id: string, alias: Alias)
      modifies this
      ensures Value() == Aliased(old(Value()), map[id := alias])
    {
      aliasDeletes := aliasDeletes - {id};
      aliasUpserts := aliasUpserts[id := alias];
      assert aliasUpserts == old(aliasUpserts) + map[id := alias];
    }

    method RecordAliasDelete(id: string)
      modifies this
      ensures Value() == AliasesDeleted(old(Value()), {id})
    {
      aliasUpserts := aliasUpserts - {id};
      aliasDeletes := aliasDeletes + {id};
    }

    predicate IsEmpty()
      reads this
    {
      upserts == map[] && deletes == {} && aliasUpserts == map[] && aliasDeletes == {}
    }
  }
}
