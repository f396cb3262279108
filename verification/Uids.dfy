/** IMAP UIDs: how a folder's list gets them, and why none is ever given twice, over
    every run of merges, moves, removals, saves and crashes between the two files. */
module Uids {
  import opened Ids
  import opened Mail
  import opened MailMerge

  datatype UidEntry = UidEntry(serverID: string, uid: nat)

  datatype Meta = Meta(nextUID: nat, uidValidity: nat)

  datatype Tagged = Tagged(item: EmailItem, uid: nat)

  const NO_META := Meta(0, 0)

  // ---------- assignUIDs ----------

  /** NextUID is never at or below a UID in the list. */
  function Clamp(next: nat, uids: seq<UidEntry>): (n: nat)
    ensures n >= next
    ensures forall e :: e in uids ==> e.uid < n
    decreases |uids|
  {
    if uids == [] then next
    else
      var n, e := Clamp(next, uids[..|uids| - 1]), uids[|uids| - 1];
      assert uids == uids[..|uids| - 1] + [e];
      if e.uid >= n then e.uid + 1 else n
  }

  function StartMeta(meta: Meta, uids: seq<UidEntry>, now: nat): Meta {
    Meta(Clamp(if meta.nextUID == 0 then 1 else meta.nextUID, uids),
      if meta.uidValidity == 0 then now else meta.uidValidity)
  }

  function Lookup(uids: seq<UidEntry>): map<string, nat>
    decreases |uids|
  {
    if uids == [] then map[]
    else Lookup(uids[..|uids| - 1])[uids[|uids| - 1].serverID := uids[|uids| - 1].uid]
  }

  datatype Allocation = Allocation(known: map<string, nat>, next: nat)

  /** New messages get the next numbers in arrival order. */
  function Allocate(known: map<string, nat>, next: nat, items: seq<EmailItem>): Allocation
    decreases |items|
  {
    if items == [] then Allocation(known, next)
    else
      var a, id := Allocate(known, next, items[..|items| - 1]), items[|items| - 1].serverID;
      if id in a.known then a else Allocation(a.known[id := a.next], a.next + 1)
  }

  function Tag(items: seq<EmailItem>, known: map<string, nat>): seq<Tagged>
    decreases |items|
  {
    if items == [] then []
    else
      var it := items[|items| - 1];
      Tag(items[..|items| - 1], known) + [Tagged(it, if it.serverID in known then known[it.serverID] else 0)]
  }

  function Insert(sorted: seq<Tagged>, t: Tagged): seq<Tagged>
    decreases |sorted|
  {
    if sorted == [] || sorted[|sorted| - 1].uid <= t.uid then sorted + [t]
    else Insert(sorted[..|sorted| - 1], t) + [sorted[|sorted| - 1]]
  }

  /** sort.Slice by UID. */
  function Sort(tags: seq<Tagged>): seq<Tagged>
    decreases |tags|
  {
    if tags == [] then [] else Insert(Sort(tags[..|tags| - 1]), tags[|tags| - 1])
  }

  function Untag(tags: seq<Tagged>): seq<EmailItem>
    decreases |tags|
  {
    if tags == [] then [] else Untag(tags[..|tags| - 1]) + [tags[|tags| - 1].item]
  }

  function Entries(tags: seq<Tagged>): seq<UidEntry>
    decreases |tags|
  {
    if tags == [] then []
    else Entries(tags[..|tags| - 1]) + [UidEntry(tags[|tags| - 1].item.serverID, tags[|tags| - 1].uid)]
  }

  datatype Assigned = Assigned(items: seq<EmailItem>, uids: seq<UidEntry>, meta: Meta)

  function Assign(meta: Meta, uids: seq<UidEntry>, items: seq<EmailItem>, now: nat): Assigned {
    var start := StartMeta(meta, uids, now);
    var a := Allocate(Lookup(uids), start.nextUID, items);
    var tags := Sort(Tag(items, a.known));
    Assigned(Untag(tags), Entries(tags), Meta(a.next, start.uidValidity))
  }

  ghost predicate ByUid(tags: seq<Tagged>) {
    forall i, j :: 0 <= i < j < |tags| ==> tags[i].uid < tags[j].uid
  }

  ghost predicate Unique(uids: seq<UidEntry>) {
    forall i, j :: 0 <= i < j < |uids| ==> uids[i].serverID != uids[j].serverID && uids[i].uid != uids[j].uid
  }

  ghost predicate Injective(known: map<string, nat>) {
    forall a, b :: a in known && b in known && known[a] == known[b] ==> a == b
  }

  ghost predicate Below(known: map<string, nat>, n: nat) { forall a :: a in known ==> known[a] < n }

  lemma {:induction false} UniqueInit(uids: seq<UidEntry>)
    requires Unique(uids) && uids != []
    ensures Unique(uids[..|uids| - 1])
    ensures forall e :: e in uids[..|uids| - 1] ==>
              e.serverID != uids[|uids| - 1].serverID && e.uid != uids[|uids| - 1].uid
  {
    forall e | e in uids[..|uids| - 1]
      ensures e.serverID != uids[|uids| - 1].serverID && e.uid != uids[|uids| - 1].uid
    {
      var i :| 0 <= i < |uids| - 1 && uids[i] == e;
    }
  }

  lemma {:induction false} LookupHolds(uids: seq<UidEntry>)
    requires Unique(uids)
    ensures forall id :: id in Lookup(uids) <==> exists e :: e in uids && e.serverID == id
    ensures forall e :: e in uids ==> e.serverID in Lookup(uids) && Lookup(uids)[e.serverID] == e.uid
    ensures forall id :: id in Lookup(uids) ==> UidEntry(id, Lookup(uids)[id]) in uids
    ensures Injective(Lookup(uids))
    decreases |uids|
  {
    if uids != [] {
      var init, e := uids[..|uids| - 1], uids[|uids| - 1];
      assert uids == init + [e];
      UniqueInit(uids);
      LookupHolds(init);
      forall a, b | a in Lookup(uids) && b in Lookup(uids) && Lookup(uids)[a] == Lookup(uids)[b] ensures a == b {
        assert a == e.serverID || UidEntry(a, Lookup(uids)[a]) in init;
        assert b == e.serverID || UidEntry(b, Lookup(uids)[b]) in init;
      }
    }
  }

  lemma {:induction false} AllocateLaws(known: map<string, nat>, next: nat, items: seq<EmailItem>)
    requires Injective(known) && Below(known, next)
    ensures var a := Allocate(known, next, items);
      && Injective(a.known) && Below(a.known, a.next) && next <= a.next <= next + |items|
      && (forall id :: id in known ==> id in a.known && a.known[id] == known[id])
      && (forall id :: id in a.known && id !in known ==> id in IDs(items) && next <= a.known[id])
      && (forall id :: id in IDs(items) ==> id in a.known)
    decreases |items|
  {
    if items != [] {
      AllocateLaws(known, next, items[..|items| - 1]);
      assert IDs(items) == IDs(items[..|items| - 1]) + [items[|items| - 1].serverID];
    }
  }

  /** Among new messages, arrival order is UID order. */
  lemma {:induction false} AllocateInArrivalOrder(known: map<string, nat>, next: nat, items: seq<EmailItem>, i: nat,
          j: nat)
    requires Injective(known) && Below(known, next) && i < j < |items| && Distinct(IDs(items))
    requires |IDs(items)| == |items| && forall k :: 0 <= k < |items| ==> IDs(items)[k] == items[k].serverID
    requires items[i].serverID !in known && items[j].serverID !in known
    ensures var a := Allocate(known, next, items);
      items[i].serverID in a.known && items[j].serverID in a.known
        && a.known[items[i].serverID] < a.known[items[j].serverID]
    decreases |items|
  {
    var init, last := items[..|items| - 1], items[|items| - 1];
    assert IDs(items) == IDs(init) + [last.serverID];
    DistinctSnoc(IDs(init), last.serverID);
    IDsAt(init);
    AllocateLaws(known, next, init);
    assert items[i].serverID in IDs(init);
    if j < |items| - 1 {
      AllocateInArrivalOrder(known, next, init, i, j);
    }
  }

  lemma {:induction false} IDsAt(items: seq<EmailItem>)
    ensures |IDs(items)| == |items| && forall k :: 0 <= k < |items| ==> IDs(items)[k] == items[k].serverID
    decreases |items|
  {
    if items != [] { IDsAt(items[..|items| - 1]); }
  }

  lemma {:induction false} TagAt(items: seq<EmailItem>, known: map<string, nat>)
    requires forall id :: id in IDs(items) ==> id in known
    ensures |Tag(items, known)| == |items|
    ensures forall k :: 0 <= k < |items| ==>
      items[k].serverID in known && Tag(items, known)[k] == Tagged(items[k], known[items[k].serverID])
    decreases |items|
  {
    if items != [] {
      assert IDs(items) == IDs(items[..|items| - 1]) + [items[|items| - 1].serverID];
      TagAt(items[..|items| - 1], known);
      assert items[|items| - 1].serverID in IDs(items);
    }
  }

  // ---------- sorting ----------

  lemma {:induction false} InsertMembers(sorted: seq<Tagged>, t: Tagged)
    ensures multiset(Insert(sorted, t)) == multiset(sorted) + multiset{t}
    ensures forall s :: s in Insert(sorted, t) <==> s in sorted || s == t
    decreases |sorted|
  {
    if sorted != [] && sorted[|sorted| - 1].uid > t.uid {
      InsertMembers(sorted[..|sorted| - 1], t);
      assert sorted == sorted[..|sorted| - 1] + [sorted[|sorted| - 1]];
    }
  }

  lemma {:induction false} InsertAscends(sorted: seq<Tagged>, t: Tagged)
    requires ByUid(sorted) && forall s :: s in sorted ==> s.uid != t.uid
    ensures ByUid(Insert(sorted, t))
    decreases |sorted|
  {
    if sorted != [] {
      var init, last := sorted[..|sorted| - 1], sorted[|sorted| - 1];
      if last.uid > t.uid {
        InsertAscends(init, t);
        InsertMembers(init, t);
        var r := Insert(init, t);
        forall k | 0 <= k < |r| ensures r[k].uid < last.uid {
          assert r[k] in r;
          if r[k] in init { var m :| 0 <= m < |init| && sorted[m] == r[k]; }
        }
      } else {
        assert last in sorted;
      }
    }
  }

  lemma {:induction false} SortHolds(tags: seq<Tagged>)
    requires forall i, j :: 0 <= i < j < |tags| ==> tags[i].uid != tags[j].uid
    ensures ByUid(Sort(tags)) && multiset(Sort(tags)) == multiset(tags)
    ensures forall t :: t in Sort(tags) <==> t in tags
    decreases |tags|
  {
    if tags != [] {
      var init, last := tags[..|tags| - 1], tags[|tags| - 1];
      assert tags == init + [last];
      SortHolds(init);
      forall s | s in Sort(init) ensures s.uid != last.uid {
        var k :| 0 <= k < |init| && init[k] == s;
        assert tags[k].uid != tags[|init|].uid;
      }
      InsertAscends(Sort(init), last);
      InsertMembers(Sort(init), last);
    }
  }

  lemma {:induction false} SortedStays(tags: seq<Tagged>)
    requires ByUid(tags)
    ensures Sort(tags) == tags
    decreases |tags|
  {
    if tags != [] {
      SortedStays(tags[..|tags| - 1]);
    }
  }

  lemma {:induction false} ListsAt(tags: seq<Tagged>)
    ensures |Untag(tags)| == |tags| == |Entries(tags)|
    ensures forall k :: 0 <= k < |tags| ==> Untag(tags)[k] == tags[k].item
                                            && Entries(tags)[k] == UidEntry(tags[k].item.serverID, tags[k].uid)
    decreases |tags|
  {
    if tags != [] { ListsAt(tags[..|tags| - 1]); }
  }

  // ---------- what assignUIDs promises ----------

  lemma {:induction false} AssignParts(meta: Meta, uids: seq<UidEntry>, items: seq<EmailItem>, now: nat)
    requires Unique(uids) && Distinct(IDs(items))
    ensures var start := StartMeta(meta, uids, now);
      var a := Allocate(Lookup(uids), start.nextUID, items);
      var tags := Tag(items, a.known);
      && Injective(Lookup(uids)) && Below(Lookup(uids), start.nextUID)
      && ByUid(Sort(tags)) && multiset(Sort(tags)) == multiset(tags) && (forall t :: t in Sort(tags) <==> t in tags)
      && |tags| == |items|
      && (forall k :: 0 <= k < |items| ==>
          items[k].serverID in a.known && tags[k] == Tagged(items[k], a.known[items[k].serverID]))
  {
    var start := StartMeta(meta, uids, now);
    LookupHolds(uids);
    forall id | id in Lookup(uids)
      ensures Lookup(uids)[id] < start.nextUID
    {
      assert UidEntry(id, Lookup(uids)[id]) in uids;
    }
    AllocateLaws(Lookup(uids), start.nextUID, items);
    var a := Allocate(Lookup(uids), start.nextUID, items);
    var tags := Tag(items, a.known);
    TagAt(items, a.known);
    IDsAt(items);
    forall i, j | 0 <= i < j < |tags| ensures tags[i].uid != tags[j].uid {
      assert IDs(items)[i] != IDs(items)[j];
    }
    SortHolds(tags);
  }

  function AssignTags(meta: Meta, uids: seq<UidEntry>, items: seq<EmailItem>, now: nat): seq<Tagged> {
    Sort(Tag(items, Allocate(Lookup(uids), StartMeta(meta, uids, now).nextUID, items).known))
  }

  lemma {:induction false} AssignShape(meta: Meta, uids: seq<UidEntry>, items: seq<EmailItem>, now: nat)
    requires Unique(uids) && Distinct(IDs(items))
    ensures var r := Assign(meta, uids, items, now);
      && |r.items| == |r.uids| == |items|
      && (forall k :: 0 <= k < |r.uids| ==> r.uids[k].serverID == r.items[k].serverID)
      && (forall i, j :: 0 <= i < j < |r.uids| ==> r.uids[i].uid < r.uids[j].uid)
      && multiset(r.items) == multiset(items)
  {
    AssignParts(meta, uids, items, now);
    var a := Allocate(Lookup(uids), StartMeta(meta, uids, now).nextUID, items);
    var tags, s := Tag(items, a.known), AssignTags(meta, uids, items, now);
    ListsAt(s);
    assert |s| == |multiset(s)| == |tags|;
    UntagSort(tags);
    UntagTag(items, a.known);
  }

  lemma {:induction false} UntagInsert(sorted: seq<Tagged>, t: Tagged)
    ensures multiset(Untag(Insert(sorted, t))) == multiset(Untag(sorted)) + multiset{t.item}
    decreases |sorted|
  {
    if sorted != [] && sorted[|sorted| - 1].uid > t.uid { UntagInsert(sorted[..|sorted| - 1], t); }
  }

  lemma {:induction false} UntagSort(tags: seq<Tagged>)
    ensures multiset(Untag(Sort(tags))) == multiset(Untag(tags))
    decreases |tags|
  {
    if tags != [] {
      UntagSort(tags[..|tags| - 1]);
      UntagInsert(Sort(tags[..|tags| - 1]), tags[|tags| - 1]);
    }
  }

  lemma {:induction false} UntagTag(items: seq<EmailItem>, known: map<string, nat>)
    ensures Untag(Tag(items, known)) == items
    decreases |items|
  {
    if items != [] {
      UntagTag(items[..|items| - 1], known);
      var it := items[|items| - 1];
      assert items == items[..|items| - 1] + [it];
    }
  }

  lemma {:induction false} EntryInTags(s: seq<Tagged>, e: UidEntry)
    ensures e in Entries(s) <==> exists k :: 0 <= k < |s| && s[k].item.serverID == e.serverID && s[k].uid == e.uid
  {
    ListsAt(s);
    if e in Entries(s) { var k :| 0 <= k < |s| && Entries(s)[k] == e; }
    if k :| 0 <= k < |s| && s[k].item.serverID == e.serverID && s[k].uid == e.uid { assert Entries(s)[k] == e; }
  }

  lemma {:induction false} EntryAmong(items: seq<EmailItem>, known: map<string, nat>, tags: seq<Tagged>,
          s: seq<Tagged>, e: UidEntry)
    requires |tags| == |items| && forall t :: t in s <==> t in tags
    requires forall k :: 0 <= k < |items| ==>
      items[k].serverID in known && tags[k] == Tagged(items[k], known[items[k].serverID])
    ensures e in Entries(s) <==> e.serverID in IDs(items) && e.serverID in known && known[e.serverID] == e.uid
  {
    EntryInTags(s, e);
    IDsAt(items);
    if k :| 0 <= k < |s| && s[k].item.serverID == e.serverID && s[k].uid == e.uid {
      assert s[k] in tags;
      var m :| 0 <= m < |tags| && tags[m] == s[k];
      assert IDs(items)[m] == e.serverID;
    }
    if e.serverID in IDs(items) && e.serverID in known && known[e.serverID] == e.uid {
      var m :| 0 <= m < |items| && IDs(items)[m] == e.serverID;
      assert tags[m] in s;
    }
  }

  lemma {:induction false} EntryOf(meta: Meta, uids: seq<UidEntry>, items: seq<EmailItem>, now: nat, e: UidEntry)
    requires Unique(uids) && Distinct(IDs(items))
    ensures var a := Allocate(Lookup(uids), StartMeta(meta, uids, now).nextUID, items);
      e in Assign(meta, uids, items, now).uids <==>
        e.serverID in IDs(items) && e.serverID in a.known && a.known[e.serverID] == e.uid
  {
    AssignParts(meta, uids, items, now);
    var a := Allocate(Lookup(uids), StartMeta(meta, uids, now).nextUID, items);
    EntryAmong(items, a.known, Tag(items, a.known), AssignTags(meta, uids, items, now), e);
  }

  /** assignUIDs lists the same messages in strictly increasing UID order, the UID list
      matches them one for one, old UIDs stay, and new ones lie above every UID there
      was, even when the recorded NextUID had fallen behind the list. */
  lemma {:induction false} AssignLaws(meta: Meta, uids: seq<UidEntry>, items: seq<EmailItem>, now: nat)
    requires Unique(uids) && Distinct(IDs(items))
    ensures var r, start := Assign(meta, uids, items, now), StartMeta(meta, uids, now);
      && |r.items| == |r.uids| && multiset(r.items) == multiset(items) && Unique(r.uids)
      && (forall k :: 0 <= k < |r.uids| ==> r.uids[k].serverID == r.items[k].serverID)
      && (forall i, j :: 0 <= i < j < |r.uids| ==> r.uids[i].uid < r.uids[j].uid)
      && (forall e :: e in r.uids ==> e.uid < r.meta.nextUID)
      && (forall e :: e in uids && e.serverID in IDs(items) ==> e in r.uids)
      && (forall e :: e in r.uids && e !in uids ==> e.uid >= start.nextUID && e.serverID in IDs(items))
      && start.nextUID <= r.meta.nextUID <= start.nextUID + |items|
  {
    AssignParts(meta, uids, items, now);
    AssignShape(meta, uids, items, now);
    LookupHolds(uids);
    var r, start := Assign(meta, uids, items, now), StartMeta(meta, uids, now);
    AllocateLaws(Lookup(uids), start.nextUID, items);
    forall e ensures e in uids && e.serverID in IDs(items) ==> e in r.uids
      ensures e in r.uids ==>
        e.uid < r.meta.nextUID && (e !in uids ==> e.uid >= start.nextUID && e.serverID in IDs(items))
    {
      EntryOf(meta, uids, items, now, e);
    }
    forall i, j | 0 <= i < j < |r.uids| ensures r.uids[i].serverID != r.uids[j].serverID {
      EntryOf(meta, uids, items, now, r.uids[i]);
      EntryOf(meta, uids, items, now, r.uids[j]);
      assert r.uids[i] in r.uids && r.uids[j] in r.uids && r.uids[i].uid < r.uids[j].uid;
    }
  }

  ghost predicate Precedes(items: seq<EmailItem>, x: EmailItem, y: EmailItem) {
    exists m, n :: 0 <= m < n < |items| && items[m] == x && items[n] == y
  }

  lemma {:induction false} SortedPositions(s: seq<Tagged>, x: Tagged, y: Tagged)
    requires ByUid(s) && x in s && y in s && x.uid < y.uid
    ensures Precedes(Untag(s), x.item, y.item)
  {
    ListsAt(s);
    var m :| 0 <= m < |s| && s[m] == x;
    var n :| 0 <= n < |s| && s[n] == y;
    assert Untag(s)[m] == x.item && Untag(s)[n] == y.item && m < n;
  }

  lemma {:induction false} NewTags(known: map<string, nat>, next: nat, items: seq<EmailItem>, i: nat, j: nat)
    returns (x: Tagged, y: Tagged)
    requires Injective(known) && Below(known, next) && i < j < |items| && Distinct(IDs(items))
    requires items[i].serverID !in known && items[j].serverID !in known
    ensures var tags := Tag(items, Allocate(known, next, items).known);
      x in tags && y in tags && x.uid < y.uid && x.item == items[i] && y.item == items[j]
  {
    IDsAt(items);
    AllocateInArrivalOrder(known, next, items, i, j);
    AllocateLaws(known, next, items);
    var a := Allocate(known, next, items);
    TagAt(items, a.known);
    x, y := Tag(items, a.known)[i], Tag(items, a.known)[j];
  }

  lemma {:induction false} AssignTagsAscend(meta: Meta, uids: seq<UidEntry>, items: seq<EmailItem>, now: nat)
    requires Unique(uids) && Distinct(IDs(items))
    ensures var tags := Tag(items, Allocate(Lookup(uids), StartMeta(meta, uids, now).nextUID, items).known);
      var s := AssignTags(meta, uids, items, now);
      ByUid(s) && forall t :: t in tags ==> t in s
  {
    AssignParts(meta, uids, items, now);
  }

  lemma {:induction false} AssignedItems(meta: Meta, uids: seq<UidEntry>, items: seq<EmailItem>, now: nat)
    ensures Assign(meta, uids, items, now).items == Untag(AssignTags(meta, uids, items, now))
  {
  }

  /** New messages are numbered in the order they arrived. */
  lemma {:induction false} NewUidsInArrivalOrder(meta: Meta, uids: seq<UidEntry>, items: seq<EmailItem>, now: nat,
          i: nat, j: nat)
    requires Unique(uids) && Distinct(IDs(items)) && i < j < |items|
    requires forall e :: e in uids ==> e.serverID != items[i].serverID && e.serverID != items[j].serverID
    ensures Precedes(Assign(meta, uids, items, now).items, items[i], items[j])
  {
    var start := StartMeta(meta, uids, now);
    LookupHolds(uids);
    LookupBelow(uids, start.nextUID);
    var x, y := NewTags(Lookup(uids), start.nextUID, items, i, j);
    AssignTagsAscend(meta, uids, items, now);
    SortedPositions(AssignTags(meta, uids, items, now), x, y);
    AssignedItems(meta, uids, items, now);
  }

  ghost predicate Matches(items: seq<EmailItem>, uids: seq<UidEntry>) {
    && |items| == |uids| && (forall k :: 0 <= k < |items| ==> items[k].serverID == uids[k].serverID)
    && (forall i, j :: 0 <= i < j < |uids| ==> uids[i].uid < uids[j].uid)
  }

  lemma {:induction false} ArrivedTags(meta: Meta, uids: seq<UidEntry>, listed: seq<EmailItem>,
          arrived: seq<EmailItem>, now: nat, k: nat)
    requires Unique(uids) && Matches(listed, uids) && Distinct(IDs(listed + arrived)) && k < |listed + arrived|
    ensures var items, start := listed + arrived, StartMeta(meta, uids, now);
      var a := Allocate(Lookup(uids), start.nextUID, items);
      && items[k].serverID in a.known
      && (k < |listed| ==> a.known[items[k].serverID] == uids[k].uid < start.nextUID)
      && (k >= |listed| ==> items[k].serverID !in Lookup(uids) && a.known[items[k].serverID] >= start.nextUID)
  {
    var items, start := listed + arrived, StartMeta(meta, uids, now);
    LookupHolds(uids);
    IDsAt(items);
    LookupBelow(uids, start.nextUID);
    AllocateLaws(Lookup(uids), start.nextUID, items);
    assert IDs(items)[k] in IDs(items);
    if k < |listed| {
      assert uids[k] in uids;
    } else {
      forall m | 0 <= m < |uids| ensures uids[m].serverID != items[k].serverID {
        assert IDs(items)[m] != IDs(items)[k] && items[m].serverID == uids[m].serverID;
      }
    }
  }

  lemma {:induction false} LookupBelow(uids: seq<UidEntry>, n: nat)
    requires Unique(uids) && forall e :: e in uids ==> e.uid < n
    ensures Injective(Lookup(uids)) && Below(Lookup(uids), n)
  {
    LookupHolds(uids);
    forall id | id in Lookup(uids) ensures Lookup(uids)[id] < n { assert UidEntry(id, Lookup(uids)[id]) in uids; }
  }

  /** Messages already listed in UID order keep their sequence numbers when new ones
      arrive behind them. */
  lemma {:induction false} ArrivalsDoNotRenumber(meta: Meta, uids: seq<UidEntry>, listed: seq<EmailItem>,
          arrived: seq<EmailItem>, now: nat)
    requires Unique(uids) && Matches(listed, uids) && Distinct(IDs(listed + arrived))
    ensures var r := Assign(meta, uids, listed + arrived, now);
      r.items == listed + arrived && |uids| <= |r.uids| && r.uids[..|uids|] == uids
  {
    var items, start := listed + arrived, StartMeta(meta, uids, now);
    var a := Allocate(Lookup(uids), start.nextUID, items);
    var tags := Tag(items, a.known);
    AssignParts(meta, uids, items, now);
    IDsAt(items);
    forall i, j | 0 <= i < j < |tags| ensures tags[i].uid < tags[j].uid {
      ArrivedTags(meta, uids, listed, arrived, now, i);
      ArrivedTags(meta, uids, listed, arrived, now, j);
      if i >= |listed| { AllocateInArrivalOrder(Lookup(uids), start.nextUID, items, i, j); }
    }
    SortedStays(tags);
    UntagTag(items, a.known);
    forall k | 0 <= k < |uids| ensures tags[k].item.serverID == uids[k].serverID && tags[k].uid == uids[k].uid {
      ArrivedTags(meta, uids, listed, arrived, now, k);
    }
    EntriesBegin(tags, uids);
  }

  lemma {:induction false} EntriesBegin(tags: seq<Tagged>, uids: seq<UidEntry>)
    requires |uids| <= |tags|
    requires forall k :: 0 <= k < |uids| ==> tags[k].item.serverID == uids[k].serverID && tags[k].uid == uids[k].uid
    ensures |uids| <= |Entries(tags)| && Entries(tags)[..|uids|] == uids
  {
    ListsAt(tags);
  }

  // ---------- the crash-prone machine of one folder ----------

  /** What the process holds for the folder. */
  datatype Mem = Mem(items: seq<EmailItem>, uids: seq<UidEntry>, meta: Meta)

  /** state.json holds the meta data, folders/<id>.json the items and the UID list. */
  datatype Files = Files(main: Meta, items: seq<EmailItem>, uids: seq<UidEntry>)

  /** One UID as a client may have seen it. */
  datatype Shown = Shown(validity: nat, uid: nat, serverID: string)

  datatype Machine = Machine(mem: Mem, files: Files, shown: set<Shown>)

  datatype Fate =
    | BothWritten
    | ShardNotWritten          // the second write failed and the process went on
    | CrashBeforeWrites
    | CrashBetweenWrites
    | MainNotWritten           // the first write failed and the process went on

  datatype Step =
    | AssignStep(items: seq<EmailItem>, now: nat, fate: Fate)   // mutateFolder and addMovedItems
    | RemoveStep(ids: set<string>, written: bool)
    | SaveShardStep
    | SaveMainStep
    | CrashStep

  function Loaded(f: Files): Mem { Mem(f.items, f.uids, f.main) }

  function ShownNow(m: Mem): set<Shown> { set e | e in m.uids :: Shown(m.meta.uidValidity, e.uid, e.serverID) }

  function Kept(items: seq<EmailItem>, ids: set<string>): seq<EmailItem>
    decreases |items|
  {
    if items == [] then []
    else
      var it := items[|items| - 1];
      Kept(items[..|items| - 1], ids) + (if it.serverID in ids then [] else [it])
  }

  function Become(mem: Mem, files: Files, shown: set<Shown>): Machine { Machine(mem, files, shown + ShownNow(mem)) }

  function Next(s: Machine, step: Step): Machine {
    match step
    case AssignStep(items, now, fate) =>
      var r := Assign(s.mem.meta, s.mem.uids, items, now);
      var mem := Mem(r.items, r.uids, r.meta);
      (match fate
       case BothWritten => Become(mem, Files(r.meta, r.items, r.uids), s.shown)
       case ShardNotWritten => Become(mem, s.files.(main := r.meta), s.shown)
       case CrashBeforeWrites => Become(Loaded(s.files), s.files, s.shown)
       case CrashBetweenWrites => Become(Loaded(s.files.(main := r.meta)), s.files.(main := r.meta), s.shown)
       case MainNotWritten => Become(mem, s.files, s.shown))
    case RemoveStep(ids, written) =>
      var mem := s.mem.(items := Kept(s.mem.items, ids));
      Become(mem, if written then s.files.(items := mem.items, uids := mem.uids) else s.files, s.shown)
    case SaveShardStep => s.(files := s.files.(items := s.mem.items, uids := s.mem.uids))
    case SaveMainStep => s.(files := s.files.(main := s.mem.meta))
    case CrashStep => Become(Loaded(s.files), s.files, s.shown)
  }

  ghost predicate Allowed(step: Step) {
    step.AssignStep? ==> Distinct(IDs(step.items)) && step.fate != MainNotWritten
  }

  function After(s: Machine, steps: seq<Step>): Machine
    decreases |steps|
  {
    if steps == [] then s else Next(After(s, steps[..|steps| - 1]), steps[|steps| - 1])
  }

  const FRESH := Machine(Mem([], [], NO_META), Files(NO_META, [], []), {})

  ghost predicate NeverReused(shown: set<Shown>) {
    forall a, b :: a in shown && b in shown && a.uid == b.uid ==> a.serverID == b.serverID
  }

  /** UIDs already shown lie below NextUID in the main file, which memory agrees with;
      every UID list in memory or on disk lists only what may have been shown. */
  ghost predicate Safe(s: Machine) {
    && NeverReused(s.shown) && s.mem.meta == s.files.main
    && Unique(s.mem.uids) && Unique(s.files.uids)
    && (forall x :: x in s.shown ==> x.uid < s.files.main.nextUID && x.validity in {0, s.files.main.uidValidity})
    && (forall e :: e in s.mem.uids || e in s.files.uids ==> Seen(s.shown, e))
  }

  ghost predicate Seen(shown: set<Shown>, e: UidEntry) {
    exists x :: x in shown && x.uid == e.uid && x.serverID == e.serverID
  }

  lemma {:induction false} SeenStays(shown: set<Shown>, more: set<Shown>, uids: seq<UidEntry>)
    requires forall e :: e in uids ==> Seen(shown, e)
    ensures forall e :: e in uids ==> Seen(shown + more, e)
  {
    forall e | e in uids ensures Seen(shown + more, e) {
      var x :| x in shown && x.uid == e.uid && x.serverID == e.serverID;
      assert x in shown + more;
    }
  }

  /** Showing a list that was already shown changes nothing that matters. */
  lemma {:induction false} ReshowKeepsSafe(s: Machine, mem: Mem, files: Files)
    requires Safe(s) && mem.meta == files.main && Unique(mem.uids) && Unique(files.uids)
    requires files.main.nextUID >= s.files.main.nextUID
    requires files.main.uidValidity == s.files.main.uidValidity || s.files.main.uidValidity == 0
    requires forall e :: e in mem.uids || e in files.uids ==> Seen(s.shown, e)
    ensures Safe(Become(mem, files, s.shown))
  {
    var s' := Become(mem, files, s.shown);
    SeenStays(s.shown, ShownNow(mem), mem.uids);
    SeenStays(s.shown, ShownNow(mem), files.uids);
    forall x | x in ShownNow(mem)
      ensures x.uid < files.main.nextUID && exists y :: y in s.shown && y.uid == x.uid && y.serverID == x.serverID
    {
      var e :| e in mem.uids && x == Shown(mem.meta.uidValidity, e.uid, e.serverID);
      assert Seen(s.shown, e);
    }
  }

  /** A new list may be shown when its entries are old acquaintances or lie above every
      UID shown so far. */
  lemma {:induction false} ShowKeepsNeverReused(shown: set<Shown>, mem: Mem, next: nat)
    requires NeverReused(shown) && Unique(mem.uids) && forall x :: x in shown ==> x.uid < next
    requires forall e :: e in mem.uids ==> Seen(shown, e) || e.uid >= next
    ensures NeverReused(shown + ShownNow(mem))
    ensures forall e :: e in mem.uids ==> Seen(shown + ShownNow(mem), e)
  {
    forall x | x in ShownNow(mem) ensures forall y :: y in shown && y.uid == x.uid ==> y.serverID == x.serverID {
      var e :| e in mem.uids && x == Shown(mem.meta.uidValidity, e.uid, e.serverID);
    }
    forall x, y | x in ShownNow(mem) && y in ShownNow(mem) && x.uid == y.uid ensures x.serverID == y.serverID {
      SameEntry(mem, x, y);
    }
    forall e | e in mem.uids ensures Seen(shown + ShownNow(mem), e) {
      assert Shown(mem.meta.uidValidity, e.uid, e.serverID) in ShownNow(mem);
    }
  }

  lemma {:induction false} SameEntry(mem: Mem, x: Shown, y: Shown)
    requires Unique(mem.uids) && x in ShownNow(mem) && y in ShownNow(mem) && x.uid == y.uid
    ensures x.serverID == y.serverID
  {
    var e :| e in mem.uids && x == Shown(mem.meta.uidValidity, e.uid, e.serverID);
    var f :| f in mem.uids && y == Shown(mem.meta.uidValidity, f.uid, f.serverID);
    var i :| 0 <= i < |mem.uids| && mem.uids[i] == e;
    var j :| 0 <= j < |mem.uids| && mem.uids[j] == f;
  }

  lemma {:induction false} AssignKeepsSafe(s: Machine, items: seq<EmailItem>, now: nat, shard: bool)
    requires Safe(s) && Distinct(IDs(items))
    ensures var r := Assign(s.mem.meta, s.mem.uids, items, now);
      Safe(Become(Mem(r.items, r.uids, r.meta),
                  if shard then Files(r.meta, r.items, r.uids) else s.files.(main := r.meta), s.shown))
  {
    var r := Assign(s.mem.meta, s.mem.uids, items, now);
    var mem := Mem(r.items, r.uids, r.meta);
    AssignLaws(s.mem.meta, s.mem.uids, items, now);
    ShowKeepsNeverReused(s.shown, mem, s.mem.meta.nextUID);
    SeenStays(s.shown, ShownNow(mem), s.files.uids);
    forall x | x in ShownNow(mem) ensures x.uid < r.meta.nextUID && x.validity == r.meta.uidValidity {
      var e :| e in r.uids && x == Shown(mem.meta.uidValidity, e.uid, e.serverID);
    }
  }

  lemma {:induction false} StepKeepsSafe(s: Machine, step: Step)
    requires Safe(s) && Allowed(step)
    ensures Safe(Next(s, step))
  {
    match step
    case AssignStep(items, now, fate) =>
      AssignLaws(s.mem.meta, s.mem.uids, items, now);
      var r := Assign(s.mem.meta, s.mem.uids, items, now);
      match fate {
        case BothWritten => AssignKeepsSafe(s, items, now, true);
        case ShardNotWritten => AssignKeepsSafe(s, items, now, false);
        case CrashBeforeWrites => ReshowKeepsSafe(s, Loaded(s.files), s.files);
        case CrashBetweenWrites =>
          ReshowKeepsSafe(s, Loaded(s.files.(main := r.meta)), s.files.(main := r.meta));
      }
    case RemoveStep(ids, written) =>
      var mem := s.mem.(items := Kept(s.mem.items, ids));
      ReshowKeepsSafe(s, mem, if written then s.files.(items := mem.items, uids := mem.uids) else s.files);
    case SaveShardStep =>
    case SaveMainStep =>
    case CrashStep => ReshowKeepsSafe(s, Loaded(s.files), s.files);
  }

  /** Over every run of merges, moves, removals and saves, with the process dying before,
      between or after the two writes at any time, no UID is ever shown for two different
      messages, and the UIDVALIDITY shown with it never changes. */
  lemma {:induction false} UidsAreNeverReused(steps: seq<Step>)
    requires forall step :: step in steps ==> Allowed(step)
    ensures var s := After(FRESH, steps);
      && Safe(s) && NeverReused(s.shown)
      && (forall x, y :: x in s.shown && y in s.shown && x.validity != 0 && y.validity != 0 ==>
          x.validity == y.validity)
    decreases |steps|
  {
    if steps != [] {
      var init, step := steps[..|steps| - 1], steps[|steps| - 1];
      assert steps == init + [step];
      UidsAreNeverReused(init);
      StepKeepsSafe(After(FRESH, init), step);
    }
  }

  /** How this is lost: the main file cannot be written, the process carries on
      and shows the new UID, and then dies.  The next message gets the same UID under the
      same UIDVALIDITY, from any safe state. */
  lemma {:induction false} UnwrittenMainReusesUid(s: Machine, x: EmailItem, y: EmailItem, now: nat)
    requires Safe(s) && s.files.uids == s.mem.uids && s.mem.meta.uidValidity != 0
    requires x.serverID != y.serverID
    requires forall e :: e in s.mem.uids ==> e.serverID != x.serverID && e.serverID != y.serverID
    ensures var died := Next(Next(s, AssignStep([x], now, MainNotWritten)), CrashStep);
      var t := Next(died, AssignStep([y], now, BothWritten));
      exists u :: Shown(s.mem.meta.uidValidity, u, x.serverID) in t.shown
        && Shown(s.mem.meta.uidValidity, u, y.serverID) in t.shown
  {
    var u, v := StartMeta(s.mem.meta, s.mem.uids, now).nextUID, s.mem.meta.uidValidity;
    AssignOne(s.mem.meta, s.mem.uids, x, now);
    AssignOne(s.mem.meta, s.mem.uids, y, now);
    var rx, ry := Assign(s.mem.meta, s.mem.uids, [x], now), Assign(s.mem.meta, s.mem.uids, [y], now);
    var s1 := Become(Mem(rx.items, rx.uids, rx.meta), s.files, s.shown);
    var s2 := Become(Loaded(s.files), s.files, s1.shown);
    var t := Become(Mem(ry.items, ry.uids, ry.meta), Files(ry.meta, ry.items, ry.uids), s2.shown);
    assert Next(s, AssignStep([x], now, MainNotWritten)) == s1 && Next(s1, CrashStep) == s2;
    assert Next(s2, AssignStep([y], now, BothWritten)) == t;
    assert UidEntry(x.serverID, u) in rx.uids && UidEntry(y.serverID, u) in ry.uids;
    assert Shown(v, u, x.serverID) in s1.shown && Shown(v, u, y.serverID) in t.shown;
  }

  lemma {:induction false} AssignOne(meta: Meta, uids: seq<UidEntry>, x: EmailItem, now: nat)
    requires Unique(uids) && forall e :: e in uids ==> e.serverID != x.serverID
    ensures Assign(meta, uids, [x], now).uids == [UidEntry(x.serverID, StartMeta(meta, uids, now).nextUID)]
  {
    LookupHolds(uids);
    var next := StartMeta(meta, uids, now).nextUID;
    forall id | id in Lookup(uids) ensures id != x.serverID { assert UidEntry(id, Lookup(uids)[id]) in uids; }
    AllocateOne(Lookup(uids), next, x);
    EntriesOfOne(Lookup(uids)[x.serverID := next], x);
  }

  lemma {:induction false} AllocateOne(known: map<string, nat>, next: nat, x: EmailItem)
    requires x.serverID !in known
    ensures Allocate(known, next, [x]) == Allocation(known[x.serverID := next], next + 1)
  {
    assert [x][..0] == [];
  }

  lemma {:induction false} EntriesOfOne(known: map<string, nat>, x: EmailItem)
    requires x.serverID in known
    ensures Entries(Sort(Tag([x], known))) == [UidEntry(x.serverID, known[x.serverID])]
  {
    var tag := Tagged(x, known[x.serverID]);
    assert [x][..0] == [] && [tag][..0] == [];
    assert Tag([x], known) == [tag];
    assert Sort([tag]) == [tag];
  }
}
