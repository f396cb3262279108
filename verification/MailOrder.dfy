/** When merging a collected round leaves exactly the list that merging page by page
    leaves: the same messages, the same contents, the same order. */
module MailOrder {
  import opened Ids
  import opened Mail
  import opened MailMerge

  // ---------- who is heard of first ----------

  predicate Heard(ops: seq<Op>, id: string)
    decreases |ops|
  {
    ops != [] && (IdOf(ops[|ops| - 1]) == id || Heard(ops[..|ops| - 1], id))
  }

  /** x is heard of before y is. */
  predicate Earlier(ops: seq<Op>, x: string, y: string)
    decreases |ops|
  {
    ops != [] && ((Heard(ops, x) && !Heard(ops, y)) || Earlier(ops[..|ops| - 1], x, y))
  }

  function FirstHeard(ops: seq<Op>, ids: set<string>): seq<string>
    decreases |ops|
  {
    if ops == [] then []
    else
      var init, id := ops[..|ops| - 1], IdOf(ops[|ops| - 1]);
      FirstHeard(init, ids) + if id in ids && !Heard(init, id) then [id] else []
  }

  function Gone(ops: seq<Op>): set<string> { set op | op in ops && op.Delete? :: IdOf(op) }

  /** The messages a round brings that the folder did not have and that are not deleted
      again. */
  function Arrivals(b: Box, ops: seq<Op>): set<string> {
    set op | op in ops && IdOf(op) !in b.store && IdOf(op) !in Gone(ops) :: IdOf(op)
  }

  /** An arrival that is heard of before another one, and is not its junior among the adds. */
  ghost predicate InTurn(b: Box, ops: seq<Op>) {
    forall x, y :: x in Arrivals(b, ops) && y in Arrivals(b, ops) && Earlier(ops, x, y) && Heard(OfRank(ops, 0), y)
      ==> Earlier(OfRank(ops, 0), x, y)
  }

  // ---------- what is stored ----------

  /** What an identifier's operations make of it, deletes aside. */
  function MergedContent(before: EmailItem, ops: seq<Op>, id: string): EmailItem
    decreases |ops|
  {
    if ops == [] then before
    else
      var earlier, op := MergedContent(before, ops[..|ops| - 1], id), ops[|ops| - 1];
      if op.Delete? || IdOf(op) != id then earlier else Stored(earlier, op)
  }

  function LatestAdd(ops: seq<Op>, id: string): EmailItem
    requires Heard(OfRank(ops, 0), id)
    decreases |ops|
  {
    var op := ops[|ops| - 1];
    OfRankSnoc(ops[..|ops| - 1], op, 0);
    assert ops[..|ops| - 1] + [op] == ops;
    if op.Add? && IdOf(op) == id then op.item
    else
      assert Heard(OfRank(ops[..|ops| - 1], 0), id) by { HeardSnoc(OfRank(ops[..|ops| - 1], 0), op, id); }
      LatestAdd(ops[..|ops| - 1], id)
  }

  function SinceAdd(ops: seq<Op>, id: string): seq<Op>
    decreases |ops|
  {
    if ops == [] || (ops[|ops| - 1].Add? && IdOf(ops[|ops| - 1]) == id) then []
    else SinceAdd(ops[..|ops| - 1], id) + [ops[|ops| - 1]]
  }

  /** Changes that came before the last add of a message leave nothing behind when they
      are merged after it. */
  ghost predicate ChangesSettle(ops: seq<Op>, id: string) {
    Heard(OfRank(ops, 0), id) && id !in Gone(ops) ==>
      MergedContent(LatestAdd(ops, id), OfRank(ops, 1), id) == MergedContent(LatestAdd(ops, id), SinceAdd(ops, id), id)
  }

  // ---------- hearing, over prefixes and parts ----------

  lemma {:induction false} HeardSnoc(ops: seq<Op>, op: Op, id: string)
    ensures Heard(ops + [op], id) <==> IdOf(op) == id || Heard(ops, id)
  {
    assert (ops + [op])[..|ops|] == ops;
  }

  lemma {:induction false} HeardConcat(a: seq<Op>, c: seq<Op>, id: string)
    ensures Heard(a + c, id) <==> Heard(a, id) || Heard(c, id)
    decreases |c|
  {
    if c == [] {
      assert a + c == a;
    } else {
      assert (a + c)[..|a + c| - 1] == a + c[..|c| - 1];
      HeardConcat(a, c[..|c| - 1], id);
    }
  }

  lemma {:induction false} HeardHolds(ops: seq<Op>, id: string)
    ensures Heard(ops, id) <==> exists op :: op in ops && IdOf(op) == id
    decreases |ops|
  {
    if ops != [] {
      HeardHolds(ops[..|ops| - 1], id);
      assert ops == ops[..|ops| - 1] + [ops[|ops| - 1]];
    }
  }

  lemma {:induction false} EarlierConcat(a: seq<Op>, c: seq<Op>, x: string, y: string)
    ensures Earlier(a + c, x, y) <==> Earlier(a, x, y) || (!Heard(a, y) && Earlier(c, x, y))
    decreases |c|
  {
    if c == [] {
      assert a + c == a;
    } else {
      assert (a + c)[..|a + c| - 1] == a + c[..|c| - 1];
      EarlierConcat(a, c[..|c| - 1], x, y);
      HeardConcat(a, c, x);
      HeardConcat(a, c, y);
    }
  }

  /** Whoever is only changed is heard of in the changes, in the same order. */
  lemma {:induction false} OnlyChanged(ops: seq<Op>, x: string, y: string)
    requires forall op :: op in ops && (IdOf(op) == x || IdOf(op) == y) ==> op.Change?
    ensures Heard(OfRank(ops, 1), x) == Heard(ops, x) && Heard(OfRank(ops, 1), y) == Heard(ops, y)
    ensures Earlier(OfRank(ops, 1), x, y) == Earlier(ops, x, y)
    decreases |ops|
  {
    if ops != [] {
      var init, op := ops[..|ops| - 1], ops[|ops| - 1];
      assert op in ops && forall o :: o in init ==> o in ops;
      OnlyChanged(init, x, y);
      var c := OfRank(init, 1);
      HeardSnoc(c, op, x);
      HeardSnoc(c, op, y);
      assert (c + [op])[..|c|] == c;
      assert OfRank(ops, 1) == if op.Change? then c + [op] else c;
    }
  }

  lemma {:induction false} EarlierInBatch(ops: seq<Op>, x: string, y: string)
    requires x !in Gone(ops) && y !in Gone(ops)
    ensures Earlier(Batched(ops), x, y) <==>
      if Heard(OfRank(ops, 0), y) then Earlier(OfRank(ops, 0), x, y) else Heard(OfRank(ops, 0), x) || Earlier(ops, x, y)
  {
    var a, c, d := OfRank(ops, 0), OfRank(ops, 1), OfRank(ops, 2);
    EarlierConcat(a + c, d, x, y);
    EarlierConcat(a, c, x, y);
    NotDeleted(ops, x);
    NotDeleted(ops, y);
    NeverEarlier(d, x, y);
    if !Heard(a, x) && !Heard(a, y) {
      NeverEarlier(a, x, y);
      HeardHolds(a, x);
      HeardHolds(a, y);
      OfRankHolds(ops, 0);
      OnlyChanged(ops, x, y);
    } else if !Heard(a, y) {
      assert Earlier(a, x, y);
    }
  }

  lemma {:induction false} NotDeleted(ops: seq<Op>, id: string)
    requires id !in Gone(ops)
    ensures !Heard(OfRank(ops, 2), id)
    ensures forall op :: op in ops && IdOf(op) == id ==> !op.Delete?
  {
    OfRankHolds(ops, 2);
    HeardHolds(OfRank(ops, 2), id);
  }

  lemma {:induction false} NeverEarlier(ops: seq<Op>, x: string, y: string)
    requires !Heard(ops, x)
    ensures !Earlier(ops, x, y)
    decreases |ops|
  {
    if ops != [] { NeverEarlier(ops[..|ops| - 1], x, y); }
  }

  // ---------- an order is known by its pairs ----------

  predicate InFront(ids: seq<string>, x: string, y: string)
    decreases |ids|
  {
    ids != [] && ((x in ids && y !in ids) || InFront(ids[..|ids| - 1], x, y))
  }

  lemma {:induction false} InFrontSnoc(ids: seq<string>, id: string, x: string, y: string)
    ensures InFront(ids + [id], x, y) <==> (x in ids + [id] && y !in ids + [id]) || InFront(ids, x, y)
  {
    assert (ids + [id])[..|ids|] == ids;
  }

  lemma {:induction false} InFrontLast(ids: seq<string>, x: string, y: string)
    ensures x in ids && y !in ids ==> InFront(ids, x, y)
  {
  }

  lemma {:induction false} InFrontHolds(ids: seq<string>, x: string, y: string)
    requires InFront(ids, x, y)
    ensures x in ids
    decreases |ids|
  {
    if x !in ids {
      InFrontHolds(ids[..|ids| - 1], x, y);
      assert false;
    }
  }

  ghost predicate AgreesWith(q: seq<string>, p: seq<string>) {
    forall x, y :: x in p && y in p && InFront(p, x, y) ==> InFront(q, x, y)
  }

  lemma {:induction false} HasMember(ids: seq<string>)
    ensures ids == [] || exists x :: x in ids
  {
    if ids != [] { assert ids[0] in ids; }
  }

  lemma {:induction false} PairsDecide(p: seq<string>, q: seq<string>)
    requires Distinct(p) && Distinct(q) && (forall x :: x in p <==> x in q) && AgreesWith(q, p)
    ensures p == q
    decreases |p|
  {
    if p == [] {
      HasMember(q);
    } else {
      var p', y := p[..|p| - 1], p[|p| - 1];
      assert p == p' + [y] && y in q;
      var q', z := q[..|q| - 1], q[|q| - 1];
      assert q == q' + [z] && z in p;
      DistinctSnoc(p', y);
      DistinctSnoc(q', z);
      if z != y {
        assert z in p';
        assert InFront(p', z, y) && InFront(p, z, y) && InFront(q, z, y);
        InFrontHolds(q', z, y);
        assert false;
      }
      forall v, w | v in p' && w in p' && InFront(p', v, w) ensures InFront(q', v, w) {
        assert InFront(p, v, w) && InFront(q, v, w);
      }
      forall v ensures v in p' <==> v in q' { assert v in p <==> v in q; }
      PairsDecide(p', q');
    }
  }

  lemma {:induction false} FirstHeardHolds(ops: seq<Op>, ids: set<string>)
    ensures Distinct(FirstHeard(ops, ids))
    ensures forall x :: x in FirstHeard(ops, ids) <==> x in ids && Heard(ops, x)
    decreases |ops|
  {
    if ops != [] { FirstHeardHolds(ops[..|ops| - 1], ids); }
  }

  lemma {:induction false} FirstHeardOrder(ops: seq<Op>, ids: set<string>, x: string, y: string)
    requires x in ids && y in ids
    ensures InFront(FirstHeard(ops, ids), x, y) <==> Earlier(ops, x, y)
    decreases |ops|
  {
    if ops != [] {
      var init, id := ops[..|ops| - 1], IdOf(ops[|ops| - 1]);
      FirstHeardOrder(init, ids, x, y);
      FirstHeardHolds(init, ids);
      FirstHeardHolds(ops, ids);
      var p, q := FirstHeard(init, ids), FirstHeard(ops, ids);
      assert q == if id in ids && !Heard(init, id) then p + [id] else p;
      InFrontSnoc(p, id, x, y);
      InFrontLast(p, x, y);
    }
  }

  lemma {:induction false} SameArrivalOrder(b: Box, ops: seq<Op>)
    ensures FirstHeard(Batched(ops), Arrivals(b, ops)) == FirstHeard(ops, Arrivals(b, ops)) <==> InTurn(b, ops)
  {
    var ids := Arrivals(b, ops);
    var p, q := FirstHeard(ops, ids), FirstHeard(Batched(ops), ids);
    FirstHeardHolds(ops, ids);
    FirstHeardHolds(Batched(ops), ids);
    forall x ensures Heard(Batched(ops), x) <==> Heard(ops, x) { HeardInBatch(ops, x); }
    forall x, y | x in ids && y in ids
      ensures InFront(p, x, y) <==> Earlier(ops, x, y)
      ensures InFront(q, x, y) <==>
        if Heard(OfRank(ops, 0), y) then Earlier(OfRank(ops, 0), x, y)
        else Heard(OfRank(ops, 0), x) || Earlier(ops, x, y)
    {
      FirstHeardOrder(ops, ids, x, y);
      FirstHeardOrder(Batched(ops), ids, x, y);
      EarlierInBatch(ops, x, y);
    }
    if InTurn(b, ops) { PairsDecide(p, q); }
  }

  lemma {:induction false} HeardInBatch(ops: seq<Op>, id: string)
    ensures Heard(Batched(ops), id) <==> Heard(ops, id)
  {
    BatchedLastOp(ops, id);
    LastOpHolds(ops, id);
    LastOpHolds(Batched(ops), id);
    HeardHolds(ops, id);
    HeardHolds(Batched(ops), id);
  }

  // ---------- the order of the folder ----------

  function Surviving(order: seq<string>, ids: set<string>): seq<string>
    decreases |order|
  {
    if order == [] then []
    else
      var last := order[|order| - 1];
      Surviving(order[..|order| - 1], ids) + if last in ids then [] else [last]
  }

  lemma {:induction false} SurvivingSnoc(order: seq<string>, id: string, ids: set<string>)
    ensures Surviving(order + [id], ids) == if id in ids then Surviving(order, ids) else Surviving(order, ids) + [id]
  {
    assert (order + [id])[..|order|] == order;
  }

  lemma {:induction false} SurvivingWithout(order: seq<string>, id: string, ids: set<string>)
    requires id in ids
    ensures Surviving(Without(order, id), ids) == Surviving(order, ids)
    decreases |order|
  {
    if order != [] {
      var init, last := order[..|order| - 1], order[|order| - 1];
      SurvivingWithout(init, id, ids);
      SurvivingSnoc(Without(init, id), last, ids);
      assert Without(init, id) + [] == Without(init, id);
    }
  }

  lemma {:induction false} AllSurvive(order: seq<string>, ids: set<string>)
    requires forall id :: id in order ==> id !in ids
    ensures Surviving(order, ids) == order
    decreases |order|
  {
    if order != [] {
      assert order == order[..|order| - 1] + [order[|order| - 1]];
      AllSurvive(order[..|order| - 1], ids);
    }
  }

  lemma {:induction false} StoredIffHeard(b: Box, ops: seq<Op>, id: string)
    requires Delete(id) !in ops
    ensures id in Run(b, ops).store <==> id in b.store || Heard(ops, id)
  {
    PresentByLastOp(b, ops, id);
    LastOpHolds(ops, id);
    HeardHolds(ops, id);
  }

  lemma {:induction false} OrderStep(b: Box, op: Op, gone: set<string>)
    requires op.Delete? ==> op.id in gone
    ensures Surviving(Apply(b, op).order, gone) ==
      Surviving(b.order, gone) + if IdOf(op) in gone || IdOf(op) in b.store then [] else [IdOf(op)]
  {
    if op.Delete? {
      SurvivingWithout(b.order, op.id, gone);
    } else {
      ApplyStores(b, op);
      SurvivingSnoc(b.order, IdOf(op), gone);
    }
  }

  lemma {:induction false} FirstHeardSnoc(ops: seq<Op>, op: Op, ids: set<string>)
    ensures FirstHeard(ops + [op], ids) ==
      FirstHeard(ops, ids) + if IdOf(op) in ids && !Heard(ops, IdOf(op)) then [IdOf(op)] else []
  {
    assert (ops + [op])[..|ops|] == ops;
  }

  /** One more operation adds the same identifier, or none, on both sides. */
  lemma {:induction false} OrderFollows(b: Box, ops: seq<Op>, op: Op, gone: set<string>, ids: set<string>)
    requires forall o :: o in ops && o.Delete? ==> o.id in gone
    requires op.Delete? ==> op.id in gone
    requires IdOf(op) in ids <==> IdOf(op) !in b.store && IdOf(op) !in gone
    requires Surviving(Run(b, ops).order, gone) == Surviving(b.order, gone) + FirstHeard(ops, ids)
    ensures Surviving(Run(b, ops + [op]).order, gone) == Surviving(b.order, gone) + FirstHeard(ops + [op], ids)
  {
    RunSnoc(b, ops, op);
    OrderStep(Run(b, ops), op, gone);
    FirstHeardSnoc(ops, op, ids);
    if IdOf(op) !in gone { StoredIffHeard(b, ops, IdOf(op)); }
  }

  /** Of the messages never deleted, those the folder had stay in front, in their order;
      behind them come the others as they were first heard of. */
  lemma {:induction false} OrderByFirstHeard(b: Box, ops: seq<Op>, gone: set<string>, ids: set<string>)
    requires forall op :: op in ops && op.Delete? ==> op.id in gone
    requires forall op :: op in ops ==> (IdOf(op) in ids <==> IdOf(op) !in b.store && IdOf(op) !in gone)
    ensures Surviving(Run(b, ops).order, gone) == Surviving(b.order, gone) + FirstHeard(ops, ids)
    decreases |ops|
  {
    if ops != [] {
      var init, op := ops[..|ops| - 1], ops[|ops| - 1];
      assert op in ops && forall o :: o in init ==> o in ops;
      OrderByFirstHeard(b, init, gone, ids);
      OrderFollows(b, init, op, gone, ids);
      assert ops == init + [op];
    }
  }

  lemma {:induction false} DeletedAreAbsent(b: Box, ops: seq<Op>, gone: set<string>)
    requires Proper(b)
    requires forall id :: id in gone ==> id !in Run(b, ops).store
    ensures Surviving(Run(b, ops).order, gone) == Run(b, ops).order
  {
    RunKeepsProper(b, ops);
    AllSurvive(Run(b, ops).order, gone);
  }

  lemma {:induction false} BatchedHolds(ops: seq<Op>)
    ensures forall op :: op in Batched(ops) <==> op in ops
  {
    OfRankHolds(ops, 0);
    OfRankHolds(ops, 1);
    OfRankHolds(ops, 2);
  }

  /** The display order agrees exactly if the arrivals come in turn. */
  lemma {:induction false} SameOrderIff(b: Box, ops: seq<Op>)
    requires Proper(b) && forall id :: StaysDeleted(ops, id)
    ensures Run(b, Batched(ops)).order == Run(b, ops).order <==> InTurn(b, ops)
  {
    var gone, ids := Gone(ops), Arrivals(b, ops);
    BatchedHolds(ops);
    forall id | id in gone ensures id !in Run(b, ops).store && id !in Run(b, Batched(ops)).store {
      assert StaysDeleted(ops, id);
      PresentByLastOp(b, ops, id);
      PresentByLastOp(b, Batched(ops), id);
      BatchedLastOp(ops, id);
    }
    DeletedAreAbsent(b, ops, gone);
    DeletedAreAbsent(b, Batched(ops), gone);
    OrderByFirstHeard(b, ops, gone, ids);
    OrderByFirstHeard(b, Batched(ops), gone, ids);
    SameArrivalOrder(b, ops);
    SameTail(Surviving(b.order, gone), FirstHeard(Batched(ops), ids), FirstHeard(ops, ids));
  }

  lemma {:induction false} SameTail(a: seq<string>, p: seq<string>, q: seq<string>)
    ensures a + p == a + q <==> p == q
  {
    assert (a + p)[|a|..] == p && (a + q)[|a|..] == q;
  }

  // ---------- the contents ----------

  lemma {:induction false} RunStoresContent(b: Box, ops: seq<Op>, id: string)
    requires id !in Gone(ops)
    ensures Before(Run(b, ops), id) == MergedContent(Before(b, id), ops, id)
    decreases |ops|
  {
    if ops != [] {
      var init, op := ops[..|ops| - 1], ops[|ops| - 1];
      assert op in ops && forall o :: o in init ==> o in ops;
      RunStoresContent(b, init, id);
      if IdOf(op) != id { BeforeUnaffected(Run(b, init), op, id); } else { ApplyStores(Run(b, init), op); }
    }
  }

  lemma {:induction false} ContentConcat(before: EmailItem, a: seq<Op>, c: seq<Op>, id: string)
    ensures MergedContent(before, a + c, id) == MergedContent(MergedContent(before, a, id), c, id)
    decreases |c|
  {
    if c == [] {
      assert a + c == a;
    } else {
      assert (a + c)[..|a + c| - 1] == a + c[..|c| - 1];
      ContentConcat(before, a, c[..|c| - 1], id);
    }
  }

  lemma {:induction false} ContentUnheard(before: EmailItem, ops: seq<Op>, id: string)
    requires !Heard(ops, id)
    ensures MergedContent(before, ops, id) == before
    decreases |ops|
  {
    if ops != [] { ContentUnheard(before, ops[..|ops| - 1], id); }
  }

  lemma {:induction false} ContentSinceAdd(before: EmailItem, ops: seq<Op>, id: string)
    requires Heard(OfRank(ops, 0), id)
    ensures MergedContent(before, ops, id) == MergedContent(LatestAdd(ops, id), SinceAdd(ops, id), id)
    ensures MergedContent(before, OfRank(ops, 0), id) == LatestAdd(ops, id)
    decreases |ops|
  {
    var init, op := ops[..|ops| - 1], ops[|ops| - 1];
    var a := OfRank(init, 0);
    assert (a + [op])[..|a|] == a;
    assert OfRank(ops, 0) == if op.Add? then a + [op] else a;
    if !(op.Add? && IdOf(op) == id) {
      HeardSnoc(a, op, id);
      ContentSinceAdd(before, init, id);
      var since := SinceAdd(init, id);
      assert (since + [op])[..|since|] == since;
    }
  }

  lemma {:induction false} ContentSnoc(before: EmailItem, ops: seq<Op>, op: Op, id: string)
    ensures MergedContent(before, ops + [op], id) ==
      if op.Delete? || IdOf(op) != id then MergedContent(before, ops, id)
      else Stored(MergedContent(before, ops, id), op)
  {
    assert (ops + [op])[..|ops|] == ops;
  }

  /** Without an add, changes alone are merged alike. */
  lemma {:induction false} ContentOfChanges(before: EmailItem, ops: seq<Op>, id: string)
    requires forall op :: op in ops && IdOf(op) == id ==> !op.Add?
    ensures MergedContent(before, OfRank(ops, 1), id) == MergedContent(before, ops, id)
    decreases |ops|
  {
    if ops != [] {
      var init, op := ops[..|ops| - 1], ops[|ops| - 1];
      assert ops == init + [op];
      ContentOfChanges(before, init, id);
      OfRankSnoc(init, op, 1);
      ContentSnoc(before, init, op, id);
      ContentSnoc(before, OfRank(init, 1), op, id);
    }
  }

  lemma {:induction false} SameContentIff(before: EmailItem, ops: seq<Op>, id: string)
    requires id !in Gone(ops)
    ensures MergedContent(before, Batched(ops), id) == MergedContent(before, ops, id) <==> ChangesSettle(ops, id)
  {
    var a, c, d := OfRank(ops, 0), OfRank(ops, 1), OfRank(ops, 2);
    ContentConcat(before, a + c, d, id);
    ContentConcat(before, a, c, id);
    NotDeleted(ops, id);
    ContentUnheard(MergedContent(before, a + c, id), d, id);
    if Heard(a, id) {
      ContentSinceAdd(before, ops, id);
    } else {
      ContentUnheard(before, a, id);
      HeardHolds(a, id);
      OfRankHolds(ops, 0);
      ContentOfChanges(before, ops, id);
    }
  }

  // ---------- the whole list ----------

  lemma {:induction false} SameStoreIff(b: Box, ops: seq<Op>)
    requires forall id :: StaysDeleted(ops, id)
    ensures Run(b, Batched(ops)).store == Run(b, ops).store <==> forall id :: ChangesSettle(ops, id)
  {
    var x, y := Run(b, Batched(ops)), Run(b, ops);
    BatchedMergeKeepsIDsIff(b, ops);
    BatchedHolds(ops);
    forall id
      ensures SamePresence(b, Batched(ops), ops, id) && (Before(x, id) == Before(y, id) <==> ChangesSettle(ops, id))
    {
      if id in Gone(ops) {
        assert StaysDeleted(ops, id);
        PresentByLastOp(b, ops, id);
      } else {
        RunStoresContent(b, ops, id);
        RunStoresContent(b, Batched(ops), id);
        SameContentIff(Before(b, id), ops, id);
      }
    }
    if forall id :: ChangesSettle(ops, id) {
      forall id | id in x.store ensures id in y.store && x.store[id] == y.store[id] {
        assert SamePresence(b, Batched(ops), ops, id) && ChangesSettle(ops, id);
      }
      forall id | id in y.store ensures id in x.store { assert SamePresence(b, Batched(ops), ops, id); }
      assert x.store == y.store;
    }
  }

  /** The batched merge leaves the folder as one operation after the other does exactly if
      every deleted message is last heard of in a delete, changes before a message's last
      add leave nothing behind, and new messages are added in the order they are heard of. */
  lemma {:induction false} BatchedMergeIsFaithfulIff(b: Box, ops: seq<Op>)
    requires Proper(b)
    ensures Run(b, Batched(ops)) == Run(b, ops) <==>
      (forall id :: StaysDeleted(ops, id)) && (forall id :: ChangesSettle(ops, id)) && InTurn(b, ops)
  {
    BatchedMergeKeepsIDsIff(b, ops);
    if forall id :: StaysDeleted(ops, id) {
      SameStoreIff(b, ops);
      SameOrderIff(b, ops);
    }
  }

  /** The same for a round of pages: one merge of what was collected leaves the list that
      merging page by page leaves exactly under these three conditions on the pages. */
  lemma {:induction false} CollectedRoundIsFaithfulIff(items: seq<EmailItem>, pages: seq<MailPage>)
    requires Distinct(IDs(items))
    ensures var ((a, c, d), ops) := (Collected(pages), AllOps(pages));
      Merged(items, a, c, d) == OneByOne(items, pages) <==>
      (forall id :: StaysDeleted(ops, id)) && (forall id :: ChangesSettle(ops, id)) && InTurn(BoxOf(items), ops)
  {
    var b, ops := BoxOf(items), AllOps(pages);
    BoxOfProper(items);
    CollectedIsBatched(pages);
    OneByOneRuns(items, pages);
    RunKeepsProper(b, ops);
    RunKeepsProper(b, Batched(ops));
    BoxOfItems(Run(b, ops));
    BoxOfItems(Run(b, Batched(ops)));
    BatchedMergeIsFaithfulIff(b, ops);
  }

  /** A change of a message the folder does not know, then a new message: one after the
      other they are listed in this order, from the batch the other way round. */
  lemma {:induction false} UnknownChangeSwaps(b: Box, x: EmailItem, y: EmailItem)
    requires x.serverID !in b.store && y.serverID !in b.store && x.serverID != y.serverID
    ensures Run(b, [Change(x), Add(y)]).order == b.order + [x.serverID, y.serverID]
    ensures Run(b, Batched([Change(x), Add(y)])).order == b.order + [y.serverID, x.serverID]
  {
    RunOfTwo(b, Change(x), Add(y));
    RunOfTwo(b, Add(y), Change(x));
    BatchOfTwo(x, y);
  }

  /** A change and then a new version of the same message: the batch shows the change's
      read mark, although the new version came after it. */
  lemma {:induction false} OldChangeShows(b: Box, x: EmailItem, y: EmailItem)
    requires x.serverID == y.serverID != "" && x.readPresent && x.read != y.read
    ensures var store := Run(b, [Change(x), Add(y)]).store;
      y.serverID in store && store[y.serverID].read == y.read
    ensures var store := Run(b, Batched([Change(x), Add(y)])).store;
      y.serverID in store && store[y.serverID].read == x.read
  {
    RunOfTwo(b, Change(x), Add(y));
    RunOfTwo(b, Add(y), Change(x));
    BatchOfTwo(x, y);
  }

  lemma {:induction false} RunOfTwo(b: Box, x: Op, y: Op)
    ensures Run(b, [x, y]) == Apply(Apply(b, x), y)
  {
    assert [x, y][..1] == [x] && [x][..0] == [];
    assert Run(b, [x]) == Apply(Run(b, []), x);
  }

  lemma {:induction false} BatchOfTwo(x: EmailItem, y: EmailItem)
    ensures Batched([Change(x), Add(y)]) == [Add(y), Change(x)]
  {
    assert [Change(x), Add(y)] == [Change(x)] + [Add(y)] && [Change(x)] == [] + [Change(x)];
    forall r: nat | r < 3
      ensures OfRank([Change(x), Add(y)], r) == (if r == 1 then [Change(x)] else []) + (if r == 0 then [Add(y)] else [])
    {
      OfRankSnoc([], Change(x), r);
      OfRankSnoc([Change(x)], Add(y), r);
    }
  }
}
