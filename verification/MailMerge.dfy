/** Merging a mail sync round: many pages are collected and applied in one batch. */
module MailMerge {
  import opened Ids
  import opened Mail

  /** The folder while it is merged: display order and the item of each identifier. */
  datatype Box = Box(order: seq<string>, store: map<string, EmailItem>)

  datatype Op = Add(item: EmailItem) | Change(item: EmailItem) | Delete(id: string)

  datatype MailPage = MailPage(added: seq<EmailItem>, changed: seq<EmailItem>, deleted: seq<string>,
          moreAvailable: bool)

  function IdOf(op: Op): string {
    match op case Add(it) => it.serverID case Change(it) => it.serverID case Delete(id) => id
  }

  function Rank(op: Op): nat { match op case Add(_) => 0 case Change(_) => 1 case Delete(_) => 2 }

  // ---------- one operation at a time ----------

  function Put(b: Box, id: string, item: EmailItem): Box {
    Box(if id in b.store then b.order else b.order + [id], b.store[id := item])
  }

  function Without(order: seq<string>, id: string): seq<string>
    decreases |order|
  {
    if order == [] then []
    else Without(order[..|order| - 1], id) + (if order[|order| - 1] == id then [] else [order[|order| - 1]])
  }

  function Drop(b: Box, id: string): Box { Box(Without(b.order, id), b.store - {id}) }

  function Before(b: Box, id: string): EmailItem { if id in b.store then b.store[id] else ZERO_ITEM }

  function Apply(b: Box, op: Op): Box {
    match op
    case Add(it) => Put(b, it.serverID, it)
    case Change(it) => Put(b, it.serverID, MergeEmailChange(Before(b, it.serverID), it))
    case Delete(id) => Drop(b, id)
  }

  function Run(b: Box, ops: seq<Op>): Box
    decreases |ops|
  {
    if ops == [] then b else Apply(Run(b, ops[..|ops| - 1]), ops[|ops| - 1])
  }

  // ---------- the batched order ----------

  function OfRank(ops: seq<Op>, rank: nat): seq<Op>
    decreases |ops|
  {
    if ops == [] then []
    else OfRank(ops[..|ops| - 1], rank) + (if Rank(ops[|ops| - 1]) == rank then [ops[|ops| - 1]] else [])
  }

  /** All adds, then all changes, then all deletes, each in arrival order. */
  function Batched(ops: seq<Op>): seq<Op> { OfRank(ops, 0) + OfRank(ops, 1) + OfRank(ops, 2) }

  ghost predicate Known(b: Box, earlier: seq<Op>, id: string) {
    id in b.store || exists op :: op in earlier && op.Add? && op.item.serverID == id
  }

  /** For each identifier adds come before changes and changes before deletes, and
      changes name items that are there. */
  ghost predicate InOrder(b: Box, ops: seq<Op>) {
    && (forall i, j :: 0 <= i < j < |ops| && IdOf(ops[i]) == IdOf(ops[j]) ==> Rank(ops[i]) <= Rank(ops[j]))
    && (forall i :: 0 <= i < |ops| && ops[i].Change? ==> Known(b, ops[..i], IdOf(ops[i])))
  }

  lemma {:induction false} RunConcat(b: Box, x: seq<Op>, y: seq<Op>)
    ensures Run(b, x + y) == Run(Run(b, x), y)
    decreases |y|
  {
    if y == [] {
      assert x + y == x;
    } else {
      assert (x + y)[..|x + y| - 1] == x + y[..|y| - 1];
      RunConcat(b, x, y[..|y| - 1]);
    }
  }

  // ---------- swapping neighbours ----------

  lemma {:induction false} WithoutAppended(order: seq<string>, id: string, other: string)
    ensures Without(order + [other], id) == Without(order, id) + if other == id then [] else [other]
  {
    assert (order + [other])[..|order|] == order;
  }

  lemma {:induction false} PutPut(b: Box, i: string, v: EmailItem, j: string, w: EmailItem)
    requires i != j && i in b.store
    ensures Put(Put(b, i, v), j, w) == Put(Put(b, j, w), i, v)
  {
    assert b.store[i := v][j := w] == b.store[j := w][i := v];
  }

  lemma {:induction false} PutDrop(b: Box, i: string, v: EmailItem, j: string)
    requires i != j
    ensures Drop(Put(b, i, v), j) == Put(Drop(b, j), i, v)
  {
    WithoutAppended(b.order, j, i);
    assert b.store[i := v] - {j} == (b.store - {j})[i := v];
  }

  lemma {:induction false} DropDrop(b: Box, i: string, j: string)
    ensures Drop(Drop(b, i), j) == Drop(Drop(b, j), i)
  {
    WithoutTwice(b.order, i, j);
    assert (b.store - {i}) - {j} == (b.store - {j}) - {i};
  }

  /** What an add or change stores, given what was there. */
  function Stored(before: EmailItem, op: Op): EmailItem
    requires !op.Delete?
  {
    if op.Add? then op.item else MergeEmailChange(before, op.item)
  }

  lemma {:induction false} ApplyStores(b: Box, op: Op)
    requires !op.Delete?
    ensures Apply(b, op) == Put(b, IdOf(op), Stored(Before(b, IdOf(op)), op))
  {
  }

  lemma {:induction false} BeforeUnaffected(b: Box, x: Op, id: string)
    requires IdOf(x) != id
    ensures Before(Apply(b, x), id) == Before(b, id)
  {
    if !x.Delete? { ApplyStores(b, x); }
  }

  /** Operations on different identifiers commute unless both would append. */
  lemma {:induction false} Swap(b: Box, x: Op, y: Op)
    requires IdOf(x) != IdOf(y)
    requires x.Delete? || y.Delete? || IdOf(x) in b.store
    ensures Apply(Apply(b, x), y) == Apply(Apply(b, y), x)
  {
    var i, j := IdOf(x), IdOf(y);
    BeforeUnaffected(b, x, j);
    BeforeUnaffected(b, y, i);
    if x.Delete? {
      if y.Delete? { DropDrop(b, i, j); } else { SwapDelete(b, y, i); }
    } else if y.Delete? {
      SwapDelete(b, x, j);
    } else {
      ApplyStores(b, x);
      ApplyStores(b, y);
      ApplyStores(Apply(b, x), y);
      ApplyStores(Apply(b, y), x);
      PutPut(b, i, Stored(Before(b, i), x), j, Stored(Before(b, j), y));
    }
  }

  lemma {:induction false} SwapDelete(b: Box, x: Op, id: string)
    requires !x.Delete? && IdOf(x) != id
    ensures Apply(Drop(b, id), x) == Drop(Apply(b, x), id)
  {
    ApplyStores(b, x);
    ApplyStores(Drop(b, id), x);
    PutDrop(b, IdOf(x), Stored(Before(b, IdOf(x)), x), id);
  }

  lemma {:induction false} WithoutTwice(order: seq<string>, x: string, y: string)
    ensures Without(Without(order, x), y) == Without(Without(order, y), x)
    decreases |order|
  {
    if order != [] {
      var init, last := order[..|order| - 1], order[|order| - 1];
      WithoutTwice(init, x, y);
      WithoutAppended(Without(init, x), y, last);
      WithoutAppended(Without(init, y), x, last);
      assert Without(init, x) + [] == Without(init, x) && Without(init, y) + [] == Without(init, y);
    }
  }

  lemma {:induction false} StoreOnlyGrows(b: Box, ops: seq<Op>, id: string)
    requires id in b.store && forall op :: op in ops ==> !op.Delete?
    ensures id in Run(b, ops).store
    decreases |ops|
  {
    if ops != [] {
      StoreOnlyGrows(b, ops[..|ops| - 1], id);
      assert ops[|ops| - 1] in ops;
    }
  }

  /** An operation can be moved in front of operations on other identifiers, when each
      of those is a delete or changes something already there. */
  lemma {:induction false} MoveBack(b: Box, ops: seq<Op>, y: Op)
    requires forall op :: op in ops ==> IdOf(op) != IdOf(y)
    requires forall op :: op in ops ==> op.Delete? || (op.Change? && IdOf(op) in b.store)
    requires forall i, j :: 0 <= i < j < |ops| && ops[i].Delete? ==> ops[j].Delete?
    ensures Apply(Run(b, ops), y) == Run(Apply(b, y), ops)
    decreases |ops|
  {
    if ops != [] {
      var init, x := ops[..|ops| - 1], ops[|ops| - 1];
      assert x in ops;
      MoveBack(b, init, y);
      if x.Change? {
        forall op | op in init ensures !op.Delete? {
          var i :| 0 <= i < |init| && init[i] == op;
          assert ops[i] == op;
        }
        StoreOnlyGrows(b, init, IdOf(x));
      }
      Swap(Run(b, init), x, y);
    }
  }

  lemma {:induction false} OfRankHolds(ops: seq<Op>, rank: nat)
    ensures forall op :: op in OfRank(ops, rank) <==> op in ops && Rank(op) == rank
    decreases |ops|
  {
    if ops != [] {
      OfRankHolds(ops[..|ops| - 1], rank);
      assert ops == ops[..|ops| - 1] + [ops[|ops| - 1]];
    }
  }

  lemma {:induction false} AddedIsStored(b: Box, adds: seq<Op>, id: string)
    requires forall op :: op in adds ==> op.Add?
    requires id in b.store || exists op :: op in adds && IdOf(op) == id
    ensures id in Run(b, adds).store
    decreases |adds|
  {
    if adds != [] {
      var init, x := adds[..|adds| - 1], adds[|adds| - 1];
      assert adds == init + [x] && x in adds;
      if IdOf(x) != id { AddedIsStored(b, init, id); }
    }
  }

  lemma {:induction false} RunBatched(b: Box, ops: seq<Op>)
    ensures Run(b, Batched(ops)) == Run(Run(Run(b, OfRank(ops, 0)), OfRank(ops, 1)), OfRank(ops, 2))
  {
    RunConcat(b, OfRank(ops, 0) + OfRank(ops, 1), OfRank(ops, 2));
    RunConcat(b, OfRank(ops, 0), OfRank(ops, 1));
  }

  lemma {:induction false} RunSnoc(b: Box, ops: seq<Op>, op: Op)
    ensures Run(b, ops + [op]) == Apply(Run(b, ops), op)
  {
    assert (ops + [op])[..|ops|] == ops;
  }

  lemma {:induction false} OfRankSnoc(ops: seq<Op>, y: Op, rank: nat)
    ensures OfRank(ops + [y], rank) == if Rank(y) == rank then OfRank(ops, rank) + [y] else OfRank(ops, rank)
  {
    assert (ops + [y])[..|ops|] == ops;
  }

  lemma {:induction false} BatchedStep(b: Box, init: seq<Op>, y: Op)
    requires InOrder(b, init)
    requires forall op :: op in init && Rank(op) > Rank(y) ==> IdOf(op) != IdOf(y)
    ensures Run(b, Batched(init + [y])) == Apply(Run(b, Batched(init)), y)
  {
    RunBatched(b, init);
    RunBatched(b, init + [y]);
    OfRankSnoc(init, y, 0);
    OfRankSnoc(init, y, 1);
    OfRankSnoc(init, y, 2);
    var a, c, d := OfRank(init, 0), OfRank(init, 1), OfRank(init, 2);
    match y
    case Delete(_) => RunSnoc(Run(Run(b, a), c), d, y);
    case Change(_) => MoveChangeBack(Run(Run(b, a), c), init, y); RunSnoc(Run(b, a), c, y);
    case Add(_) => MoveAddBack(b, init, y); RunSnoc(b, a, y);
  }

  /** The batched merge equals applying the operations one at a time, items and display
      order alike, whenever no identifier sees them out of order. */
  lemma {:induction false} BatchedMergeIsFaithful(b: Box, ops: seq<Op>)
    requires InOrder(b, ops)
    ensures Run(b, Batched(ops)) == Run(b, ops)
    decreases |ops|
  {
    if ops != [] {
      var init, y := ops[..|ops| - 1], ops[|ops| - 1];
      InOrderInit(b, ops);
      LastIsLate(b, ops);
      BatchedMergeIsFaithful(b, init);
      BatchedStep(b, init, y);
      assert ops == init + [y];
    }
  }

  lemma {:induction false} MoveChangeBack(b: Box, init: seq<Op>, y: Op)
    requires forall op :: op in init && Rank(op) > 1 ==> IdOf(op) != IdOf(y)
    ensures Apply(Run(b, OfRank(init, 2)), y) == Run(Apply(b, y), OfRank(init, 2))
  {
    var d := OfRank(init, 2);
    OfRankHolds(init, 2);
    assert forall i :: 0 <= i < |d| ==> d[i] in d;
    MoveBack(b, d, y);
  }

  lemma {:induction false} InOrderInit(b: Box, ops: seq<Op>)
    requires InOrder(b, ops) && ops != []
    ensures InOrder(b, ops[..|ops| - 1])
  {
    var init := ops[..|ops| - 1];
    forall i | 0 <= i < |init| && init[i].Change? ensures Known(b, init[..i], IdOf(init[i])) {
      assert init[..i] == ops[..i];
    }
  }

  /** Earlier operations of a greater rank than the last one concern other identifiers. */
  lemma {:induction false} LastIsLate(b: Box, ops: seq<Op>)
    requires InOrder(b, ops) && ops != []
    ensures forall op :: op in ops[..|ops| - 1] && Rank(op) > Rank(ops[|ops| - 1]) ==> IdOf(op) != IdOf(ops[|ops| - 1])
  {
    forall op | op in ops[..|ops| - 1] && Rank(op) > Rank(ops[|ops| - 1]) ensures IdOf(op) != IdOf(ops[|ops| - 1]) {
      var i :| 0 <= i < |ops| - 1 && ops[i] == op;
    }
  }

  lemma {:induction false} MoveAddBack(b: Box, init: seq<Op>, y: Op)
    requires InOrder(b, init) && y.Add?
    requires forall op :: op in init && Rank(op) > 0 ==> IdOf(op) != IdOf(y)
    ensures var a, c, d := OfRank(init, 0), OfRank(init, 1), OfRank(init, 2);
      Apply(Run(Run(Run(b, a), c), d), y) == Run(Run(Apply(Run(b, a), y), c), d)
  {
    var a, c, d := OfRank(init, 0), OfRank(init, 1), OfRank(init, 2);
    OfRankHolds(init, 0);
    OfRankHolds(init, 1);
    OfRankHolds(init, 2);
    forall op | op in c ensures op.Change? && IdOf(op) in Run(b, a).store {
      var i :| 0 <= i < |init| && init[i] == op;
      assert Known(b, init[..i], IdOf(op));
      if IdOf(op) !in b.store {
        var e :| e in init[..i] && e.Add? && e.item.serverID == IdOf(op);
        assert e in init && e in a;
      }
      AddedIsStored(b, a, IdOf(op));
    }
    assert forall i :: 0 <= i < |c| ==> c[i] in c;
    assert forall i :: 0 <= i < |d| ==> d[i] in d;
    MoveBack(Run(b, a), c, y);
    MoveBack(Run(Run(b, a), c), d, y);
  }

  // ---------- pages ----------

  function Adds(items: seq<EmailItem>): seq<Op>
    decreases |items|
  {
    if items == [] then [] else Adds(items[..|items| - 1]) + [Add(items[|items| - 1])]
  }

  function Changes(items: seq<EmailItem>): seq<Op>
    decreases |items|
  {
    if items == [] then [] else Changes(items[..|items| - 1]) + [Change(items[|items| - 1])]
  }

  function Deletes(ids: seq<string>): seq<Op>
    decreases |ids|
  {
    if ids == [] then [] else Deletes(ids[..|ids| - 1]) + [Delete(ids[|ids| - 1])]
  }

  function Ops(added: seq<EmailItem>, changed: seq<EmailItem>, deleted: seq<string>): seq<Op> {
    Adds(added) + Changes(changed) + Deletes(deleted)
  }

  function PageOps(p: MailPage): seq<Op> { Ops(p.added, p.changed, p.deleted) }

  /** The operations of a round in the order the server sent them. */
  function AllOps(pages: seq<MailPage>): seq<Op>
    decreases |pages|
  {
    if pages == [] then [] else AllOps(pages[..|pages| - 1]) + PageOps(pages[|pages| - 1])
  }

  function Collected(pages: seq<MailPage>): (seq<EmailItem>, seq<EmailItem>, seq<string>)
    decreases |pages|
  {
    if pages == [] then ([], [], [])
    else
      var (a, c, d) := Collected(pages[..|pages| - 1]);
      var p := pages[|pages| - 1];
      (a + p.added, c + p.changed, d + p.deleted)
  }

  function BoxOf(items: seq<EmailItem>): Box
    decreases |items|
  {
    if items == [] then Box([], map[])
    else
      var b, it := BoxOf(items[..|items| - 1]), items[|items| - 1];
      Box(b.order + [it.serverID], b.store[it.serverID := it])
  }

  function Listed(order: seq<string>, store: map<string, EmailItem>): seq<EmailItem>
    decreases |order|
  {
    if order == [] then []
    else
      var id := order[|order| - 1];
      Listed(order[..|order| - 1], store) + (if id in store then [store[id]] else [])
  }

  function Items(b: Box): seq<EmailItem> { Listed(b.order, b.store) }

  /** The folder after one merge of collected lists. */
  function Merged(items: seq<EmailItem>, added: seq<EmailItem>, changed: seq<EmailItem>,
          deleted: seq<string>): seq<EmailItem>
  {
    Items(Run(BoxOf(items), Ops(added, changed, deleted)))
  }

  /** The folder when every page is merged on its own as it arrives. */
  function OneByOne(items: seq<EmailItem>, pages: seq<MailPage>): seq<EmailItem>
    decreases |pages|
  {
    if pages == [] then items
    else
      var p := pages[|pages| - 1];
      Merged(OneByOne(items, pages[..|pages| - 1]), p.added, p.changed, p.deleted)
  }

  ghost predicate Distinct(ids: seq<string>) { forall i, j :: 0 <= i < j < |ids| ==> ids[i] != ids[j] }

  function IDs(items: seq<EmailItem>): seq<string>
    decreases |items|
  {
    if items == [] then [] else IDs(items[..|items| - 1]) + [items[|items| - 1].serverID]
  }

  ghost predicate Proper(b: Box) {
    && Distinct(b.order) && (forall id :: id in b.order <==> id in b.store)
    && (forall id :: id in b.store ==> b.store[id].serverID == id)
  }

  lemma {:induction false} WithoutHolds(order: seq<string>, id: string)
    ensures forall x :: x in Without(order, id) <==> x in order && x != id
    ensures Distinct(order) ==> Distinct(Without(order, id))
    decreases |order|
  {
    if order != [] {
      var init, last := order[..|order| - 1], order[|order| - 1];
      WithoutHolds(init, id);
      assert order == init + [last];
      assert forall i :: 0 <= i < |Without(init, id)| ==> Without(init, id)[i] in init;
    }
  }

  lemma {:induction false} ApplyKeepsProper(b: Box, op: Op)
    requires Proper(b)
    ensures Proper(Apply(b, op))
  {
    if op.Delete? {
      WithoutHolds(b.order, op.id);
    } else {
      ApplyStores(b, op);
      assert Stored(Before(b, IdOf(op)), op).serverID == IdOf(op);
    }
  }

  lemma {:induction false} RunKeepsProper(b: Box, ops: seq<Op>)
    requires Proper(b)
    ensures Proper(Run(b, ops))
    decreases |ops|
  {
    if ops != [] {
      RunKeepsProper(b, ops[..|ops| - 1]);
      ApplyKeepsProper(Run(b, ops[..|ops| - 1]), ops[|ops| - 1]);
    }
  }

  lemma {:induction false} DistinctSnoc(ids: seq<string>, id: string)
    requires Distinct(ids + [id])
    ensures Distinct(ids) && id !in ids
  {
    var all := ids + [id];
    forall i, j | 0 <= i < j < |ids| ensures ids[i] != ids[j] { assert all[i] != all[j]; }
    forall i | 0 <= i < |ids| ensures ids[i] != id { assert all[i] != all[|ids|]; }
  }

  lemma {:induction false} BoxOfSnoc(items: seq<EmailItem>, it: EmailItem)
    ensures BoxOf(items + [it]) == Box(BoxOf(items).order + [it.serverID], BoxOf(items).store[it.serverID := it])
  {
    assert (items + [it])[..|items|] == items;
  }

  lemma {:induction false} ListedSnoc(order: seq<string>, store: map<string, EmailItem>, id: string)
    ensures Listed(order + [id], store) == Listed(order, store) + if id in store then [store[id]] else []
  {
    assert (order + [id])[..|order|] == order;
  }

  function Restricted(store: map<string, EmailItem>, order: seq<string>): map<string, EmailItem> {
    map id | id in store && id in order :: store[id]
  }

  lemma {:induction false} ListedRebuilds(order: seq<string>, store: map<string, EmailItem>)
    requires forall id :: id in order ==> id in store && store[id].serverID == id
    ensures BoxOf(Listed(order, store)) == Box(order, Restricted(store, order))
    decreases |order|
  {
    if order != [] {
      var init, id := order[..|order| - 1], order[|order| - 1];
      assert order == init + [id] && id in order;
      ListedRebuilds(init, store);
      ListedSnoc(init, store, id);
      BoxOfSnoc(Listed(init, store), store[id]);
      RestrictedSnoc(store, init, id);
    }
  }

  lemma {:induction false} RestrictedSnoc(store: map<string, EmailItem>, order: seq<string>, id: string)
    requires id in store
    ensures Restricted(store, order + [id]) == Restricted(store, order)[id := store[id]]
  {
  }

  lemma {:induction false} BoxOfItems(b: Box)
    requires Proper(b)
    ensures BoxOf(Items(b)) == b
  {
    ListedRebuilds(b.order, b.store);
    assert Restricted(b.store, b.order) == b.store;
  }

  lemma {:induction false} BoxOfProper(items: seq<EmailItem>)
    requires Distinct(IDs(items))
    ensures Proper(BoxOf(items)) && BoxOf(items).order == IDs(items) && Items(BoxOf(items)) == items
    decreases |items|
  {
    if items != [] {
      var init, it := items[..|items| - 1], items[|items| - 1];
      assert items == init + [it];
      var b := BoxOf(init);
      DistinctSnoc(IDs(init), it.serverID);
      BoxOfProper(init);
      ListedUnaffected(b.order, b.store, it.serverID, it);
      ListedSnoc(b.order, b.store[it.serverID := it], it.serverID);
    }
  }

  lemma {:induction false} ListedUnaffected(order: seq<string>, store: map<string, EmailItem>, id: string,
          it: EmailItem)
    requires id !in order
    ensures Listed(order, store[id := it]) == Listed(order, store)
    decreases |order|
  {
    if order != [] {
      assert order[|order| - 1] in order;
      ListedUnaffected(order[..|order| - 1], store, id, it);
    }
  }

  lemma {:induction false} OneByOneRuns(items: seq<EmailItem>, pages: seq<MailPage>)
    requires Distinct(IDs(items))
    ensures OneByOne(items, pages) == Items(Run(BoxOf(items), AllOps(pages)))
    decreases |pages|
  {
    BoxOfProper(items);
    if pages != [] {
      var init, p := pages[..|pages| - 1], pages[|pages| - 1];
      OneByOneRuns(items, init);
      RunKeepsProper(BoxOf(items), AllOps(init));
      BoxOfItems(Run(BoxOf(items), AllOps(init)));
      RunConcat(BoxOf(items), AllOps(init), PageOps(p));
    }
  }

  lemma {:induction false} OpsConcat(x: seq<EmailItem>, y: seq<EmailItem>, d: seq<string>, e: seq<string>)
    ensures Adds(x + y) == Adds(x) + Adds(y) && Changes(x + y) == Changes(x) + Changes(y)
    ensures Deletes(d + e) == Deletes(d) + Deletes(e)
    decreases |y| + |e|
  {
    if y == [] {
      assert x + y == x;
    } else {
      assert (x + y)[..|x + y| - 1] == x + y[..|y| - 1];
      OpsConcat(x, y[..|y| - 1], d, e);
    }
    if e == [] {
      assert d + e == d;
    } else {
      assert (d + e)[..|d + e| - 1] == d + e[..|e| - 1];
      OpsConcat(x, [], d, e[..|e| - 1]);
    }
  }

  lemma {:induction false} OfRankConcat(x: seq<Op>, y: seq<Op>, rank: nat)
    ensures OfRank(x + y, rank) == OfRank(x, rank) + OfRank(y, rank)
    decreases |y|
  {
    if y == [] {
      assert x + y == x;
    } else {
      assert (x + y)[..|x + y| - 1] == x + y[..|y| - 1];
      OfRankConcat(x, y[..|y| - 1], rank);
    }
  }

  lemma {:induction false} OfRankOfLists(added: seq<EmailItem>, deleted: seq<string>)
    ensures OfRank(Adds(added), 0) == Adds(added) && OfRank(Adds(added), 1) == [] && OfRank(Adds(added), 2) == []
    ensures OfRank(Changes(added), 1) == Changes(added) && OfRank(Changes(added), 0) == []
      && OfRank(Changes(added), 2) == []
    ensures OfRank(Deletes(deleted), 2) == Deletes(deleted) && OfRank(Deletes(deleted), 0) == []
      && OfRank(Deletes(deleted), 1) == []
    decreases |added| + |deleted|
  {
    if added != [] { OfRankOfLists(added[..|added| - 1], deleted); }
    if deleted != [] { OfRankOfLists([], deleted[..|deleted| - 1]); }
  }

  lemma {:induction false} PageOfRank(p: MailPage)
    ensures OfRank(PageOps(p), 0) == Adds(p.added)
    ensures OfRank(PageOps(p), 1) == Changes(p.changed)
    ensures OfRank(PageOps(p), 2) == Deletes(p.deleted)
  {
    forall r: nat | r < 3
      ensures OfRank(PageOps(p), r) == OfRank(Adds(p.added), r) + OfRank(Changes(p.changed), r) +
        OfRank(Deletes(p.deleted), r)
    {
      OfRankConcat(Adds(p.added) + Changes(p.changed), Deletes(p.deleted), r);
      OfRankConcat(Adds(p.added), Changes(p.changed), r);
    }
    OfRankOfLists(p.added, p.deleted);
    OfRankOfLists(p.changed, p.deleted);
  }

  lemma {:induction false} CollectedIsBatched(pages: seq<MailPage>)
    ensures var (a, c, d) := Collected(pages);
      && OfRank(AllOps(pages), 0) == Adds(a)
      && OfRank(AllOps(pages), 1) == Changes(c)
      && OfRank(AllOps(pages), 2) == Deletes(d)
    decreases |pages|
  {
    if pages != [] {
      var init, p := pages[..|pages| - 1], pages[|pages| - 1];
      var (a, c, d) := Collected(init);
      CollectedIsBatched(init);
      PageOfRank(p);
      OfRankConcat(AllOps(init), PageOps(p), 0);
      OfRankConcat(AllOps(init), PageOps(p), 1);
      OfRankConcat(AllOps(init), PageOps(p), 2);
      OpsConcat(a, p.added, d, p.deleted);
      OpsConcat(c, p.changed, d, p.deleted);
    }
  }

  /** A round collected over many pages leaves the same items in the same order as
      merging each page when it arrives. */
  lemma {:induction false} CollectedRoundIsFaithful(items: seq<EmailItem>, pages: seq<MailPage>)
    requires Distinct(IDs(items)) && InOrder(BoxOf(items), AllOps(pages))
    ensures var (a, c, d) := Collected(pages); Merged(items, a, c, d) == OneByOne(items, pages)
  {
    CollectedIsBatched(pages);
    BatchedMergeIsFaithful(BoxOf(items), AllOps(pages));
    OneByOneRuns(items, pages);
  }

  lemma {:induction false} ListedIDs(order: seq<string>, store: map<string, EmailItem>)
    requires forall id :: id in order ==> id in store && store[id].serverID == id
    ensures IDs(Listed(order, store)) == order
    decreases |order|
  {
    if order != [] {
      var init, id := order[..|order| - 1], order[|order| - 1];
      assert order == init + [id] && id in order;
      ListedIDs(init, store);
      assert (Listed(init, store) + [store[id]])[..|Listed(init, store)|] == Listed(init, store);
    }
  }

  /** A merge never lists a message twice, whatever the server sent. */
  lemma {:induction false} MergedStaysDistinct(items: seq<EmailItem>, added: seq<EmailItem>, changed: seq<EmailItem>,
          deleted: seq<string>)
    requires Distinct(IDs(items))
    ensures Distinct(IDs(Merged(items, added, changed, deleted)))
  {
    BoxOfProper(items);
    var b := Run(BoxOf(items), Ops(added, changed, deleted));
    RunKeepsProper(BoxOf(items), Ops(added, changed, deleted));
    ListedIDs(b.order, b.store);
  }

  // ---------- what the batched merge gets wrong ----------

  function LastOp(ops: seq<Op>, id: string): Option<Op>
    decreases |ops|
  {
    if ops == [] then None
    else if IdOf(ops[|ops| - 1]) == id then Some(ops[|ops| - 1]) else LastOp(ops[..|ops| - 1], id)
  }

  lemma {:induction false} PresentByLastOp(b: Box, ops: seq<Op>, id: string)
    ensures id in Run(b, ops).store <==>
      match LastOp(ops, id) case None => id in b.store case Some(op) => !op.Delete?
    decreases |ops|
  {
    if ops != [] {
      PresentByLastOp(b, ops[..|ops| - 1], id);
      if !ops[|ops| - 1].Delete? { ApplyStores(Run(b, ops[..|ops| - 1]), ops[|ops| - 1]); }
    }
  }

  lemma {:induction false} LastOpConcat(x: seq<Op>, y: seq<Op>, id: string)
    ensures LastOp(x + y, id) == if LastOp(y, id).Some? then LastOp(y, id) else LastOp(x, id)
    decreases |y|
  {
    if y == [] {
      assert x + y == x;
    } else {
      assert (x + y)[..|x + y| - 1] == x + y[..|y| - 1];
      LastOpConcat(x, y[..|y| - 1], id);
    }
  }

  lemma {:induction false} LastOpHolds(ops: seq<Op>, id: string)
    ensures LastOp(ops, id).Some? <==> exists op :: op in ops && IdOf(op) == id
    ensures LastOp(ops, id).Some? ==> LastOp(ops, id).value in ops && IdOf(LastOp(ops, id).value) == id
    decreases |ops|
  {
    if ops != [] {
      LastOpHolds(ops[..|ops| - 1], id);
      assert ops == ops[..|ops| - 1] + [ops[|ops| - 1]];
    }
  }

  lemma {:induction false} BatchedLastOp(ops: seq<Op>, id: string)
    ensures var last := LastOp(Batched(ops), id);
      && (last.Some? <==> LastOp(ops, id).Some?)
      && (last.Some? && last.value.Delete? <==> Delete(id) in ops)
  {
    var a, c, d := OfRank(ops, 0), OfRank(ops, 1), OfRank(ops, 2);
    LastOpConcat(a + c, d, id);
    LastOpConcat(a, c, id);
    LastOpHolds(ops, id);
    LastOpHolds(a, id);
    LastOpHolds(c, id);
    LastOpHolds(d, id);
    OfRankHolds(ops, 0);
    OfRankHolds(ops, 1);
    OfRankHolds(ops, 2);
    if Delete(id) in ops { assert Delete(id) in d; }
    if op :| op in ops && IdOf(op) == id { assert op in a || op in c || op in d; }
  }

  ghost predicate SamePresence(b: Box, x: seq<Op>, y: seq<Op>, id: string) {
    id in Run(b, x).store <==> id in Run(b, y).store
  }

  /** No add or change of a message follows its delete. */
  ghost predicate StaysDeleted(ops: seq<Op>, id: string) {
    Delete(id) in ops ==> LastOp(ops, id) == Some(Delete(id))
  }

  /** For any round at all: the batched merge keeps the right set of messages exactly
      when every deleted message is last heard of in a delete.  A message that comes back
      after its delete within one round is lost. */
  lemma {:induction false} BatchedMergeKeepsIDsIff(b: Box, ops: seq<Op>)
    ensures (forall id :: SamePresence(b, Batched(ops), ops, id)) <==> (forall id :: StaysDeleted(ops, id))
  {
    forall id ensures SamePresence(b, Batched(ops), ops, id) <==> StaysDeleted(ops, id) {
      PresentByLastOp(b, ops, id);
      PresentByLastOp(b, Batched(ops), id);
      BatchedLastOp(ops, id);
      LastOpHolds(ops, id);
    }
    if forall id :: SamePresence(b, Batched(ops), ops, id) {
      forall id ensures StaysDeleted(ops, id) { assert SamePresence(b, Batched(ops), ops, id); }
    }
    if forall id :: StaysDeleted(ops, id) {
      forall id ensures SamePresence(b, Batched(ops), ops, id) { assert StaysDeleted(ops, id); }
    }
  }

  // ---------- cache invalidation ----------

  function ChangedIDs(b: Box, changed: seq<EmailItem>): seq<string>
    decreases |changed|
  {
    if changed == [] then []
    else
      var init, it := changed[..|changed| - 1], changed[|changed| - 1];
      var now := Run(b, Changes(init));
      var before := Before(now, it.serverID);
      ChangedIDs(b, init) + if MIMEContentEqual(before, MergeEmailChange(before, it)) then [] else [it.serverID]
  }

  /** The identifiers whose cached renderings syncMailOnce throws away. */
  function Invalidated(b: Box, added: seq<EmailItem>, changed: seq<EmailItem>, deleted: seq<string>): seq<string> {
    IDs(added) + ChangedIDs(Run(b, Adds(added)), changed) + deleted
  }

  lemma {:induction false} AddsTouch(b: Box, added: seq<EmailItem>, id: string)
    requires id !in IDs(added)
    ensures id in Run(b, Adds(added)).store <==> id in b.store
    ensures id in b.store ==> Run(b, Adds(added)).store[id] == b.store[id]
    decreases |added|
  {
    if added != [] {
      assert IDs(added) == IDs(added[..|added| - 1]) + [added[|added| - 1].serverID];
      AddsTouch(b, added[..|added| - 1], id);
    }
  }

  lemma {:induction false} ChangesTouch(b: Box, changed: seq<EmailItem>, id: string)
    requires id !in ChangedIDs(b, changed)
    ensures MIMEContentEqual(Before(b, id), Before(Run(b, Changes(changed)), id))
    ensures id != "" && Proper(b) && id in Run(b, Changes(changed)).store ==> id in b.store
    decreases |changed|
  {
    if changed != [] {
      var init, it := changed[..|changed| - 1], changed[|changed| - 1];
      ChangesTouch(b, init, id);
      var now := Run(b, Changes(init));
      ApplyStores(now, Change(it));
      if Proper(b) { RunKeepsProper(b, Changes(init)); }
    }
  }

  lemma {:induction false} DeletesTouch(b: Box, deleted: seq<string>, id: string)
    requires id !in deleted
    ensures id in Run(b, Deletes(deleted)).store <==> id in b.store
    ensures id in b.store ==> Run(b, Deletes(deleted)).store[id] == b.store[id]
    decreases |deleted|
  {
    if deleted != [] {
      assert deleted == deleted[..|deleted| - 1] + [deleted[|deleted| - 1]];
      DeletesTouch(b, deleted[..|deleted| - 1], id);
    }
  }

  /** Every message that appears, disappears or reads differently after a merge is in
      the invalidation list. */
  lemma {:induction false} InvalidationCoversEveryChange(b: Box, added: seq<EmailItem>, changed: seq<EmailItem>,
          deleted: seq<string>, id: string)
    requires Proper(b) && id != "" && id !in Invalidated(b, added, changed, deleted)
    ensures var b' := Run(b, Ops(added, changed, deleted));
      (id in b.store <==> id in b'.store) && (id in b.store ==> MIMEContentEqual(b.store[id], b'.store[id]))
  {
    var b1 := Run(b, Adds(added));
    var b2 := Run(b1, Changes(changed));
    RunConcat(b, Adds(added) + Changes(changed), Deletes(deleted));
    RunConcat(b, Adds(added), Changes(changed));
    AddsTouch(b, added, id);
    RunKeepsProper(b, Adds(added));
    ChangesTouch(b1, changed, id);
    DeletesTouch(b2, deleted, id);
    if id in b1.store { ChangesKeep(b1, changed, id); }
  }

  lemma {:induction false} ChangesKeep(b: Box, changed: seq<EmailItem>, id: string)
    requires id in b.store
    ensures id in Run(b, Changes(changed)).store
    decreases |changed|
  {
    if changed != [] {
      ChangesKeep(b, changed[..|changed| - 1], id);
      ApplyStores(Run(b, Changes(changed[..|changed| - 1])), Change(changed[|changed| - 1]));
    }
  }
}
