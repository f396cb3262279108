/** What the names of folders are: the path, whatever the order of the walk, unless a cycle
    of at least two user folders is above; and exactly then they depend on the order. */
module FolderNames {
  import opened Ids
  import opened Folders

  /** No segment holds the separator. */
  predicate Unslashed(g: Graph) { forall id :: id in g ==> '/' !in g[id].segment }

  function Climb(g: Graph, id: string): string { if IsUser(g, id) then g[id].parentID else id }

  /** The folder k links further up; the links of user folders only. */
  function Up(g: Graph, id: string, k: nat): string { if k == 0 then id else Climb(g, Up(g, id, k - 1)) }

  ghost predicate OnCycle(g: Graph, f: string) {
    IsUser(g, f) && g[f].parentID != f && exists k: nat :: k > 0 && Up(g, f, k) == f
  }

  ghost predicate ReachesCycle(g: Graph, id: string) { exists i: nat :: OnCycle(g, Up(g, id, i)) }

  /** Every folder is visited once. */
  ghost predicate CompleteWalk(g: Graph, order: seq<string>) {
    && (forall id :: id in order <==> id in g)
    && (forall i, j :: 0 <= i < j < |order| ==> order[i] != order[j])
  }

  function NameOf(g: Graph, order: seq<string>, id: string): string {
    var names := NameAll(g, order);
    if id in names then names[id] else ""
  }

  ghost predicate DependsOnOrder(g: Graph, id: string) {
    exists order1, order2 ::
      CompleteWalk(g, order1) && CompleteWalk(g, order2) && NameOf(g, order1, id) != NameOf(g, order2, id)
  }

  // ---------- links ----------

  lemma {:induction false} UpAdds(g: Graph, id: string, i: nat, j: nat)
    ensures Up(g, id, i + j) == Up(g, Up(g, id, i), j)
    decreases j
  {
    if j > 0 { UpAdds(g, id, i, j - 1); }
  }

  lemma {:induction false} StaysPut(g: Graph, id: string, j: nat, k: nat)
    requires j <= k && !IsUser(g, Up(g, id, j))
    ensures Up(g, id, k) == Up(g, id, j)
    decreases k
  {
    if j < k { StaysPut(g, id, j, k - 1); }
  }

  // ---------- chains that end, or end in a folder that is its own parent ----------

  predicate Settled(g: Graph, id: string, n: nat)
    decreases n
  {
    !IsUser(g, id) || g[id].parentID == id || (n > 0 && Settled(g, g[id].parentID, n - 1))
  }

  /** A folder that is its own parent has its segment twice. */
  function Name(g: Graph, id: string, n: nat): string
    requires Settled(g, id, n)
    decreases n
  {
    if !IsMail(g, id) then ""
    else if g[id].system then g[id].segment
    else if g[id].parentID == id then Under(g[id].segment, g[id].segment)
    else Under(Name(g, g[id].parentID, n - 1), g[id].segment)
  }

  lemma {:induction false} SettledMore(g: Graph, id: string, n: nat)
    requires Settled(g, id, n)
    ensures Settled(g, id, n + 1) && Name(g, id, n + 1) == Name(g, id, n)
    decreases n
  {
    if IsUser(g, id) && g[id].parentID != id { SettledMore(g, g[id].parentID, n - 1); }
  }

  /** Each folder that is being visited lies properly below the one asked for, and is not its
      own parent. */
  ghost predicate Below(g: Graph, visiting: set<string>, id: string) {
    forall v, n: nat :: v in visiting && Settled(g, v, n) ==> n > 0 && Settled(g, id, n - 1)
  }

  lemma {:induction false} BelowParent(g: Graph, visiting: set<string>, id: string)
    requires IsUser(g, id) && g[id].parentID != id && Below(g, visiting, id)
    ensures Below(g, visiting + {id}, g[id].parentID)
  {
    forall v, n: nat | v in visiting + {id} && Settled(g, v, n)
      ensures n > 0 && Settled(g, g[id].parentID, n - 1)
    {
      if v in visiting {
        assert Settled(g, id, n - 1);
        SettledMore(g, g[id].parentID, n - 2);
      }
    }
  }

  lemma {:induction false} MetAgainIsNotSettled(g: Graph, visiting: set<string>, id: string, n: nat)
    requires id in visiting && Below(g, visiting, id)
    ensures !Settled(g, id, n)
    decreases n
  {
    if n > 0 { MetAgainIsNotSettled(g, visiting, id, n - 1); }
  }

  ghost predicate RightName(g: Graph, id: string, name: string) {
    && IsMail(g, id) && name != ""
    && (exists parent :: name == Under(parent, g[id].segment))
    && (forall n: nat :: Settled(g, id, n) ==> name == Name(g, id, n))
  }

  ghost predicate RightNames(g: Graph, names: map<string, string>) {
    forall id :: id in names ==> RightName(g, id, names[id])
  }

  lemma {:induction false} SegmentIsRight(g: Graph, visiting: set<string>, id: string)
    requires Named(g) && IsMail(g, id) && (g[id].system || (id in visiting && Below(g, visiting, id)))
    ensures RightName(g, id, g[id].segment)
  {
    assert g[id].segment == Under("", g[id].segment);
    forall n: nat | Settled(g, id, n) ensures g[id].segment == Name(g, id, n) {
      if !g[id].system { MetAgainIsNotSettled(g, visiting, id, n); }
    }
  }

  /** The memo on the way up from a folder that is its own parent. */
  lemma {:induction false} OwnParent(g: Graph, names: map<string, string>, visiting: set<string>, id: string)
    requires Named(g) && IsUser(g, id) && g[id].parentID == id && id !in names && id !in visiting
    ensures Resolve(g, names, visiting, id) ==
            Names(Under(g[id].segment, g[id].segment), names[id := Under(g[id].segment, g[id].segment)])
  {
    var segment := g[id].segment;
    Shrinks(g.Keys, visiting, id);
    assert Resolve(g, names, visiting + {id}, id) == Names(segment, names[id := segment]);
    assert names[id := segment][id := Under(segment, segment)] == names[id := Under(segment, segment)];
  }

  lemma {:induction false} ResolveIsRight(g: Graph, names: map<string, string>, visiting: set<string>, id: string)
    requires Named(g) && RightNames(g, names) && Below(g, visiting, id)
    ensures var r := Resolve(g, names, visiting, id);
      && RightNames(g, r.names) && names.Keys <= r.names.Keys
      && (IsMail(g, id) ==> id in r.names && r.names[id] == r.name)
      && (!IsMail(g, id) ==> r.name == "")
    decreases |g.Keys - visiting|
  {
    if id !in names && IsMail(g, id) {
      if g[id].system || id in visiting {
        SegmentIsRight(g, visiting, id);
      } else if g[id].parentID == id {
        OwnParent(g, names, visiting, id);
      } else {
        var parentID := g[id].parentID;
        BelowParent(g, visiting, id);
        Shrinks(g.Keys, visiting, id);
        ResolveIsRight(g, names, visiting + {id}, parentID);
        UnderIsRight(g, id, Resolve(g, names, visiting + {id}, parentID));
      }
    }
  }

  lemma {:induction false} UnderIsRight(g: Graph, id: string, up: Names)
    requires Named(g) && IsUser(g, id) && g[id].parentID != id && RightNames(g, up.names)
    requires IsMail(g, g[id].parentID) ==> g[id].parentID in up.names && up.names[g[id].parentID] == up.name
    requires !IsMail(g, g[id].parentID) ==> up.name == ""
    ensures RightName(g, id, Under(up.name, g[id].segment))
  {
    forall n: nat | Settled(g, id, n) ensures Under(up.name, g[id].segment) == Name(g, id, n) {
      assert Settled(g, g[id].parentID, n - 1);
      if IsMail(g, g[id].parentID) { assert RightName(g, g[id].parentID, up.name); }
    }
  }

  lemma {:induction false} WalkIsRight(g: Graph, order: seq<string>)
    requires Named(g)
    ensures RightNames(g, NameAll(g, order))
    ensures forall id :: id in order && IsMail(g, id) ==> id in NameAll(g, order)
    decreases |order|
  {
    if order != [] {
      var before, id := order[..|order| - 1], order[|order| - 1];
      WalkIsRight(g, before);
      assert order == before + [id];
      if IsMail(g, id) { ResolveIsRight(g, NameAll(g, before), {}, id); }
    }
  }

  /** The first j folders on the way up. */
  function Trail(g: Graph, f: string, j: nat): set<string> {
    if j == 0 then {} else Trail(g, f, j - 1) + {Up(g, f, j - 1)}
  }

  lemma {:induction false} TrailIndex(g: Graph, f: string, j: nat, x: string) returns (i: nat)
    requires x in Trail(g, f, j)
    ensures i < j && Up(g, f, i) == x
  {
    if x == Up(g, f, j - 1) {
      i := j - 1;
    } else {
      i := TrailIndex(g, f, j - 1, x);
    }
  }

  lemma {:induction false} OnTrail(g: Graph, f: string, j: nat, i: nat)
    requires i < j
    ensures Up(g, f, i) in Trail(g, f, j)
  {
    if i < j - 1 { OnTrail(g, f, j - 1, i); }
  }

  // ---------- chains without a cycle ----------

  /** The chain of user folders above a folder ends within n links. */
  predicate Rooted(g: Graph, id: string, n: nat)
    decreases n
  {
    !IsUser(g, id) || (n > 0 && Rooted(g, g[id].parentID, n - 1))
  }

  /** The segments from the top of the hierarchy down, joined by slashes. */
  function Path(g: Graph, id: string, n: nat): string
    requires Rooted(g, id, n)
    decreases n
  {
    if !IsMail(g, id) then ""
    else if g[id].system then g[id].segment
    else Under(Path(g, g[id].parentID, n - 1), g[id].segment)
  }

  lemma {:induction false} RootedIsSettled(g: Graph, id: string, n: nat)
    requires Rooted(g, id, n)
    ensures Settled(g, id, n) && Name(g, id, n) == Path(g, id, n)
    decreases n
  {
    if IsUser(g, id) {
      RootedIsSettled(g, g[id].parentID, n - 1);
      if g[id].parentID == id { OwnParentIsNotRooted(g, id, n); }
    }
  }

  lemma {:induction false} OwnParentIsNotRooted(g: Graph, id: string, n: nat)
    requires IsUser(g, id) && g[id].parentID == id
    ensures !Rooted(g, id, n)
  {
    if n > 0 { OwnParentIsNotRooted(g, id, n - 1); }
  }

  /** A name ends in the folder's own segment, and is its path if no cycle is above it. */
  ghost predicate GoodName(g: Graph, id: string, name: string) {
    && IsMail(g, id) && name != ""
    && (exists parent :: name == Under(parent, g[id].segment))
    && (forall n: nat :: Rooted(g, id, n) ==> name == Path(g, id, n))
  }

  /** In whatever order the folders are walked, every mail folder that was walked gets a good
      name. */
  lemma {:induction false} NamesArePaths(g: Graph, order: seq<string>)
    requires Named(g)
    ensures var names := NameAll(g, order);
      && (forall id :: id in names ==> GoodName(g, id, names[id]))
      && forall id :: id in order && IsMail(g, id) ==> id in names
  {
    var names := NameAll(g, order);
    WalkIsRight(g, order);
    forall id | id in names ensures GoodName(g, id, names[id]) {
      assert RightName(g, id, names[id]);
      forall n: nat | Rooted(g, id, n) ensures names[id] == Path(g, id, n) { RootedIsSettled(g, id, n); }
    }
  }

  /** Two walks name every folder alike whose chain of parents ends, or ends in a folder that
      is its own parent. */
  lemma {:induction false} OrderDoesNotMatter(g: Graph, order1: seq<string>, order2: seq<string>, id: string, n: nat)
    requires Named(g) && IsMail(g, id) && Settled(g, id, n) && id in order1 && id in order2
    ensures id in NameAll(g, order1) && id in NameAll(g, order2)
    ensures NameAll(g, order1)[id] == NameAll(g, order2)[id] == Name(g, id, n)
  {
    WalkIsRight(g, order1);
    WalkIsRight(g, order2);
    assert RightName(g, id, NameAll(g, order1)[id]) && RightName(g, id, NameAll(g, order2)[id]);
  }

  ghost predicate Settles(g: Graph, id: string) { exists n: nat :: Settled(g, id, n) }

  /** Following parents either settles or comes to a cycle. */
  lemma {:induction false} ClimbingEnds(g: Graph, id: string, i: nat)
    requires Trail(g, id, i) <= g.Keys
    ensures ReachesCycle(g, id) || Settles(g, Up(g, id, i))
    decreases |g.Keys - Trail(g, id, i)|
  {
    var f := Up(g, id, i);
    if !IsUser(g, f) || g[f].parentID == f {
      assert Settled(g, f, 0);
    } else if f in Trail(g, id, i) {
      var j := TrailIndex(g, id, i, f);
      UpAdds(g, id, j, i - j);
      assert OnCycle(g, Up(g, id, i));
    } else {
      Shrinks(g.Keys, Trail(g, id, i), f);
      ClimbingEnds(g, id, i + 1);
      var parent := Up(g, id, i + 1);
      if Settles(g, parent) {
        var n: nat :| Settled(g, parent, n);
        assert Settled(g, f, n + 1);
      }
    }
  }

  // ---------- entering a cycle ----------

  /** The cycle through `f` has n folders. */
  ghost predicate Cyclic(g: Graph, f: string, n: nat) {
    && n >= 2 && Up(g, f, n) == f
    && (forall j: nat :: 0 < j < n ==> Up(g, f, j) != f)
    && (forall j: nat :: j <= n ==> IsUser(g, Up(g, f, j)))
  }

  lemma {:induction false} CycleLength(g: Graph, f: string) returns (n: nat)
    requires OnCycle(g, f)
    ensures Cyclic(g, f, n)
  {
    var k: nat :| k > 0 && Up(g, f, k) == f;
    n := 1;
    while Up(g, f, n) != f
      invariant 0 < n <= k && forall j: nat :: 0 < j < n ==> Up(g, f, j) != f
      decreases k - n
    {
      n := n + 1;
    }
    assert Up(g, f, 1) == Climb(g, Up(g, f, 0));
    forall j: nat | j <= n ensures IsUser(g, Up(g, f, j)) {
      if !IsUser(g, Up(g, f, j)) { StaysPut(g, f, j, n); }
    }
  }

  lemma {:induction false} CyclicDistinct(g: Graph, f: string, n: nat, i: nat, j: nat)
    requires Cyclic(g, f, n) && i < j < n
    ensures Up(g, f, i) != Up(g, f, j)
  {
    UpAdds(g, f, j, n - j);
    UpAdds(g, f, i, n - j);
    assert Up(g, f, n) == f;
    var m: nat := i + (n - j);
    assert 0 < m < n && Up(g, f, m) != f;
  }

  lemma {:induction false} CyclicParent(g: Graph, f: string, n: nat)
    requires Cyclic(g, f, n)
    ensures Cyclic(g, Up(g, f, 1), n) && Up(g, Up(g, f, 1), n - 1) == f
  {
    var p := Up(g, f, 1);
    UpAdds(g, f, 1, n - 1);
    UpAdds(g, f, n, 1);
    UpAdds(g, f, 1, n);
    assert Up(g, p, n) == p by { assert Up(g, f, n + 1) == Up(g, Up(g, f, n), 1); }
    forall j: nat | 0 < j < n ensures Up(g, p, j) != p {
      UpAdds(g, f, 1, j);
      if j + 1 < n { CyclicDistinct(g, f, n, 1, j + 1); }
    }
    forall j: nat | j <= n ensures IsUser(g, Up(g, p, j)) {
      UpAdds(g, f, 1, j);
      if j < n { assert IsUser(g, Up(g, f, j + 1)); }
    }
  }

  function Slashes(s: string): nat
    decreases |s|
  {
    if s == "" then 0 else Slashes(s[..|s| - 1]) + if s[|s| - 1] == '/' then 1 else 0
  }

  lemma {:induction false} SlashesAdd(a: string, b: string)
    ensures Slashes(a + b) == Slashes(a) + Slashes(b)
    decreases |b|
  {
    if b == "" {
      assert a + b == a;
    } else {
      assert (a + b)[..|a + b| - 1] == a + b[..|b| - 1];
      SlashesAdd(a, b[..|b| - 1]);
    }
  }

  lemma {:induction false} NoSlashes(s: string)
    requires '/' !in s
    ensures Slashes(s) == 0
    decreases |s|
  {
    if s != "" {
      assert s[|s| - 1] in s;
      forall c | c in s[..|s| - 1] ensures c in s {}
      NoSlashes(s[..|s| - 1]);
    }
  }

  lemma {:induction false} UnderSlashes(parent: string, segment: string)
    requires parent != "" && '/' !in segment
    ensures Slashes(Under(parent, segment)) == Slashes(parent) + 1
  {
    SlashesAdd(parent + "/", segment);
    SlashesAdd(parent, "/");
    NoSlashes(segment);
    assert "/"[..0] == "";
  }

  lemma {:induction false} ResolveUser(g: Graph, visiting: set<string>, id: string)
    requires IsUser(g, id) && id !in visiting
    ensures var up := Resolve(g, map[], visiting + {id}, g[id].parentID);
      Resolve(g, map[], visiting, id) ==
      Names(Under(up.name, g[id].segment), up.names[id := Under(up.name, g[id].segment)])
  {
    Shrinks(g.Keys, visiting, id);
  }

  /** On the way round the cycle: the folder met again has its segment only, and every folder
      before it one more. */
  lemma {:induction false} AroundTheCycle(g: Graph, f: string, n: nat, j: nat)
    requires Named(g) && Unslashed(g) && Cyclic(g, f, n) && 1 <= j <= n
    ensures var r := Resolve(g, map[], Trail(g, f, j), Up(g, f, j));
      && r.name != "" && Slashes(r.name) == n - j
      && forall m: nat :: j <= m < n ==> Up(g, f, m) in r.names && Slashes(r.names[Up(g, f, m)]) == n - m
    decreases n - j
  {
    var id := Up(g, f, j);
    assert IsUser(g, id);
    if j == n {
      assert Up(g, f, 0) == f;
      OnTrail(g, f, j, 0);
      NoSlashes(g[id].segment);
    } else {
      forall x | x in Trail(g, f, j) ensures x != id {
        var i := TrailIndex(g, f, j, x);
        CyclicDistinct(g, f, n, i, j);
      }
      AroundTheCycle(g, f, n, j + 1);
      var up := Resolve(g, map[], Trail(g, f, j + 1), Up(g, f, j + 1));
      assert Trail(g, f, j + 1) == Trail(g, f, j) + {id} && Up(g, f, j + 1) == g[id].parentID;
      ResolveUser(g, Trail(g, f, j), id);
      UnderSlashes(up.name, g[id].segment);
      forall m: nat | j < m < n ensures Up(g, f, m) != id { CyclicDistinct(g, f, n, j, m); }
    }
  }

  /** Entered at `f`, the cycle gives `f` all n segments and its own once more; and to the
      folder before `f` only the segment of `f` and its own. */
  lemma {:induction false} EnteredAt(g: Graph, f: string, n: nat)
    requires Named(g) && Unslashed(g) && Cyclic(g, f, n)
    ensures var names, last := NameAll(g, [f]), Up(g, f, n - 1);
      && f in names && Slashes(names[f]) == n
      && last in names && Slashes(names[last]) == 1
  {
    AroundTheCycle(g, f, n, 1);
    var up := Resolve(g, map[], Trail(g, f, 1), Up(g, f, 1));
    assert Up(g, f, 0) == f && IsUser(g, f);
    assert Trail(g, f, 0) == {} && Trail(g, f, 1) == {} + {f};
    assert Up(g, f, 1) == g[f].parentID;
    ResolveUser(g, {}, f);
    UnderSlashes(up.name, g[f].segment);
    assert Up(g, f, n - 1) != f;
    assert [f][..0] == [] && NameAll(g, []) == map[];
    assert NameAll(g, [f]) == Resolve(g, map[], {}, f).names;
  }

  // ---------- names below the cycle ----------

  /** Off the cycles, a memoised name is the memoised name of the parent with the segment. */
  ghost predicate Built(g: Graph, names: map<string, string>) {
    forall p :: p in names && BuiltOnParent(g, p) ==>
      g[p].parentID in names && names[p] == Under(names[g[p].parentID], g[p].segment)
  }

  ghost predicate BuiltOnParent(g: Graph, p: string) {
    IsUser(g, p) && g[p].parentID != p && IsMail(g, g[p].parentID) && !OnCycle(g, p)
  }

  /** Mail folders with names. */
  ghost predicate NonEmpty(g: Graph, names: map<string, string>) {
    forall p :: p in names ==> IsMail(g, p) && names[p] != ""
  }

  /** Every folder being visited lies below the one asked for. */
  ghost predicate LeadsTo(g: Graph, visiting: set<string>, id: string) {
    forall v :: v in visiting ==> exists k: nat :: k > 0 && Up(g, v, k) == id
  }

  lemma {:induction false} LeadsToParent(g: Graph, visiting: set<string>, id: string)
    requires IsUser(g, id) && LeadsTo(g, visiting, id)
    ensures LeadsTo(g, visiting + {id}, g[id].parentID)
  {
    forall v | v in visiting + {id} ensures exists k: nat :: k > 0 && Up(g, v, k) == g[id].parentID {
      if v in visiting {
        var k: nat :| k > 0 && Up(g, v, k) == id;
        assert Up(g, v, k + 1) == g[id].parentID;
      } else {
        assert Up(g, id, 0) == id;
        assert Up(g, id, 1) == g[id].parentID;
      }
    }
  }

  ghost predicate OnlyAbove(g: Graph, id: string, before: map<string, string>, after: map<string, string>) {
    && (forall k :: k in before ==> k in after && after[k] == before[k])
    && (forall k :: k in after && k !in before ==> exists i: nat :: Up(g, id, i) == k)
  }

  lemma {:induction false} ResolveBuilds(g: Graph, names: map<string, string>, visiting: set<string>, id: string)
    requires Named(g) && NonEmpty(g, names) && Built(g, names) && LeadsTo(g, visiting, id)
    ensures var r := Resolve(g, names, visiting, id);
      && NonEmpty(g, r.names) && Built(g, r.names) && OnlyAbove(g, id, names, r.names)
      && (IsMail(g, id) ==> id in r.names && r.names[id] == r.name)
      && (!IsMail(g, id) ==> r.name == "")
    decreases |g.Keys - visiting|
  {
    if id !in names && IsMail(g, id) {
      if id in visiting || g[id].system {
        SetSegment(g, names, visiting, id);
      } else {
        LeadsToParent(g, visiting, id);
        Shrinks(g.Keys, visiting, id);
        ResolveBuilds(g, names, visiting + {id}, g[id].parentID);
        BuildOn(g, names, id, Resolve(g, names, visiting + {id}, g[id].parentID));
      }
    }
  }

  lemma {:induction false} SetSegment(g: Graph, names: map<string, string>, visiting: set<string>, id: string)
    requires Named(g) && NonEmpty(g, names) && Built(g, names) && LeadsTo(g, visiting, id) && id !in names
    requires IsMail(g, id) && (id in visiting || g[id].system)
    ensures var after := names[id := g[id].segment];
      NonEmpty(g, after) && Built(g, after) && OnlyAbove(g, id, names, after)
  {
    assert Up(g, id, 0) == id;
    if id in visiting {
      var k: nat :| k > 0 && Up(g, id, k) == id;
      assert !BuiltOnParent(g, id);
    }
  }

  lemma {:induction false} BuildOn(g: Graph, names: map<string, string>, id: string, up: Names)
    requires Named(g) && IsUser(g, id) && id !in names && Built(g, names)
    requires NonEmpty(g, up.names) && Built(g, up.names) && OnlyAbove(g, g[id].parentID, names, up.names)
    requires IsMail(g, g[id].parentID) ==> g[id].parentID in up.names && up.names[g[id].parentID] == up.name
    ensures var after := up.names[id := Under(up.name, g[id].segment)];
      NonEmpty(g, after) && Built(g, after) && OnlyAbove(g, id, names, after)
  {
    var after := up.names[id := Under(up.name, g[id].segment)];
    assert Up(g, id, 0) == id;
    assert Up(g, id, 1) == g[id].parentID;
    forall k | k in after && k !in names ensures exists i: nat :: Up(g, id, i) == k {
      if k != id {
        var i: nat :| Up(g, g[id].parentID, i) == k;
        UpAdds(g, id, 1, i);
      }
    }
    forall p | p in after && p != id && BuiltOnParent(g, p) ensures g[p].parentID != id {
      if p !in names {
        var i: nat :| Up(g, id, i) == p;
        assert Up(g, p, 0) == p;
        assert Up(g, p, 1) == g[p].parentID;
        if g[p].parentID == id { UpAdds(g, p, 1, i); }
      }
    }
  }

  lemma {:induction false} WalkBuilds(g: Graph, order: seq<string>)
    requires Named(g)
    ensures NonEmpty(g, NameAll(g, order)) && Built(g, NameAll(g, order))
    ensures forall id :: id in order && IsMail(g, id) ==> id in NameAll(g, order)
    decreases |order|
  {
    if order != [] {
      var before, id := order[..|order| - 1], order[|order| - 1];
      WalkBuilds(g, before);
      assert order == before + [id];
      if IsMail(g, id) { ResolveBuilds(g, NameAll(g, before), {}, id); }
    }
  }

  /** What the first folder of a walk fixes stays. */
  lemma {:induction false} FirstNamesStay(g: Graph, first: string, rest: seq<string>)
    requires Named(g)
    ensures forall k :: k in NameAll(g, [first]) ==>
              k in NameAll(g, [first] + rest) && NameAll(g, [first] + rest)[k] == NameAll(g, [first])[k]
    decreases |rest|
  {
    if rest == [] {
      assert [first] + rest == [first];
    } else {
      var init, id := rest[..|rest| - 1], rest[|rest| - 1];
      assert [first] + rest == ([first] + init) + [id];
      FirstNamesStay(g, first, init);
      NamesStay(g, [first] + init, id);
    }
  }

  lemma {:induction false} NamesStay(g: Graph, order: seq<string>, id: string)
    requires Named(g)
    ensures forall k :: k in NameAll(g, order) ==>
              k in NameAll(g, order + [id]) && NameAll(g, order + [id])[k] == NameAll(g, order)[k]
  {
    assert (order + [id])[..|order|] == order;
    WalkBuilds(g, order);
    if IsMail(g, id) { ResolveBuilds(g, NameAll(g, order), {}, id); }
  }

  /** Each link below the cycle adds one segment. */
  lemma {:induction false} BelowTheCycle(g: Graph, names: map<string, string>, id: string, i: nat)
    requires Unslashed(g) && NonEmpty(g, names) && Built(g, names) && id in names
    requires OnCycle(g, Up(g, id, i)) && forall j: nat :: j < i ==> !OnCycle(g, Up(g, id, j))
    ensures Up(g, id, i) in names && Slashes(names[id]) == Slashes(names[Up(g, id, i)]) + i
    decreases i
  {
    assert Up(g, id, 0) == id;
    if i > 0 {
      assert !OnCycle(g, Up(g, id, 0));
      if !IsUser(g, id) { StaysPut(g, id, 0, i); }
      var parent := g[id].parentID;
      UpAdds(g, id, 1, i - 1);
      assert Up(g, id, 1) == parent;
      if parent == id { FixedUp(g, id, i); }
      ParentIsMail(g, parent, i - 1);
      forall j: nat | j < i - 1 ensures !OnCycle(g, Up(g, parent, j)) {
        UpAdds(g, id, 1, j);
        assert !OnCycle(g, Up(g, id, j + 1));
      }
      BelowTheCycle(g, names, parent, i - 1);
      UnderSlashes(names[parent], g[id].segment);
    }
  }

  lemma {:induction false} FixedUp(g: Graph, id: string, i: nat)
    requires IsUser(g, id) && g[id].parentID == id
    ensures Up(g, id, i) == id
  {
    if i > 0 { FixedUp(g, id, i - 1); }
  }

  lemma {:induction false} ParentIsMail(g: Graph, p: string, k: nat)
    requires IsUser(g, Up(g, p, k))
    ensures IsUser(g, p)
  {
    assert Up(g, p, 0) == p;
    if !IsUser(g, p) { StaysPut(g, p, 0, k); }
  }

  lemma {:induction false} WalkFrom(g: Graph, first: string) returns (rest: seq<string>)
    requires first in g
    ensures CompleteWalk(g, [first] + rest)
  {
    rest := Listing(g.Keys - {first});
    var order := [first] + rest;
    ListingAscends(g.Keys - {first});
    forall i, j | 0 <= i < j < |order| ensures order[i] != order[j] {
      if i > 0 {
        assert Less(rest[i - 1], rest[j - 1]);
        LessAsymmetric(rest[i - 1], rest[j - 1]);
      } else {
        assert order[j] == rest[j - 1] && rest[j - 1] in rest;
      }
    }
  }

  /** The name of a folder below a cycle, when the walk begins on the cycle. */
  lemma {:induction false} NameWhenEntered(g: Graph, id: string, i: nat, first: string, rest: seq<string>)
    requires Named(g) && Unslashed(g) && IsMail(g, id) && CompleteWalk(g, [first] + rest)
    requires OnCycle(g, Up(g, id, i)) && forall j: nat :: j < i ==> !OnCycle(g, Up(g, id, j))
    requires Up(g, id, i) in NameAll(g, [first])
    ensures Slashes(NameOf(g, [first] + rest, id)) == Slashes(NameAll(g, [first])[Up(g, id, i)]) + i
  {
    WalkBuilds(g, [first] + rest);
    FirstNamesStay(g, first, rest);
    BelowTheCycle(g, NameAll(g, [first] + rest), id, i);
  }

  lemma {:induction false} FirstOnCycle(g: Graph, id: string) returns (i: nat)
    requires ReachesCycle(g, id)
    ensures OnCycle(g, Up(g, id, i)) && forall j: nat :: j < i ==> !OnCycle(g, Up(g, id, j))
  {
    var k: nat :| OnCycle(g, Up(g, id, k));
    i := 0;
    while !OnCycle(g, Up(g, id, i))
      invariant i <= k && forall j: nat :: j < i ==> !OnCycle(g, Up(g, id, j))
      decreases k - i
    {
      i := i + 1;
    }
  }

  lemma {:induction false} TwoWalks(g: Graph, id: string, i: nat, f: string, p: string)
    requires Named(g) && Unslashed(g) && IsMail(g, id) && f in g && p in g && f == Up(g, id, i)
    requires OnCycle(g, f) && forall j: nat :: j < i ==> !OnCycle(g, Up(g, id, j))
    requires f in NameAll(g, [f]) && f in NameAll(g, [p])
    requires Slashes(NameAll(g, [f])[f]) != Slashes(NameAll(g, [p])[f])
    ensures DependsOnOrder(g, id)
  {
    var rest1 := WalkFrom(g, f);
    var rest2 := WalkFrom(g, p);
    NameWhenEntered(g, id, i, f, rest1);
    NameWhenEntered(g, id, i, p, rest2);
    assert NameOf(g, [f] + rest1, id) != NameOf(g, [p] + rest2, id);
  }

  /** Entering the cycle at its first folder above `id`, or at the folder after that. */
  lemma {:induction false} CycleGivesTwoNames(g: Graph, id: string)
    requires Named(g) && Unslashed(g) && IsMail(g, id) && ReachesCycle(g, id)
    ensures DependsOnOrder(g, id)
  {
    var i := FirstOnCycle(g, id);
    var f := Up(g, id, i);
    var n := CycleLength(g, f);
    var p := Up(g, f, 1);
    CyclicParent(g, f, n);
    EnteredAt(g, f, n);
    EnteredAt(g, p, n);
    assert IsUser(g, p);
    TwoWalks(g, id, i, f, p);
  }

  /** Two complete walks can name a folder differently exactly when following the parents of
      user folders from it comes to a cycle of at least two folders. */
  lemma {:induction false} DependsOnOrderIffReachesCycle(g: Graph, id: string)
    requires Named(g) && Unslashed(g) && IsMail(g, id)
    ensures DependsOnOrder(g, id) <==> ReachesCycle(g, id)
  {
    if ReachesCycle(g, id) {
      CycleGivesTwoNames(g, id);
    } else {
      assert Up(g, id, 0) == id;
      ClimbingEnds(g, id, 0);
      var n: nat :| Settled(g, id, n);
      forall order | CompleteWalk(g, order) ensures NameOf(g, order, id) == Name(g, id, n) {
        WalkIsRight(g, order);
        assert RightName(g, id, NameAll(g, order)[id]);
      }
    }
  }
}
