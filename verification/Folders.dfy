/** The IMAP names of mail folders: a memoised walk up the parent links the server gives,
    which need not form a tree. */
module Folders {
  import opened Ids

  /** `mail` and `system` say what the folder type is; `segment` is the folder's own part
      of the name, already unique among its siblings. */
  datatype Folder = Folder(parentID: string, mail: bool, system: bool, segment: string)

  type Graph = map<string, Folder>

  /** No mail folder has an empty segment. */
  ghost predicate Named(g: Graph) { forall id :: id in g && g[id].mail ==> g[id].segment != "" }

  predicate IsMail(g: Graph, id: string) { id in g && g[id].mail }

  /** A mail folder whose name is built on its parent's. */
  predicate IsUser(g: Graph, id: string) { IsMail(g, id) && !g[id].system }

  datatype Names = Names(name: string, names: map<string, string>)

  function Under(parent: string, segment: string): string { if parent != "" then parent + "/" + segment else segment }

  /** resolve, with the memo and the set of folders it is in the middle of.  It ends for
      every graph: each folder is entered at most once at a time. */
  function Resolve(g: Graph, names: map<string, string>, visiting: set<string>, id: string): Names
    decreases |g.Keys - visiting|
  {
    if id in names && names[id] != "" then Names(names[id], names)
    else if !IsMail(g, id) then Names("", names)
    else
      var segment := g[id].segment;
      if g[id].system || id in visiting then Names(segment, names[id := segment])
      else
        Shrinks(g.Keys, visiting, id);
        var up := Resolve(g, names, visiting + {id}, g[id].parentID);
        Names(Under(up.name, segment), up.names[id := Under(up.name, segment)])
  }

  lemma {:induction false} Shrinks(all: set<string>, visiting: set<string>, id: string)
    requires id in all && id !in visiting
    ensures |all - (visiting + {id})| < |all - visiting|
  {
    assert all - (visiting + {id}) == (all - visiting) - {id};
  }

  /** The folders in the order the map happens to be walked in. */
  function NameAll(g: Graph, order: seq<string>): map<string, string>
    decreases |order|
  {
    if order == [] then map[]
    else
      var names, id := NameAll(g, order[..|order| - 1]), order[|order| - 1];
      if IsMail(g, id) then Resolve(g, names, {}, id).names else names
  }

  // ---------- folders that are each other's parent ----------

  const CYCLE: Graph := map["a" := Folder("b", true, false, "A"), "b" := Folder("a", true, false, "B")]

  lemma {:induction false} EnterCycle(id: string, other: string)
    requires (id == "a" && other == "b") || (id == "b" && other == "a")
    ensures Resolve(CYCLE, map[], {}, id).names ==
            var x, y := CYCLE[id].segment, CYCLE[other].segment;
            map[id := x + "/" + y + "/" + x, other := x + "/" + y]
  {
    var x, y := CYCLE[id].segment, CYCLE[other].segment;
    var again := Resolve(CYCLE, map[], {id} + {other}, id);
    assert again == Names(x, map[id := x]);
    var up := Resolve(CYCLE, map[], {id}, other);
    assert {} + {id} == {id};
    assert up == Names(x + "/" + y, map[id := x][other := x + "/" + y]);
    assert (x + "/" + y) + "/" + x == x + "/" + y + "/" + x;
  }

  /** The smallest graph on which the names depend on the order of a complete walk. */
  lemma {:induction false} CycleDependsOnOrder()
    ensures Named(CYCLE) && CYCLE.Keys == {"a", "b"}
    ensures NameAll(CYCLE, ["a", "b"])["a"] == "A/B/A" && NameAll(CYCLE, ["b", "a"])["a"] == "B/A"
  {
    EnterCycle("a", "b");
    EnterCycle("b", "a");
    assert ["a"][..0] == [] && ["b"][..0] == [];
    assert ["a", "b"][..1] == ["a"] && ["b", "a"][..1] == ["b"];
    assert "A" + "/" + "B" + "/" + "A" == "A/B/A";
    assert "B" + "/" + "A" == "B/A";
  }

  // ---------- the closure ----------

  class Resolver {
    const byID: Graph
    var names: map<string, string>
    var visiting: set<string>

    constructor (byID: Graph)
      ensures this.byID == byID && names == map[] && visiting == {}
    {
      this.byID := byID;
      names, visiting := map[], {};
    }

    /** resolve. */
    method ResolveFolder(id: string) returns (name: string)
      modifies this`names, this`visiting
      ensures Names(name, names) == Resolve(byID, old(names), old(visiting), id)
      ensures visiting == old(visiting)
      decreases |byID.Keys - visiting|
    {
      if id in names && names[id] != "" { return names[id]; }
      if id !in byID || !byID[id].mail { return ""; }
      var folder := byID[id];
      if folder.system {
        names := names[id := folder.segment];
        return folder.segment;
      }
      if id in visiting {
        names := names[id := folder.segment];
        return folder.segment;
      }
      Shrinks(byID.Keys, visiting, id);
      visiting := visiting + {id};
      var parent := ResolveFolder(folder.parentID);
      visiting := visiting - {id};
      name := if parent != "" then parent + "/" + folder.segment else folder.segment;
      names := names[id := name];
    }
  }

  /** The end of imapFolderNames: `order` is the order in which the map is walked. */
  method ImapFolderNames(g: Graph, order: seq<string>) returns (names: map<string, string>)
    ensures names == NameAll(g, order)
  {
    var r := new Resolver(g);
    for i := 0 to |order|
      invariant fresh(r) && r.byID == g && r.visiting == {}
      invariant r.names == NameAll(g, order[..i])
    {
      assert order[..i + 1][..i] == order[..i];
      if order[i] in g && g[order[i]].mail {
        var _ := r.ResolveFolder(order[i]);
      }
    }
    assert order[..|order|] == order;
    names := r.names;
  }
}
