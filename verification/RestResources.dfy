/** Creating and deleting resources, and rebuilding every path after each change. */
module RestResources {
  import opened Wrappers
  import opened PathMatching
  import opened ResourceTree
  import Routing

  datatype Refusal = BadRequest | NotFound | Conflict

  ghost predicate Within(nodes: Nodes, depth: map<string, nat>, height: nat) {
    forall n :: n in nodes ==> n in depth && depth[n] <= height
  }

  /** The resources without one of them and everything below it: its children's subtrees go first. */
  method Remove(nodes: Nodes, ghost depth: map<string, nat>, ghost root: string, ghost height: nat, id: string) returns (fewer: Nodes)
    requires IsTree(nodes, depth, root) && Within(nodes, depth, height) && id in nodes && id != root
    ensures fewer == Without(nodes, depth, {id})
    decreases height - depth[id]
  {
    TreeIsRooted(nodes, depth, root);
    NothingAway(nodes, depth);
    var children := set n | n in nodes && nodes[n].parentId == id;
    assert id != "" && root !in children;
    hide Under, UnderAny, ValidPart, Without, IsTree, Rooted;
    ghost var done: set<string> := {};
    var rest := children;
    fewer := nodes;
    while rest != {}
      invariant rest !! done && rest + done == children && root !in done
      invariant fewer == Without(nodes, depth, done) && fewer.Keys <= nodes.Keys
      decreases rest
    {
      var c :| c in rest;
      SiblingsApart(nodes, depth, root, id, done, c);
      WithoutIsTree(nodes, depth, root, done);
      WithoutOneMore(nodes, depth, root, done, c);
      fewer := Remove(fewer, depth, root, height, c);
      rest, done := rest - {c}, done + {c};
      WithoutKeeps(nodes, depth, done);
    }
    assert done == children;
    WithoutChildrenAndTop(nodes, depth, root, id, children);
    fewer := fewer - {id};
  }

  class RestApi {
    var resources: Nodes
    ghost var depth: map<string, nat>
    ghost var height: nat
    ghost var root: string

    /** The resources are a tree, no deeper than height. */
    ghost predicate Tree()
      reads this
    {
      IsTree(resources, depth, root) && Within(resources, depth, height)
    }

    ghost predicate Right(n: string)
      requires Tree() && n in resources
      reads this, resources[n]
    {
      resources[n].path == PathOf(Parts(resources, depth, n))
    }

    /** A tree whose every path is that of its parts. */
    ghost predicate Valid()
      reads this, resources.Values
    {
      Tree() && forall n :: n in resources ==> Right(n)
    }

    constructor (rootId: string)
      requires rootId != ""
      ensures Valid() && root == rootId && resources.Keys == {rootId} && fresh(resources[rootId])
    {
      var top := new Resource(rootId, "", "");
      top.path := "/";
      resources := map[rootId := top];
      depth := map[rootId := 0];
      height := 0;
      root := rootId;
    }

    method Root() returns (id: string)
      requires Tree()
      ensures id == root
    {
      hide ValidPart;
      var rest := resources.Keys;
      while rest != {}
        invariant rest <= resources.Keys && root in rest
        decreases rest
      {
        var n :| n in rest;
        if resources[n].parentId == "" {
          return n;
        }
        rest := rest - {n};
      }
      return "";
    }

    function Children(parentId: string): set<string>
      reads this
    {
      set n | n in resources && resources[n].parentId == parentId
    }

    /** Writes the path of everything below a resource whose own path is right. */
    method Walk(parentId: string)
      requires Tree() && parentId in resources && Right(parentId)
      modifies resources.Values
      ensures forall n :: n in resources && old(Right(n)) ==> Right(n)
      ensures forall n :: n in resources && Under(resources, depth, parentId, n) ==> Right(n)
      decreases height - depth[parentId], 1
    {
      hide IsTree, Rooted, Parts, Under, PathOf;
      TreeIsRooted(resources, depth, root);
      var children := Children(parentId);
      var rest := children;
      NoBlankIds(resources, depth);
      while rest != {}
        invariant rest <= children && Right(parentId)
        invariant forall n :: n in resources && old(Right(n)) ==> Right(n)
        invariant forall c, n :: c in children - rest && n in resources && Under(resources, depth, c, n) ==> Right(n)
        decreases rest
      {
        var c :| c in rest;
        Visit(parentId, c);
        rest := rest - {c};
      }
      forall n | n in resources && Under(resources, depth, parentId, n)
        ensures Right(n)
      {
        if n != parentId {
          BelowThroughChild(resources, depth, parentId, children, n);
        }
      }
    }

    /** Writes the path of a child, and of everything below it. */
    method Visit(parentId: string, c: string)
      requires Tree() && parentId in resources && Right(parentId)
      requires c in resources && resources[c].parentId == parentId != ""
      modifies resources.Values
      ensures forall n :: n in resources && old(Right(n)) ==> Right(n)
      ensures forall n :: n in resources && Under(resources, depth, c, n) ==> Right(n)
      decreases height - depth[parentId], 0
    {
      hide IsTree, Rooted, Parts, Under, PathOf;
      var parent, child := resources[parentId], resources[c];
      NextPath(resources, depth, root, c);
      OwnObject(resources, depth, root, c);
      child.path := if parent.path == "/" then "/" + child.pathPart else parent.path + "/" + child.pathPart;
      Walk(c);
    }

    /** Recomputes every path from the tree. */
    method RebuildPaths()
      requires Tree()
      modifies resources.Values
      ensures Valid()
    {
      hide Rooted, Parts, Under, ValidPart;
      var top := Root();
      RootParts(resources, depth, root);
      resources[top].path := "/";
      Walk(top);
      forall n | n in resources
        ensures Under(resources, depth, root, n)
      {
        AllUnderRoot(resources, depth, root, n);
      }
    }

    /** Hangs a new resource from a parent, unless the parent already has a child of that part. */
    method CreateResource(parentId: string, part: string, id: string) returns (r: Result<string, Refusal>)
      requires Valid() && id != "" && id !in resources
      modifies this, resources.Values
      ensures Valid() && root == old(root)
      ensures r.Ok? <==> ValidPart(part) && parentId in old(resources)
                         && forall n :: n in old(resources) && old(resources)[n].parentId == parentId ==> old(resources)[n].pathPart != part
      ensures r.Err? ==> resources == old(resources)
      ensures r.Ok? ==>
                && resources.Keys == old(resources).Keys + {id} && (forall n :: n in old(resources) ==> resources[n] == old(resources)[n])
                && resources[id].parentId == parentId && resources[id].pathPart == part && fresh(resources[id])
    {
      hide Parts, PathOf, ValidPart, IsTree, Within, LevelOf;
      if !ValidPart(part) {
        return Err(BadRequest);
      }
      if parentId !in resources {
        return Err(NotFound);
      }
      var siblings := Children(parentId);
      if exists n :: n in siblings && resources[n].pathPart == part {
        return Err(Conflict);
      }
      var created := new Resource(id, parentId, part);
      ghost var level := LevelOf(resources, depth, root, height, parentId) + 1;
      GrowsTree(resources, depth, root, height, created, resources[id := created], depth[id := level]);
      resources, depth, height := resources[id := created], depth[id := level], height + 1;
      RebuildPaths();
      return Ok(id);
    }

    /** Sets what is sent of a resource's part and parent, the last of each counting, and checks neither. */
    method PatchResource(id: string, ops: seq<(string, string)>) returns (r: Result<string, Refusal>)
      requires Tree()
      modifies `resources
      ensures r.Ok? <==> id in old(resources)
      ensures r.Err? ==> resources == old(resources)
      ensures r.Ok? ==>
                && id in resources && fresh(resources[id]) && resources == old(resources)[id := resources[id]]
                && resources[id].parentId == LastSent(ops, "/parentId", old(resources)[id].parentId)
                && resources[id].pathPart == LastSent(ops, "/pathPart", old(resources)[id].pathPart)
                && (IsSomeTree(resources)
                    <==> if id == root then resources[id].parentId == ""
                         else FitsUnder(old(resources), depth, id, resources[id].parentId, resources[id].pathPart))
    {
      if id !in resources {
        return Err(NotFound);
      }
      var parentId, part := resources[id].parentId, resources[id].pathPart;
      for i := 0 to |ops|
        invariant parentId == LastSent(ops[..i], "/parentId", resources[id].parentId)
        invariant part == LastSent(ops[..i], "/pathPart", resources[id].pathPart)
      {
        assert ops[..i + 1][..i] == ops[..i];
        if ops[i].0 == "/pathPart" {
          part := ops[i].1;
        } else if ops[i].0 == "/parentId" {
          parentId := ops[i].1;
        }
      }
      assert ops[..|ops|] == ops;
      var moved := new Resource(id, parentId, part);
      MovedIsTreeIff(resources, depth, root, id, moved);
      resources := resources[id := moved];
      return Ok(id);
    }

    /** Deletes a resource with its whole subtree; the root cannot go. */
    method DeleteResource(id: string) returns (r: Result<string, Refusal>)
      requires Valid()
      modifies this, resources.Values
      ensures Valid() && root == old(root)
      ensures r.Ok? <==> id in old(resources) && id != old(root)
      ensures r.Err? ==> resources == old(resources)
      ensures r.Ok? ==> forall n :: n in resources <==> n in old(resources) && !Under(old(resources), old(depth), id, n)
      ensures r.Ok? ==> forall n :: n in resources ==> resources[n] == old(resources)[n]
    {
      hide Parts, PathOf, ValidPart;
      if id !in resources {
        return Err(NotFound);
      }
      if resources[id].parentId == "" {
        return Err(BadRequest);
      }
      OnlyUnder(resources, depth, id);
      WithoutIsTree(resources, depth, root, {id});
      resources := Remove(resources, depth, root, height, id);
      RebuildPaths();
      return Ok(id);
    }
  }

  /** The value the last operation on a path sends, or what was there. */
  function LastSent(ops: seq<(string, string)>, path: string, was: string): string {
    if ops == [] then was
    else if ops[|ops| - 1].0 == path then ops[|ops| - 1].1
    else LastSent(ops[..|ops| - 1], path, was)
  }

  lemma NextPath(nodes: Nodes, depth: map<string, nat>, root: string, c: string)
    requires IsTree(nodes, depth, root) && c in nodes && nodes[c].parentId != ""
    ensures Rooted(nodes, depth) && nodes[c].parentId in nodes && nodes[c].parentId in depth && c in depth && depth[c] == depth[nodes[c].parentId] + 1
    ensures var above := PathOf(Parts(nodes, depth, nodes[c].parentId));
            PathOf(Parts(nodes, depth, c)) == if above == "/" then "/" + nodes[c].pathPart else above + "/" + nodes[c].pathPart
  {
    hide ValidPart;
    PartsAreGood(nodes, depth, root, nodes[c].parentId);
    ChildPath(Parts(nodes, depth, nodes[c].parentId), nodes[c].pathPart);
  }

  /** Two ids are never one object. */
  lemma OwnObject(nodes: Nodes, depth: map<string, nat>, root: string, c: string)
    requires IsTree(nodes, depth, root) && c in nodes
    ensures forall n :: n in nodes && nodes[n] == nodes[c] ==> n == c
  {
  }

  lemma RootParts(nodes: Nodes, depth: map<string, nat>, root: string)
    requires IsTree(nodes, depth, root)
    ensures PathOf(Parts(nodes, depth, root)) == "/"
  {
  }

  lemma BelowThroughChild(nodes: Nodes, depth: map<string, nat>, top: string, children: set<string>, n: string)
    requires Rooted(nodes, depth) && n in nodes && top in nodes && n != top && Under(nodes, depth, top, n)
    requires forall c :: c in children <==> c in nodes && nodes[c].parentId == top
    ensures exists c :: c in children && Under(nodes, depth, c, n)
  {
    var c := ChildAbove(nodes, depth, top, n);
    hide Rooted, Under;
    assert c in children;
  }

  ghost function LevelOf(nodes: Nodes, depth: map<string, nat>, root: string, height: nat, n: string): nat
    requires IsTree(nodes, depth, root) && Within(nodes, depth, height) && n in nodes
  {
    depth[n]
  }

  /** What one more resource changes of a tree's maps. */
  ghost predicate Grown(nodes: Nodes, depth: map<string, nat>, created: Resource, more: Nodes, depth': map<string, nat>) {
    && more.Keys == nodes.Keys + {created.id} && more[created.id] == created
    && (forall n :: n in nodes ==> more[n] == nodes[n])
    && (forall n :: n in nodes && n in depth ==> n in depth' && depth'[n] == depth[n])
  }

  lemma GrowsTree(nodes: Nodes, depth: map<string, nat>, root: string, height: nat, created: Resource, more: Nodes, depth': map<string, nat>)
    requires IsTree(nodes, depth, root) && Within(nodes, depth, height)
    requires created.id != "" && created.id !in nodes && created.parentId in nodes && ValidPart(created.pathPart)
    requires forall n :: n in nodes && nodes[n].parentId == created.parentId ==> nodes[n].pathPart != created.pathPart
    requires more == nodes[created.id := created] && depth' == depth[created.id := LevelOf(nodes, depth, root, height, created.parentId) + 1]
    ensures IsTree(more, depth', root) && Within(more, depth', height + 1)
  {
    hide ValidPart, Rooted, SiblingsDiffer, Within;
    TreeIsRooted(nodes, depth, root);
    NoBlankIds(nodes, depth);
    GrownBy(nodes, depth, root, height, created, more, depth');
    GrowsSiblings(nodes, created, more);
    GrowsInside(nodes, depth, height, created, more, depth');
    GrowsRooted(nodes, depth, created, more, depth');
  }

  lemma GrownBy(nodes: Nodes, depth: map<string, nat>, root: string, height: nat, created: Resource, more: Nodes, depth': map<string, nat>)
    requires IsTree(nodes, depth, root) && Within(nodes, depth, height) && created.id !in nodes && created.parentId in nodes
    requires more == nodes[created.id := created] && depth' == depth[created.id := LevelOf(nodes, depth, root, height, created.parentId) + 1]
    ensures Grown(nodes, depth, created, more, depth')
    ensures created.parentId in depth && created.id in depth' && depth'[created.id] == depth[created.parentId] + 1
  {
    hide IsTree;
  }

  lemma GrowsInside(nodes: Nodes, depth: map<string, nat>, height: nat, created: Resource, more: Nodes, depth': map<string, nat>)
    requires Within(nodes, depth, height) && Grown(nodes, depth, created, more, depth')
    requires created.parentId in nodes && created.id in depth' && depth'[created.id] == depth[created.parentId] + 1
    ensures Within(more, depth', height + 1)
  {
  }

  lemma GrowsSiblings(nodes: Nodes, created: Resource, more: Nodes)
    requires SiblingsDiffer(nodes)
    requires forall n :: n in nodes && nodes[n].parentId == created.parentId ==> nodes[n].pathPart != created.pathPart
    requires more == nodes[created.id := created]
    ensures SiblingsDiffer(more)
  {
  }

  lemma GrowsRooted(nodes: Nodes, depth: map<string, nat>, created: Resource, more: Nodes, depth': map<string, nat>)
    requires Rooted(nodes, depth) && created.id != "" && created.id !in nodes && created.parentId in nodes
    requires Grown(nodes, depth, created, more, depth')
    requires created.id in depth' && depth'[created.id] == depth[created.parentId] + 1
    ensures Rooted(more, depth')
  {
  }

  lemma WithoutKeeps(nodes: Nodes, depth: map<string, nat>, tops: set<string>)
    requires Rooted(nodes, depth)
    ensures Without(nodes, depth, tops).Keys <= nodes.Keys
  {
  }

  lemma NothingAway(nodes: Nodes, depth: map<string, nat>)
    requires Rooted(nodes, depth)
    ensures Without(nodes, depth, {}) == nodes
  {
  }

  lemma SiblingsApart(nodes: Nodes, depth: map<string, nat>, root: string, parentId: string, done: set<string>, c: string)
    requires IsTree(nodes, depth, root) && c in nodes && nodes[c].parentId == parentId != "" && c !in done
    requires forall d :: d in done ==> d in nodes && nodes[d].parentId == parentId
    ensures c in Without(nodes, depth, done) && parentId in depth && c in depth && depth[c] == depth[parentId] + 1
  {
    hide ValidPart;
    forall d | d in done
      ensures !Under(nodes, depth, d, c)
    {
      if Under(nodes, depth, d, c) {
        UnderIsDeeper(nodes, depth, d, c);
      }
    }
  }

  lemma OnlyUnder(nodes: Nodes, depth: map<string, nat>, id: string)
    requires Rooted(nodes, depth)
    ensures forall n :: n in nodes ==> (n in Without(nodes, depth, {id}) <==> !Under(nodes, depth, id, n))
  {
    assert id in {id};
  }

  /** In a valid API every stored path splits back into the parts from the root, and no two are the same. */
  lemma StoredPaths(api: RestApi, m: string, n: string)
    requires api.Valid() && m in api.resources && n in api.resources
    ensures SplitPath(api.resources[n].path) == Parts(api.resources, api.depth, n)
    ensures m != n ==> api.resources[m].path != api.resources[n].path
  {
    hide ValidPart;
    PartsAreGood(api.resources, api.depth, api.root, n);
    PathSplitsBack(Parts(api.resources, api.depth, n));
    if m != n {
      PathsDistinct(api.resources, api.depth, api.root, m, n);
    }
  }

  // ---- Which templates can tie ----

  /** Whether the literals of two templates agree wherever both have one before their greedy segments. */
  predicate Compatible(p: seq<string>, q: seq<string>) {
    && (IsProxy(p) || IsProxy(q) || |p| == |q|)
    && forall i :: 0 <= i < GreedyAt(p) && i < GreedyAt(q) ==> IsParam(p[i]) || IsParam(q[i]) || p[i] == q[i]
  }

  /** A request for both of two templates: their literals, and "x" where neither has one. */
  function Common(p: seq<string>, q: seq<string>): (m: seq<string>)
    ensures |m| == if GreedyAt(p) > GreedyAt(q) then GreedyAt(p) else GreedyAt(q)
  {
    var n := if GreedyAt(p) > GreedyAt(q) then GreedyAt(p) else GreedyAt(q);
    seq(n, i requires 0 <= i < n =>
      if i < GreedyAt(p) && !IsParam(p[i]) then p[i] else if i < GreedyAt(q) && !IsParam(q[i]) then q[i] else "x")
  }

  /** Two templates that neither prefers over the other have a request in common, and so can tie, exactly
      when their literals are compatible. */
  lemma CanTieIff(p: seq<string>, q: seq<string>)
    requires GoodParts(p) && GoodParts(q) && IsProxy(p) == IsProxy(q)
    ensures (exists path :: Fits(p, SplitPath(path)) && Fits(q, SplitPath(path))) <==> Compatible(p, q)
  {
    hide SplitPath, IsParam;
    if Compatible(p, q) {
      var m := Common(p, q);
      assert GoodParts(m);
      PathSplitsBack(m);
      assert Fits(p, m) && Fits(q, m);
      assert Fits(p, SplitPath(PathOf(m))) && Fits(q, SplitPath(PathOf(m)));
    }
    if path :| Fits(p, SplitPath(path)) && Fits(q, SplitPath(path)) {
      var want := SplitPath(path);
      assert forall i :: 0 <= i < GreedyAt(p) && i < GreedyAt(q) ==> (IsParam(p[i]) || p[i] == want[i]) && (IsParam(q[i]) || q[i] == want[i]);
    }
  }

  /** Where no two resources' templates are alike and compatible, every request has one answer at most,
      whatever the order resources are looked at in. */
  lemma NoTemplatesTie(resources: map<string, Routing.Resource>, path: string, a: Option<Routing.Resource>, b: Option<Routing.Resource>)
    requires forall i :: i in resources ==> GoodParts(SplitPath(resources[i].path))
    requires forall i, j :: i in resources && j in resources && resources[i] != resources[j] ==>
               !(Routing.Alike(SplitPath(resources[i].path), SplitPath(resources[j].path))
                 && Compatible(SplitPath(resources[i].path), SplitPath(resources[j].path)))
    requires Routing.Resolves(resources, SplitPath(path), a) && Routing.Resolves(resources, SplitPath(path), b)
    ensures a == b
  {
    hide Compatible, Fits, SplitPath, IsProxy, ParamCount, GoodParts;
    if a.Some? && b.Some? {
      var i :| i in resources && resources[i] == a.value;
      var j :| j in resources && resources[j] == b.value;
      Routing.AlsoRightIff(resources, SplitPath(path), a.value, j);
      CanTieIff(SplitPath(a.value.path), SplitPath(b.value.path));
    }
  }

  /** For /y/x, the templates /{a}/x and /y/{b} tie. */
  lemma TemplatesCanTie()
    ensures var a, b := Routing.Resource("1", PathOf(["{a}", "x"])), Routing.Resource("2", PathOf(["y", "{b}"]));
            && Routing.Resolves(map[a.id := a, b.id := b], ["y", "x"], Some(a))
            && Routing.Resolves(map[a.id := a, b.id := b], ["y", "x"], Some(b))
  {
    var p, q := ["{a}", "x"], ["y", "{b}"];
    PathSplitsBack(p);
    PathSplitsBack(q);
    TwoSegments("{a}", "x");
    TwoSegments("y", "{b}");
    assert Fits(p, ["y", "x"]) && Fits(q, ["y", "x"]);
    hide Fits, IsProxy, ParamCount, SplitPath, PathOf, Routing.Resolves;
    TwoThatTie(Routing.Resource("1", PathOf(p)), Routing.Resource("2", PathOf(q)), ["y", "x"]);
  }

  lemma TwoThatTie(a: Routing.Resource, b: Routing.Resource, want: seq<string>)
    requires Fits(SplitPath(a.path), want) && Fits(SplitPath(b.path), want) && a.id != b.id
    requires Routing.Alike(SplitPath(a.path), SplitPath(b.path))
    ensures Routing.Resolves(map[a.id := a, b.id := b], want, Some(a)) && Routing.Resolves(map[a.id := a, b.id := b], want, Some(b))
  {
    hide Fits, IsProxy, ParamCount, SplitPath;
    var both := map[a.id := a, b.id := b];
    assert both[a.id] == a && both[b.id] == b;
    Routing.AlsoRightIff(both, want, a, b.id);
  }

  lemma TwoSegments(s: string, t: string)
    requires !IsGreedy(s) && !IsGreedy(t)
    ensures GreedyAt([s, t]) == 2 && !IsProxy([s, t])
    ensures ParamCount([s, t]) == (if "{" <= s then 1 else 0) + (if "{" <= t then 1 else 0)
  {
    hide IsGreedy;
    assert [s, t][1..] == [t] && [t][1..] == [];
    assert [s, t][..1] == [s] && [s][..0] == [];
    assert GreedyAt([t]) == 1 + GreedyAt([]);
  }
}
