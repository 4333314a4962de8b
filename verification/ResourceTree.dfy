/** A REST API's resources: a tree under creates and deletes, with the paths that are kept in step with it. */
module ResourceTree {
  import opened Text
  import opened PathMatching

  class Resource {
    const id: string
    const parentId: string
    const pathPart: string
    var path: string

    constructor (id: string, parentId: string, pathPart: string)
      ensures this.id == id && this.parentId == parentId && this.pathPart == pathPart && path == ""
    {
      this.id, this.parentId, this.pathPart := id, parentId, pathPart;
      path := "";
    }
  }

  type Nodes = map<string, Resource>

  // ---- Path parts ----

  predicate PartChar(c: char) {
    'a' <= c <= 'z' || 'A' <= c <= 'Z' || '0' <= c <= '9' || c == '.' || c == '_' || c == '-'
  }

  /** Plain characters, or a variable in braces with an optional plus before the closing one. */
  predicate ValidPart(part: string) {
    || (part != "" && forall i :: 0 <= i < |part| ==> PartChar(part[i]) || part[i] == ':')
    || (|part| >= 3 && part[0] == '{' && part[|part| - 1] == '}'
        && var inner := part[1..|part| - 1];
           var name := if inner[|inner| - 1] == '+' then inner[..|inner| - 1] else inner;
           name != "" && forall i :: 0 <= i < |name| ==> PartChar(name[i]))
  }

  lemma ValidPartHasNoSlash(part: string)
    requires ValidPart(part)
    ensures part != "" && '/' !in part
  {
    if part[0] == '{' {
      var inner := part[1..|part| - 1];
      assert forall i :: 0 < i < |part| - 1 ==> part[i] == inner[i - 1];
      var name := if inner[|inner| - 1] == '+' then inner[..|inner| - 1] else inner;
      assert forall i :: 0 <= i < |name| ==> name[i] == inner[i];
    }
  }

  // ---- The tree ----

  /** A resource without a parent is at the top; any other has its parent there, one level up. */
  ghost predicate AtItsLevel(nodes: Nodes, depth: map<string, nat>, n: string)
    requires n in nodes
  {
    && n in depth && n != "" && nodes[n].id == n
    && if nodes[n].parentId == "" then depth[n] == 0
       else nodes[n].parentId in nodes && nodes[n].parentId in depth && depth[n] == depth[nodes[n].parentId] + 1
  }

  ghost predicate Rooted(nodes: Nodes, depth: map<string, nat>) {
    forall n :: n in nodes ==> AtItsLevel(nodes, depth, n)
  }

  /** A tree: one root, the others under it, siblings told apart by valid path parts. */
  ghost predicate IsTree(nodes: Nodes, depth: map<string, nat>, root: string) {
    && Rooted(nodes, depth)
    && root in nodes && nodes[root].parentId == ""
    && (forall n :: n in nodes && n != root ==> nodes[n].parentId != "" && ValidPart(nodes[n].pathPart))
    && SiblingsDiffer(nodes)
  }

  ghost predicate SiblingsDiffer(nodes: Nodes) {
    forall m, n :: m in nodes && n in nodes && m != n && nodes[m].parentId == nodes[n].parentId ==> nodes[m].pathPart != nodes[n].pathPart
  }

  /** The path parts from the root down to a resource. */
  ghost function Parts(nodes: Nodes, depth: map<string, nat>, n: string): seq<string>
    requires Rooted(nodes, depth) && n in nodes
    decreases depth[n]
  {
    if nodes[n].parentId == "" then [] else Parts(nodes, depth, nodes[n].parentId) + [nodes[n].pathPart]
  }

  /** Whether a resource is another, or below it. */
  ghost predicate Under(nodes: Nodes, depth: map<string, nat>, top: string, n: string)
    requires Rooted(nodes, depth) && n in nodes
    decreases depth[n]
  {
    n == top || (nodes[n].parentId != "" && Under(nodes, depth, top, nodes[n].parentId))
  }

  function PathOf(parts: seq<string>): string {
    "/" + Join(parts, '/')
  }

  predicate GoodParts(parts: seq<string>) {
    forall i :: 0 <= i < |parts| ==> parts[i] != "" && '/' !in parts[i]
  }

  lemma {:induction false} PartsAreGood(nodes: Nodes, depth: map<string, nat>, root: string, n: string)
    requires IsTree(nodes, depth, root) && n in nodes
    ensures GoodParts(Parts(nodes, depth, n))
    decreases depth[n]
  {
    hide ValidPart;
    if nodes[n].parentId != "" {
      PartsAreGood(nodes, depth, root, nodes[n].parentId);
      ValidPartHasNoSlash(nodes[n].pathPart);
    }
  }

  /** Everything is under the root. */
  lemma {:induction false} AllUnderRoot(nodes: Nodes, depth: map<string, nat>, root: string, n: string)
    requires IsTree(nodes, depth, root) && n in nodes
    ensures Under(nodes, depth, root, n)
    decreases depth[n]
  {
    if n != root {
      AllUnderRoot(nodes, depth, root, nodes[n].parentId);
    }
  }

  /** No two resources have the same parts. */
  lemma {:induction false} PartsDistinct(nodes: Nodes, depth: map<string, nat>, root: string, m: string, n: string)
    requires IsTree(nodes, depth, root) && m in nodes && n in nodes
    requires Parts(nodes, depth, m) == Parts(nodes, depth, n)
    ensures m == n
    decreases depth[m]
  {
    hide ValidPart;
    var a, b := Parts(nodes, depth, m), Parts(nodes, depth, n);
    if m != root && n != root {
      assert a[..|a| - 1] == Parts(nodes, depth, nodes[m].parentId) && b[..|b| - 1] == Parts(nodes, depth, nodes[n].parentId);
      assert a[|a| - 1] == nodes[m].pathPart && b[|b| - 1] == nodes[n].pathPart;
      PartsDistinct(nodes, depth, root, nodes[m].parentId, nodes[n].parentId);
    }
  }

  // ---- Paths ----

  /** The path one level down. */
  lemma {:induction false} JoinOneMore(parts: seq<string>, part: string)
    ensures Join(parts + [part], '/') == if parts == [] then part else Join(parts, '/') + "/" + part
    decreases |parts|
  {
    if |parts| > 0 {
      assert (parts + [part])[1..] == parts[1..] + [part];
      JoinOneMore(parts[1..], part);
      if |parts| == 1 {
        assert parts[1..] == [];
      }
    } else {
      assert parts + [part] == [part];
    }
  }

  lemma ChildPath(parts: seq<string>, part: string)
    requires GoodParts(parts)
    ensures PathOf(parts + [part]) == if PathOf(parts) == "/" then "/" + part else PathOf(parts) + "/" + part
  {
    JoinOneMore(parts, part);
    if parts != [] {
      JoinStarts(parts);
      assert PathOf(parts)[0] == '/' && |PathOf(parts)| > 1;
    }
  }

  lemma JoinStarts(parts: seq<string>)
    requires parts != [] && GoodParts(parts)
    ensures Join(parts, '/') != "" && Join(parts, '/')[0] == parts[0][0] != '/'
  {
    assert parts[0][0] in parts[0];
  }

  lemma {:induction false} JoinEnds(parts: seq<string>)
    requires parts != [] && GoodParts(parts)
    ensures var t := Join(parts, '/'); t != "" && t[|t| - 1] != '/'
    decreases |parts|
  {
    if |parts| == 1 {
      assert parts[0][|parts[0]| - 1] in parts[0];
    } else {
      JoinEnds(parts[1..]);
    }
  }

  /** A path splits back into its parts. */
  lemma PathSplitsBack(parts: seq<string>)
    requires GoodParts(parts)
    ensures SplitPath(PathOf(parts)) == parts
  {
    var p, t := PathOf(parts), Join(parts, '/');
    assert p[1..] == t;
    if parts == [] {
      assert TrimSlashesLeft(p) == TrimSlashesLeft(t) == "";
    } else {
      JoinStarts(parts);
      JoinEnds(parts);
      assert TrimSlashesLeft(p) == TrimSlashesLeft(t) == t;
      assert TrimSlashesRight(t) == t;
      SplitJoin(parts, '/');
    }
  }

  /** No two resources have the same path. */
  lemma PathsDistinct(nodes: Nodes, depth: map<string, nat>, root: string, m: string, n: string)
    requires IsTree(nodes, depth, root) && m in nodes && n in nodes && m != n
    ensures PathOf(Parts(nodes, depth, m)) != PathOf(Parts(nodes, depth, n))
  {
    PartsAreGood(nodes, depth, root, m);
    PartsAreGood(nodes, depth, root, n);
    PathSplitsBack(Parts(nodes, depth, m));
    PathSplitsBack(Parts(nodes, depth, n));
    if Parts(nodes, depth, m) == Parts(nodes, depth, n) {
      PartsDistinct(nodes, depth, root, m, n);
    }
  }

  // ---- Growing and pruning ----

  /** Part of a tree that has each parent it needs sees the same of what is above it. */
  lemma {:induction false} PruningKeepsUnder(nodes: Nodes, fewer: Nodes, depth: map<string, nat>, top: string, n: string)
    requires Rooted(nodes, depth) && Rooted(fewer, depth) && n in fewer
    requires forall m :: m in fewer ==> m in nodes && fewer[m] == nodes[m]
    ensures Under(fewer, depth, top, n) == Under(nodes, depth, top, n)
    ensures Parts(fewer, depth, n) == Parts(nodes, depth, n)
    decreases depth[n]
  {
    if nodes[n].parentId != "" {
      PruningKeepsUnder(nodes, fewer, depth, top, nodes[n].parentId);
    }
  }

  /** A tree without some of its subtrees. */
  ghost function Without(nodes: Nodes, depth: map<string, nat>, tops: set<string>): Nodes
    requires Rooted(nodes, depth)
  {
    map n | n in nodes && !UnderAny(nodes, depth, tops, n) :: nodes[n]
  }

  ghost predicate UnderAny(nodes: Nodes, depth: map<string, nat>, tops: set<string>, n: string)
    requires Rooted(nodes, depth) && n in nodes
  {
    exists t :: t in tops && Under(nodes, depth, t, n)
  }

  lemma WithoutIsTree(nodes: Nodes, depth: map<string, nat>, root: string, tops: set<string>)
    requires IsTree(nodes, depth, root) && root !in tops
    ensures IsTree(Without(nodes, depth, tops), depth, root)
  {
    hide ValidPart;
    var fewer := Without(nodes, depth, tops);
    forall n | n in fewer && nodes[n].parentId != ""
      ensures nodes[n].parentId in fewer
    {
      var p := nodes[n].parentId;
      forall t | t in tops
        ensures !Under(nodes, depth, t, p)
      {
        assert !Under(nodes, depth, t, n);
      }
    }
  }

  /** Taking one more subtree away. */
  lemma WithoutOneMore(nodes: Nodes, depth: map<string, nat>, root: string, tops: set<string>, top: string)
    requires IsTree(nodes, depth, root) && root !in tops && top != root
    requires IsTree(Without(nodes, depth, tops), depth, root)
    ensures Without(Without(nodes, depth, tops), depth, {top}) == Without(nodes, depth, tops + {top})
  {
    TreeIsRooted(nodes, depth, root);
    var fewer := Without(nodes, depth, tops);
    TreeIsRooted(fewer, depth, root);
    hide IsTree;
    hide Rooted;
    forall n | n in fewer
      ensures UnderAny(fewer, depth, {top}, n) <==> UnderAny(nodes, depth, {top}, n)
    {
      PruningKeepsUnder(nodes, fewer, depth, top, n);
    }
    forall n | n in nodes
      ensures UnderAny(nodes, depth, tops + {top}, n) <==> UnderAny(nodes, depth, tops, n) || UnderAny(nodes, depth, {top}, n)
    {
      assert forall t :: t in tops + {top} <==> t in tops || t == top;
      assert top in {top};
    }
  }

  lemma TreeIsRooted(nodes: Nodes, depth: map<string, nat>, root: string)
    requires IsTree(nodes, depth, root)
    ensures Rooted(nodes, depth)
  {
  }

  /** A subtree is its top and the subtrees of its children. */
  lemma WithoutChildrenAndTop(nodes: Nodes, depth: map<string, nat>, root: string, top: string, children: set<string>)
    requires IsTree(nodes, depth, root) && top in nodes
    requires forall c :: c in children <==> c in nodes && nodes[c].parentId == top
    ensures Without(nodes, depth, children) - {top} == Without(nodes, depth, {top})
  {
    TreeIsRooted(nodes, depth, root);
    hide IsTree;
    forall n | n in nodes && n != top
      ensures UnderAny(nodes, depth, children, n) <==> UnderAny(nodes, depth, {top}, n)
    {
      UnderThroughChild(nodes, depth, top, children, n);
    }
    assert UnderAny(nodes, depth, {top}, top) by {
      assert top in {top} && Under(nodes, depth, top, top);
    }
  }

  lemma UnderThroughChild(nodes: Nodes, depth: map<string, nat>, top: string, children: set<string>, n: string)
    requires Rooted(nodes, depth) && n in nodes && top in nodes && n != top
    requires forall c :: c in children <==> c in nodes && nodes[c].parentId == top
    ensures UnderAny(nodes, depth, children, n) <==> UnderAny(nodes, depth, {top}, n)
  {
    UnderOne(nodes, depth, top, n);
    if Under(nodes, depth, top, n) {
      var c := ChildAbove(nodes, depth, top, n);
      hide Rooted, Under;
      assert c in children && Under(nodes, depth, c, n);
    }
    if UnderAny(nodes, depth, children, n) {
      var c :| c in children && Under(nodes, depth, c, n);
      BelowChild(nodes, depth, top, c, n);
    }
  }

  lemma UnderOne(nodes: Nodes, depth: map<string, nat>, top: string, n: string)
    requires Rooted(nodes, depth) && n in nodes
    ensures UnderAny(nodes, depth, {top}, n) <==> Under(nodes, depth, top, n)
  {
    hide Rooted, Under;
    assert top in {top};
  }

  /** The child a descendant is below. */
  lemma {:induction false} ChildAbove(nodes: Nodes, depth: map<string, nat>, top: string, n: string) returns (c: string)
    requires Rooted(nodes, depth) && n in nodes && n != top && Under(nodes, depth, top, n)
    ensures c in nodes && nodes[c].parentId == top && Under(nodes, depth, c, n)
    decreases depth[n]
  {
    if nodes[n].parentId == top {
      c := n;
    } else {
      c := ChildAbove(nodes, depth, top, nodes[n].parentId);
    }
  }

  lemma {:induction false} BelowChild(nodes: Nodes, depth: map<string, nat>, top: string, c: string, n: string)
    requires Rooted(nodes, depth) && n in nodes && c in nodes && top in nodes && nodes[c].parentId == top
    requires Under(nodes, depth, c, n)
    ensures Under(nodes, depth, top, n)
    decreases depth[n]
  {
    if n != c {
      BelowChild(nodes, depth, top, c, nodes[n].parentId);
    }
  }

  /** Nothing is below its own child. */
  lemma {:induction false} UnderIsDeeper(nodes: Nodes, depth: map<string, nat>, top: string, n: string)
    requires Rooted(nodes, depth) && n in nodes && Under(nodes, depth, top, n)
    ensures top in nodes && depth[top] <= depth[n] && (n != top ==> depth[top] < depth[n])
    decreases depth[n]
  {
    if n != top {
      UnderIsDeeper(nodes, depth, top, nodes[n].parentId);
    }
  }

  // ---- Moving ----

  /** Whether some resource is a root under which all of them are a tree. */
  ghost predicate IsSomeTree(nodes: Nodes) {
    exists depth, root :: IsTree(nodes, depth, root)
  }

  /** Where a resource can be put with a part: below a resource that is there and not below it, none of whose
      other children has the part. */
  ghost predicate FitsUnder(nodes: Nodes, depth: map<string, nat>, n: string, parentId: string, part: string)
    requires Rooted(nodes, depth)
  {
    && parentId in nodes && !Under(nodes, depth, n, parentId)
    && ValidPart(part)
    && forall m :: m in nodes && m != n && nodes[m].parentId == parentId ==> nodes[m].pathPart != part
  }

  /** Giving a resource another parent and part leaves a tree exactly when it fits there; the root stays one
      exactly as long as it gets no parent. */
  lemma MovedIsTreeIff(nodes: Nodes, depth: map<string, nat>, root: string, n: string, moved: Resource)
    requires IsTree(nodes, depth, root) && n in nodes && moved.id == n
    ensures IsSomeTree(nodes[n := moved])
            <==> if n == root then moved.parentId == "" else FitsUnder(nodes, depth, n, moved.parentId, moved.pathPart)
  {
    hide ValidPart;
    var nodes' := nodes[n := moved];
    if n == root {
      if moved.parentId == "" {
        RootMoves(nodes, depth, root, moved);
      }
    } else if FitsUnder(nodes, depth, n, moved.parentId, moved.pathPart) {
      var depth' := MovedIsTree(nodes, depth, root, n, moved);
    }
    if depth', root' :| IsTree(nodes', depth', root') {
      TreeFits(nodes, depth, root, n, moved, depth', root');
    }
  }

  lemma RootMoves(nodes: Nodes, depth: map<string, nat>, root: string, moved: Resource)
    requires IsTree(nodes, depth, root) && moved.id == root && moved.parentId == ""
    ensures IsTree(nodes[root := moved], depth, root)
  {
    hide ValidPart, Rooted, SiblingsDiffer;
    TreeIsRooted(nodes, depth, root);
    TreeSiblings(nodes, depth, root);
    RootMovesRooted(nodes, depth, root, moved);
    MovedSiblings(nodes, root, moved);
  }

  lemma RootMovesRooted(nodes: Nodes, depth: map<string, nat>, root: string, moved: Resource)
    requires Rooted(nodes, depth) && root in nodes && nodes[root].parentId == "" && moved.id == root && moved.parentId == ""
    ensures Rooted(nodes[root := moved], depth)
  {
  }

  lemma NoBlankIds(nodes: Nodes, depth: map<string, nat>)
    requires Rooted(nodes, depth)
    ensures "" !in nodes
  {
  }

  /** The levels of a tree once a subtree hangs from another resource. */
  ghost function MovedDepth(nodes: Nodes, depth: map<string, nat>, n: string, parentId: string): map<string, nat>
    requires Rooted(nodes, depth) && n in nodes && parentId in nodes
  {
    map m | m in nodes :: if Under(nodes, depth, n, m) && depth[m] >= depth[n] then depth[m] - depth[n] + depth[parentId] + 1 else depth[m]
  }

  lemma MovedIsTree(nodes: Nodes, depth: map<string, nat>, root: string, n: string, moved: Resource) returns (depth': map<string, nat>)
    requires IsTree(nodes, depth, root) && n in nodes && n != root && moved.id == n
    requires FitsUnder(nodes, depth, n, moved.parentId, moved.pathPart)
    ensures IsTree(nodes[n := moved], depth', root)
  {
    hide ValidPart, Rooted, MovedDepth, Under, SiblingsDiffer;
    TreeIsRooted(nodes, depth, root);
    TreeSiblings(nodes, depth, root);
    NoBlankIds(nodes, depth);
    OnlyRoot(nodes, depth, root, n);
    depth' := MovedDepth(nodes, depth, n, moved.parentId);
    MovedIsRooted(nodes, depth, n, moved);
    MovedSiblings(nodes, n, moved);
  }

  lemma MovedIsRooted(nodes: Nodes, depth: map<string, nat>, n: string, moved: Resource)
    requires Rooted(nodes, depth) && n in nodes && moved.id == n && nodes[n].parentId != ""
    requires moved.parentId in nodes && !Under(nodes, depth, n, moved.parentId)
    ensures Rooted(nodes[n := moved], MovedDepth(nodes, depth, n, moved.parentId))
  {
    hide Under, MovedDepth;
    forall m | m in nodes
      ensures AtItsLevel(nodes[n := moved], MovedDepth(nodes, depth, n, moved.parentId), m)
    {
      MovedLevel(nodes, depth, n, moved, m);
    }
  }

  lemma MovedLevel(nodes: Nodes, depth: map<string, nat>, n: string, moved: Resource, m: string)
    requires Rooted(nodes, depth) && n in nodes && moved.id == n && nodes[n].parentId != "" && m in nodes
    requires moved.parentId in nodes && !Under(nodes, depth, n, moved.parentId)
    ensures AtItsLevel(nodes[n := moved], MovedDepth(nodes, depth, n, moved.parentId), m)
  {
    if m != n {
      if Under(nodes, depth, n, m) {
        UnderIsDeeper(nodes, depth, n, m);
        UnderIsDeeper(nodes, depth, n, nodes[m].parentId);
      }
    }
  }

  lemma MovedSiblings(nodes: Nodes, n: string, moved: Resource)
    requires SiblingsDiffer(nodes) && n in nodes
    requires forall m :: m in nodes && m != n && nodes[m].parentId == moved.parentId ==> nodes[m].pathPart != moved.pathPart
    ensures SiblingsDiffer(nodes[n := moved])
  {
  }

  lemma TreeFits(nodes: Nodes, depth: map<string, nat>, root: string, n: string, moved: Resource, depth': map<string, nat>, root': string)
    requires IsTree(nodes, depth, root) && n in nodes && moved.id == n && IsTree(nodes[n := moved], depth', root')
    ensures if n == root then moved.parentId == "" else FitsUnder(nodes, depth, n, moved.parentId, moved.pathPart)
  {
    var nodes' := nodes[n := moved];
    TreeIsRooted(nodes, depth, root);
    TreeIsRooted(nodes', depth', root');
    HasItsParent(nodes, depth, root, n, moved, depth', root');
    if n != root {
      hide IsTree, Rooted, ValidPart;
      if Under(nodes, depth, n, moved.parentId) {
        StaysDeeper(nodes, depth, n, moved, depth', moved.parentId);
      }
      TreeSiblings(nodes', depth', root');
      SiblingsOf(nodes, n, moved);
    }
  }

  lemma TreeSiblings(nodes: Nodes, depth: map<string, nat>, root: string)
    requires IsTree(nodes, depth, root)
    ensures SiblingsDiffer(nodes)
  {
  }

  lemma SiblingsOf(nodes: Nodes, n: string, moved: Resource)
    requires SiblingsDiffer(nodes[n := moved])
    ensures forall m :: m in nodes && m != n && nodes[m].parentId == moved.parentId ==> nodes[m].pathPart != moved.pathPart
  {
    var nodes' := nodes[n := moved];
    forall m | m in nodes && m != n
      ensures nodes'[m] == nodes[m] && nodes'[n] == moved
    {
    }
  }

  /** In a tree with the resource moved, the root is the root, and it is one level below its parent. */
  lemma HasItsParent(nodes: Nodes, depth: map<string, nat>, root: string, n: string, moved: Resource, depth': map<string, nat>, root': string)
    requires IsTree(nodes, depth, root) && n in nodes && IsTree(nodes[n := moved], depth', root')
    ensures n == root ==> moved.parentId == ""
    ensures n != root ==>
              && moved.parentId in nodes && ValidPart(moved.pathPart)
              && n in depth' && moved.parentId in depth' && depth'[n] == depth'[moved.parentId] + 1
  {
    hide ValidPart, SiblingsDiffer;
    var nodes' := nodes[n := moved];
    OnlyRoot(nodes, depth, root, root');
    assert n != root' ==> nodes'[root'] == nodes[root'];
    assert n != root ==> nodes'[root] == nodes[root];
    assert nodes'[n] == moved;
  }

  /** Nothing but the root is without a parent. */
  lemma OnlyRoot(nodes: Nodes, depth: map<string, nat>, root: string, m: string)
    requires IsTree(nodes, depth, root)
    ensures m in nodes ==> (nodes[m].parentId == "" <==> m == root)
  {
    hide ValidPart, SiblingsDiffer, Rooted;
  }

  /** Whatever was below a resource is no higher than it wherever it is put. */
  lemma {:induction false} StaysDeeper(nodes: Nodes, depth: map<string, nat>, n: string, moved: Resource, depth': map<string, nat>, m: string)
    requires Rooted(nodes, depth) && n in nodes && Rooted(nodes[n := moved], depth') && m in nodes && Under(nodes, depth, n, m)
    ensures m in depth' && n in depth' && depth'[m] >= depth'[n]
    decreases depth[m]
  {
    var nodes' := nodes[n := moved];
    assert AtItsLevel(nodes', depth', m);
    if m != n {
      assert nodes'[m] == nodes[m];
      StaysDeeper(nodes, depth, n, moved, depth', nodes[m].parentId);
    }
  }

  /** A resource that is given its own child as its parent: the two are a circle, and nothing is a tree. */
  lemma CircleIsNoTree(nodes: Nodes, depth: map<string, nat>, root: string, n: string, child: string, moved: Resource)
    requires IsTree(nodes, depth, root) && n in nodes && n != root && moved.id == n
    requires child in nodes && nodes[child].parentId == n && moved.parentId == child
    ensures !IsSomeTree(nodes[n := moved])
  {
    assert Under(nodes, depth, n, child);
    MovedIsTreeIff(nodes, depth, root, n, moved);
  }
}
