/** `JoinGraph` of crates/graphnight-core/src/join.rs: building the graph, finding one path, and joining
    every model a query needs. */
module JoinGraph {
  import opened Results
  import opened JoinPaths

  datatype Model = Model(name: string, joins: seq<Join>)

  datatype JoinError = NoJoinPath(from: string, to: string)

  // ---------- the graph ----------

  function Link(adj: Adjacency, model: string, edge: JoinEdge): Adjacency {
    adj[model := Edges(adj, model) + [edge]]
  }

  function Swapped(on: seq<(string, string)>): seq<(string, string)> {
    seq(|on|, i requires 0 <= i < |on| => (on[i].1, on[i].0))
  }

  function ForwardEdge(join: Join): JoinEdge {
    JoinEdge(join.model, join, false)
  }

  function ReverseEdge(name: string, join: Join): JoinEdge {
    JoinEdge(name, Join(join.name + "_reverse", name, join.joinType, Swapped(join.on), None), true)
  }

  function WithJoin(adj: Adjacency, name: string, join: Join): Adjacency {
    Link(Link(adj, name, ForwardEdge(join)), join.model, ReverseEdge(name, join))
  }

  function WithJoins(adj: Adjacency, name: string, joins: seq<Join>): Adjacency {
    if joins == [] then adj else WithJoin(WithJoins(adj, name, joins[..|joins| - 1]), name, joins[|joins| - 1])
  }

  lemma WithJoinsStep(adj: Adjacency, name: string, joins: seq<Join>, i: nat)
    requires i < |joins|
    ensures WithJoins(adj, name, joins[..i + 1]) == WithJoin(WithJoins(adj, name, joins[..i]), name, joins[i])
  {
    assert joins[..i + 1][..i] == joins[..i];
  }

  function GraphOf(models: seq<Model>): Adjacency {
    if models == [] then map[]
    else WithJoins(GraphOf(models[..|models| - 1]), models[|models| - 1].name, models[|models| - 1].joins)
  }

  /** Every edge can be walked back. */
  ghost predicate Symmetric(adj: Adjacency) {
    forall model, edge {:trigger Returns(adj, model, edge)} :: edge in Edges(adj, model) ==> Returns(adj, model, edge)
  }

  ghost predicate Returns(adj: Adjacency, model: string, edge: JoinEdge) {
    exists back :: back in Edges(adj, edge.target) && back.target == model
  }

  lemma LinkKeepsEdges(adj: Adjacency, model: string, edge: JoinEdge)
    ensures forall m, e :: e in Edges(Link(adj, model, edge), m) <==> e in Edges(adj, m) || (m == model && e == edge)
  {
  }

  lemma WithJoinKeepsSymmetric(adj: Adjacency, name: string, join: Join)
    requires Symmetric(adj)
    ensures Symmetric(WithJoin(adj, name, join))
  {
    var adj' := WithJoin(adj, name, join);
    var there, back := ForwardEdge(join), ReverseEdge(name, join);
    LinkKeepsEdges(adj, name, there);
    LinkKeepsEdges(Link(adj, name, there), join.model, back);
    assert there in Edges(adj', name) && back in Edges(adj', join.model);
    forall model, edge | edge in Edges(adj', model) ensures Returns(adj', model, edge) {
      if edge in Edges(adj, model) {
        assert Returns(adj, model, edge);
      } else {
        assert (model == name && edge == there) || (model == join.model && edge == back);
      }
    }
  }

  lemma {:induction false} WithJoinsKeepsSymmetric(adj: Adjacency, name: string, joins: seq<Join>)
    requires Symmetric(adj)
    ensures Symmetric(WithJoins(adj, name, joins))
  {
    if joins != [] {
      var n := |joins| - 1;
      WithJoinsKeepsSymmetric(adj, name, joins[..n]);
      WithJoinKeepsSymmetric(WithJoins(adj, name, joins[..n]), name, joins[n]);
    }
  }

  lemma {:induction false} GraphIsSymmetric(models: seq<Model>)
    ensures Symmetric(GraphOf(models))
  {
    if models != [] {
      var n := |models| - 1;
      GraphIsSymmetric(models[..n]);
      WithJoinsKeepsSymmetric(GraphOf(models[..n]), models[n].name, models[n].joins);
    }
  }

  lemma SymmetricStays(adj: Adjacency, name: string, joins: seq<Join>)
    ensures Symmetric(adj) ==> Symmetric(WithJoins(adj, name, joins))
  {
    if Symmetric(adj) {
      WithJoinsKeepsSymmetric(adj, name, joins);
    }
  }

  /** Walked backwards, a walk of a symmetric graph is as long as it was forwards. */
  lemma {:induction false} ReverseWalk(adj: Adjacency, from: string, walk: Path, to: string) returns (back: Path)
    requires Symmetric(adj) && IsWalk(adj, from, walk, to)
    ensures IsWalk(adj, to, back, from) && |back| == |walk|
    decreases |walk|
  {
    if walk == [] {
      back := [];
    } else {
      var n := |walk| - 1;
      var before := NodeAt(from, walk, n);
      WalkInit(adj, from, walk, to);
      var rest := ReverseWalk(adj, from, walk[..n], before);
      assert Returns(adj, before, walk[n]);
      var first :| first in Edges(adj, to) && first.target == before;
      back := [first] + rest;
      WalkCons(adj, to, first, rest, from);
    }
  }

  lemma WalkConsAt(adj: Adjacency, from: string, first: JoinEdge, rest: Path, to: string, k: int)
    requires IsWalk(adj, first.target, rest, to) && 0 < k <= |rest|
    ensures ([first] + rest)[k] in Edges(adj, NodeAt(from, [first] + rest, k))
  {
    var walk := [first] + rest;
    assert walk[k] == rest[k - 1];
    assert NodeAt(from, walk, k) == NodeAt(first.target, rest, k - 1);
    assert rest[k - 1] in Edges(adj, NodeAt(first.target, rest, k - 1));
  }

  lemma WalkCons(adj: Adjacency, from: string, first: JoinEdge, rest: Path, to: string)
    requires first in Edges(adj, from) && IsWalk(adj, first.target, rest, to)
    ensures IsWalk(adj, from, [first] + rest, to)
  {
    var walk := [first] + rest;
    assert NodeAt(from, walk, |walk|) == NodeAt(first.target, rest, |rest|);
    forall k | 0 <= k < |walk| ensures walk[k] in Edges(adj, NodeAt(from, walk, k)) {
      if k > 0 {
        WalkConsAt(adj, from, first, rest, to, k);
      }
    }
  }

  /** Searching from either end succeeds together and finds paths of the same length. */
  lemma PathsBothWays(adj: Adjacency, a: string, b: string)
    requires Symmetric(adj)
    ensures b in Tree(adj, a) <==> a in Tree(adj, b)
    ensures b in Tree(adj, a) ==> |Tree(adj, a)[b]| == |Tree(adj, b)[a]|
  {
    if b in Tree(adj, a) { NoLongerBack(adj, a, b); }
    if a in Tree(adj, b) { NoLongerBack(adj, b, a); }
  }

  lemma NoLongerBack(adj: Adjacency, a: string, b: string)
    requires Symmetric(adj) && b in Tree(adj, a)
    ensures a in Tree(adj, b) && |Tree(adj, b)[a]| <= |Tree(adj, a)[b]|
  {
    TreePathIsWalk(adj, a, b);
    var back := ReverseWalk(adj, a, Tree(adj, a)[b], b);
    TreeIsShortest(adj, b, back, a);
  }

  // ---------- joining everything a query needs ----------

  /** The paths to the required models, one after the other. */
  ghost function AllEdges(tree: map<string, Path>, base: string, required: seq<string>): Path
    requires forall m :: m in required ==> m == base || m in tree
  {
    if required == [] then []
    else
      var n := |required| - 1;
      AllEdges(tree, base, required[..n]) + (if required[n] == base then [] else tree[required[n]])
  }

  predicate Reaches(edges: Path, target: string) {
    exists edge :: edge in edges && edge.target == target
  }

  /** Keeps the first edge into each target. */
  function FirstByTarget(edges: Path): Path {
    if edges == [] then []
    else
      var kept := FirstByTarget(edges[..|edges| - 1]);
      if Reaches(kept, edges[|edges| - 1].target) then kept else kept + [edges[|edges| - 1]]
  }

  /** Each edge leaves the base or the target of an earlier edge. */
  ghost predicate Connected(adj: Adjacency, base: string, edges: Path) {
    forall i :: 0 <= i < |edges| ==> Attached(adj, base, edges, i)
  }

  ghost predicate Attached(adj: Adjacency, base: string, edges: Path, i: nat)
    requires i < |edges|
  {
    edges[i] in Edges(adj, base) || exists j :: 0 <= j < i && Follows(adj, edges[j], edges[i])
  }

  ghost predicate Follows(adj: Adjacency, before: JoinEdge, edge: JoinEdge) {
    edge in Edges(adj, before.target)
  }

  /** A join tree rooted at the base: no target twice, never the base, sources before targets. */
  ghost predicate JoinTree(adj: Adjacency, base: string, edges: Path) {
    && (forall i, j :: 0 <= i < j < |edges| ==> edges[i].target != edges[j].target)
    && (forall i :: 0 <= i < |edges| ==> edges[i].target != base)
    && Connected(adj, base, edges)
  }

  /** Every edge is the one by which the search tree reaches its target. */
  ghost predicate FromTree(tree: map<string, Path>, base: string, edges: Path) {
    forall edge {:trigger TreeEdge(tree, base, edge)} :: edge in edges ==> TreeEdge(tree, base, edge)
  }

  ghost predicate TreeEdge(tree: map<string, Path>, base: string, edge: JoinEdge) {
    && edge.target != base && edge.target in tree && tree[edge.target] != []
    && tree[edge.target][|tree[edge.target]| - 1] == edge
  }

  lemma PathEdgeFromTree(adj: Adjacency, base: string, tree: map<string, Path>, to: string, k: nat)
    requires Rooted(adj, base, tree) && to in tree && k < |tree[to]|
    ensures TreeEdge(tree, base, tree[to][k])
  {
    var path := tree[to];
    PrefixInTree(adj, base, tree, to, k + 1);
    assert NodeAt(base, path, k + 1) == path[k].target;
    assert path[..k + 1][k] == path[k];
  }

  lemma WalkIsConnected(adj: Adjacency, base: string, path: Path, to: string)
    requires IsWalk(adj, base, path, to)
    ensures Connected(adj, base, path)
  {
    forall i | 0 <= i < |path| ensures Attached(adj, base, path, i) {
      assert path[i] in Edges(adj, NodeAt(base, path, i));
      if i > 0 {
        assert NodeAt(base, path, i) == path[i - 1].target;
        assert Follows(adj, path[i - 1], path[i]);
      }
    }
  }

  lemma PathFromTree(adj: Adjacency, base: string, tree: map<string, Path>, to: string)
    requires Rooted(adj, base, tree) && to in tree
    ensures FromTree(tree, base, tree[to])
    ensures Connected(adj, base, tree[to])
  {
    forall edge: JoinEdge | edge in tree[to] ensures TreeEdge(tree, base, edge) {
      var k: nat :| k < |tree[to]| && tree[to][k] == edge;
      PathEdgeFromTree(adj, base, tree, to, k);
    }
    RootedPathIsWalk(adj, base, tree, to);
    WalkIsConnected(adj, base, tree[to], to);
  }

  lemma ConnectedConcat(adj: Adjacency, base: string, a: Path, b: Path)
    requires Connected(adj, base, a) && Connected(adj, base, b)
    ensures Connected(adj, base, a + b)
  {
    forall i | 0 <= i < |a + b| ensures Attached(adj, base, a + b, i) {
      if (a + b)[i] !in Edges(adj, base) {
        if i < |a| {
          assert Attached(adj, base, a, i);
          var j :| 0 <= j < i && Follows(adj, a[j], a[i]);
          assert Follows(adj, (a + b)[j], (a + b)[i]);
        } else {
          assert Attached(adj, base, b, i - |a|);
          var j :| 0 <= j < i - |a| && Follows(adj, b[j], b[i - |a|]);
          assert Follows(adj, (a + b)[|a| + j], (a + b)[i]);
        }
      }
    }
  }

  lemma {:induction false} AllEdgesFromTree(adj: Adjacency, base: string, tree: map<string, Path>,
                                            required: seq<string>)
    requires Rooted(adj, base, tree)
    requires forall m :: m in required ==> m == base || m in tree
    ensures FromTree(tree, base, AllEdges(tree, base, required))
    ensures Connected(adj, base, AllEdges(tree, base, required))
  {
    if required != [] {
      var n := |required| - 1;
      AllEdgesFromTree(adj, base, tree, required[..n]);
      if required[n] != base {
        PathFromTree(adj, base, tree, required[n]);
        ConnectedConcat(adj, base, AllEdges(tree, base, required[..n]), tree[required[n]]);
      } else {
        assert AllEdges(tree, base, required) == AllEdges(tree, base, required[..n]);
      }
    }
  }

  /** Because every edge comes from one tree, dropping later edges into a target drops only repeats. */
  lemma {:induction false} DedupDropsOnlyRepeats(adj: Adjacency, tree: map<string, Path>, base: string, edges: Path)
    requires FromTree(tree, base, edges) && Connected(adj, base, edges)
    ensures forall edge :: edge in FirstByTarget(edges) <==> edge in edges
    ensures JoinTree(adj, base, FirstByTarget(edges))
  {
    if edges != [] {
      var n := |edges| - 1;
      var front, last := edges[..n], edges[n];
      assert edges == front + [last];
      FrontConnected(adj, base, edges);
      assert forall edge :: edge in front ==> edge in edges;
      DedupDropsOnlyRepeats(adj, tree, base, front);
      var kept := FirstByTarget(front);
      assert TreeEdge(tree, base, last);
      if Reaches(kept, last.target) {
        var twin :| twin in kept && twin.target == last.target;
        assert TreeEdge(tree, base, twin);
      } else {
        KeepAttached(adj, base, edges, kept);
        forall i | 0 <= i < |kept| ensures kept[i].target != last.target {
          assert kept[i] in kept;
        }
      }
    }
  }

  lemma FrontConnected(adj: Adjacency, base: string, edges: Path)
    requires edges != [] && Connected(adj, base, edges)
    ensures Connected(adj, base, edges[..|edges| - 1])
  {
    var front := edges[..|edges| - 1];
    forall i | 0 <= i < |front| ensures Attached(adj, base, front, i) {
      assert Attached(adj, base, edges, i);
      if front[i] !in Edges(adj, base) {
        var j :| 0 <= j < i && Follows(adj, edges[j], edges[i]);
        assert Follows(adj, front[j], front[i]);
      }
    }
  }

  lemma KeepAttached(adj: Adjacency, base: string, edges: Path, kept: Path)
    requires edges != [] && Connected(adj, base, edges) && Connected(adj, base, kept)
    requires forall edge :: edge in edges[..|edges| - 1] ==> edge in kept
    ensures Connected(adj, base, kept + [edges[|edges| - 1]])
  {
    var n := |edges| - 1;
    var grown := kept + [edges[n]];
    forall i | 0 <= i < |grown| ensures Attached(adj, base, grown, i) {
      if grown[i] !in Edges(adj, base) {
        if i < |kept| {
          assert Attached(adj, base, kept, i);
          var j :| 0 <= j < i && Follows(adj, kept[j], kept[i]);
          assert Follows(adj, grown[j], grown[i]);
        } else {
          assert Attached(adj, base, edges, n);
          var j :| 0 <= j < n && Follows(adj, edges[j], edges[n]);
          assert edges[..n][j] in edges[..n] && edges[j] in kept;
          var k :| 0 <= k < |kept| && kept[k] == edges[j];
          assert Follows(adj, grown[k], grown[i]);
        }
      }
    }
  }

  /** The path to every required model is among the edges. */
  ghost predicate Covers(tree: map<string, Path>, base: string, required: seq<string>, edges: Path)
    requires forall m :: m in required ==> m == base || m in tree
  {
    forall m, edge :: m in required && m != base && edge in tree[m] ==> edge in edges
  }

  /** Every edge lies on the path to some required model. */
  ghost predicate OnlyNeeded(tree: map<string, Path>, base: string, required: seq<string>, edges: Path)
    requires forall m :: m in required ==> m == base || m in tree
  {
    forall edge {:trigger NeededFor(tree, base, required, edge)} :: edge in edges ==>
      NeededFor(tree, base, required, edge)
  }

  ghost predicate NeededFor(tree: map<string, Path>, base: string, required: seq<string>, edge: JoinEdge)
    requires forall m :: m in required ==> m == base || m in tree
  {
    exists m :: m in required && m != base && edge in tree[m]
  }

  lemma {:induction false} AllEdgesCover(base: string, tree: map<string, Path>, required: seq<string>)
    requires forall m :: m in required ==> m == base || m in tree
    ensures Covers(tree, base, required, AllEdges(tree, base, required))
    ensures OnlyNeeded(tree, base, required, AllEdges(tree, base, required))
  {
    if required != [] {
      var n := |required| - 1;
      AllEdgesCover(base, tree, required[..n]);
      assert required == required[..n] + [required[n]];
      forall edge | edge in AllEdges(tree, base, required) ensures NeededFor(tree, base, required, edge) {
        if edge in AllEdges(tree, base, required[..n]) {
          assert NeededFor(tree, base, required[..n], edge);
        }
      }
    }
  }

  lemma DedupIsJoinTree(adj: Adjacency, base: string, tree: map<string, Path>, required: seq<string>)
    requires Rooted(adj, base, tree)
    requires forall m :: m in required ==> m == base || m in tree
    ensures var edges := FirstByTarget(AllEdges(tree, base, required));
      JoinTree(adj, base, edges) && Covers(tree, base, required, edges) && OnlyNeeded(tree, base, required, edges)
  {
    AllEdgesFromTree(adj, base, tree, required);
    AllEdgesCover(base, tree, required);
    DedupDropsOnlyRepeats(adj, tree, base, AllEdges(tree, base, required));
  }

  /** The required model `i` is the first that no path reaches. */
  ghost predicate Unreached(tree: map<string, Path>, base: string, required: seq<string>, i: nat) {
    && i < |required| && required[i] != base && required[i] !in tree
    && forall j :: 0 <= j < i ==> required[j] == base || required[j] in tree
  }

  ghost predicate FirstUnreached(tree: map<string, Path>, base: string, required: seq<string>, e: JoinError) {
    exists i: nat :: Unreached(tree, base, required, i) && e == NoJoinPath(base, required[i])
  }

  class JoinGraph {
    var models: map<string, Model>
    var adjacency: Adjacency

    constructor (models: seq<Model>)
      ensures adjacency == GraphOf(models)
      ensures Symmetric(adjacency)
    {
      this.models := map[];
      this.adjacency := map[];
      new;
      for i := 0 to |models|
        invariant adjacency == GraphOf(models[..i])
      {
        assert models[..i + 1][..i] == models[..i];
        AddModel(models[i]);
      }
      assert models[..|models|] == models;
      GraphIsSymmetric(models);
    }

    method AddModel(model: Model)
      modifies this
      ensures adjacency == WithJoins(old(adjacency), model.name, model.joins)
      ensures models == old(models)[model.name := model]
      ensures old(Symmetric(adjacency)) ==> Symmetric(adjacency)
    {
      for i := 0 to |model.joins|
        invariant adjacency == WithJoins(old(adjacency), model.name, model.joins[..i])
        invariant models == old(models)
      {
        var join := model.joins[i];
        WithJoinsStep(old(adjacency), model.name, model.joins, i);
        adjacency := Link(adjacency, model.name, ForwardEdge(join));
        adjacency := Link(adjacency, join.model, ReverseEdge(model.name, join));
      }
      assert model.joins[..|model.joins|] == model.joins;
      models := models[model.name := model];
      SymmetricStays(old(adjacency), model.name, model.joins);
    }

    /** A shortest path, and always the one the search tree of `from` holds for `to`. */
    method FindPath(from: string, to: string) returns (r: Result<Path, JoinError>)
      ensures r.Ok? <==> exists walk :: IsWalk(adjacency, from, walk, to)
      ensures r.Ok? ==> IsWalk(adjacency, from, r.value, to)
      ensures r.Ok? ==> forall walk :: IsWalk(adjacency, from, walk, to) ==> |r.value| <= |walk|
      ensures r.Ok? <==> to in Tree(adjacency, from)
      ensures r.Ok? ==> r.value == Tree(adjacency, from)[to]
      ensures r.Err? ==> r.error == NoJoinPath(from, to)
    {
      r := SearchFor(from, to);
      if r.Ok? {
        TreePathIsWalk(adjacency, from, to);
      }
      forall walk | IsWalk(adjacency, from, walk, to)
        ensures r.Ok? && |r.value| <= |walk|
      {
        TreeIsShortest(adjacency, from, walk, to);
      }
    }

    method SearchFor(from: string, to: string) returns (r: Result<Path, JoinError>)
      ensures r.Ok? <==> to in Tree(adjacency, from)
      ensures r.Ok? ==> r.value == Tree(adjacency, from)[to]
      ensures r.Err? ==> r.error == NoJoinPath(from, to)
    {
      if from == to {
        return Ok([]);
      }
      var visited := {from};
      var queue: seq<(string, Path)> := [(from, [])];
      ghost var found: map<string, Path> := map[from := []];
      assert Names(queue) == [from];
      while queue != []
        invariant QueueHolds(found, visited, queue)
        invariant Search(adjacency, found, Names(queue)) == Tree(adjacency, from)
        invariant to in found ==> to in Names(queue)
        decreases Unseen(adjacency, found), |queue|
      {
        var (current, path) := queue[0];
        if current == to {
          return Ok(path);
        }
        assert Names(queue)[1..] == Names(queue[1..]);
        DiscoverMakesProgress(adjacency, current, path, found, Names(queue[1..]));
        queue := queue[1..];
        visited, queue, found := Visit(path, Edges(adjacency, current), visited, queue, found, to);
      }
      r := Err(NoJoinPath(from, to));
    }

    method ResolveJoins(base: string, required: seq<string>) returns (r: Result<Path, JoinError>)
      ensures r.Ok? <==> forall m :: m in required ==> m == base || m in Tree(adjacency, base)
      ensures r.Ok? ==> JoinTree(adjacency, base, r.value)
      ensures r.Ok? ==> Covers(Tree(adjacency, base), base, required, r.value)
      ensures r.Ok? ==> OnlyNeeded(Tree(adjacency, base), base, required, r.value)
      ensures r.Ok? ==> r.value == FirstByTarget(AllEdges(Tree(adjacency, base), base, required))
      ensures r.Err? ==> FirstUnreached(Tree(adjacency, base), base, required, r.error)
    {
      var allEdges := CollectPaths(base, required);
      if allEdges.Err? {
        return Err(allEdges.error);
      }
      TreeState(adjacency, base);
      DedupIsJoinTree(adjacency, base, Tree(adjacency, base), required);
      var result := Dedup(allEdges.value);
      r := Ok(result);
    }

    /** The paths to the required models, one after the other, until one cannot be reached. */
    method CollectPaths(base: string, required: seq<string>) returns (r: Result<Path, JoinError>)
      ensures r.Ok? <==> forall m :: m in required ==> m == base || m in Tree(adjacency, base)
      ensures r.Ok? ==> r.value == AllEdges(Tree(adjacency, base), base, required)
      ensures r.Err? ==> FirstUnreached(Tree(adjacency, base), base, required, r.error)
    {
      var allEdges: Path := [];
      for i := 0 to |required|
        invariant forall m :: m in required[..i] ==> m == base || m in Tree(adjacency, base)
        invariant allEdges == AllEdges(Tree(adjacency, base), base, required[..i])
      {
        assert required[..i + 1] == required[..i] + [required[i]];
        if required[i] != base {
          var path := FindPath(base, required[i]);
          if path.Err? {
            FirstToFail(Tree(adjacency, base), base, required, i);
            return Err(path.error);
          }
          allEdges := allEdges + path.value;
        }
      }
      assert required[..|required|] == required;
      r := Ok(allEdges);
    }
  }

  lemma FirstToFail(tree: map<string, Path>, base: string, required: seq<string>, i: nat)
    requires i < |required| && required[i] != base && required[i] !in tree
    requires forall m :: m in required[..i] ==> m == base || m in tree
    ensures FirstUnreached(tree, base, required, NoJoinPath(base, required[i]))
  {
    forall j | 0 <= j < i ensures required[j] == base || required[j] in tree {
      assert required[..i][j] == required[j];
    }
    assert Unreached(tree, base, required, i);
  }

  function Names(queue: seq<(string, Path)>): seq<string> {
    seq(|queue|, i requires 0 <= i < |queue| => queue[i].0)
  }

  /** The queue of model names and paths, and the set of visited models, say what `found` says. */
  ghost predicate QueueHolds(found: map<string, Path>, visited: set<string>, queue: seq<(string, Path)>) {
    && visited == found.Keys
    && forall i :: 0 <= i < |queue| ==> queue[i].0 in found && queue[i].1 == found[queue[i].0]
  }

  method Visit(path: Path, edges: seq<JoinEdge>, visited: set<string>, queue: seq<(string, Path)>,
               ghost found: map<string, Path>, ghost to: string)
    returns (visited': set<string>, queue': seq<(string, Path)>, ghost found': map<string, Path>)
    requires QueueHolds(found, visited, queue)
    ensures QueueHolds(found', visited', queue')
    ensures (found', Names(queue')) == Discover(edges, path, found, Names(queue))
    ensures to in found' ==> to in found || to in Names(queue')
    ensures to in Names(queue) ==> to in Names(queue')
  {
    visited', queue', found' := visited, queue, found;
    for i := 0 to |edges|
      invariant QueueHolds(found', visited', queue')
      invariant Discover(edges[i..], path, found', Names(queue')) == Discover(edges, path, found, Names(queue))
      invariant to in found' ==> to in found || to in Names(queue')
      invariant to in Names(queue) ==> to in Names(queue')
    {
      var edge := edges[i];
      assert edges[i..][1..] == edges[i + 1..];
      if edge.target !in visited' {
        visited' := visited' + {edge.target};
        found' := found'[edge.target := path + [edge]];
        assert Names(queue' + [(edge.target, path + [edge])]) == Names(queue') + [edge.target];
        assert forall n :: n in Names(queue') + [edge.target] <==> n in Names(queue') || n == edge.target;
        queue' := queue' + [(edge.target, path + [edge])];
      }
    }
  }

  method Dedup(edges: Path) returns (result: Path)
    ensures result == FirstByTarget(edges)
  {
    var seen: set<string> := {};
    result := [];
    for i := 0 to |edges|
      invariant result == FirstByTarget(edges[..i])
      invariant forall t :: t in seen <==> Reaches(result, t)
    {
      assert edges[..i + 1][..i] == edges[..i];
      var edge := edges[i];
      if edge.target !in seen {
        ghost var before := result;
        seen := seen + {edge.target};
        result := result + [edge];
        assert edge in result;
        forall t ensures t in seen <==> Reaches(result, t) {
          assert Reaches(before, t) ==> Reaches(result, t) by {
            if Reaches(before, t) {
              var e :| e in before && e.target == t;
              assert e in result;
            }
          }
        }
      }
    }
    assert edges[..|edges|] == edges;
  }
}
