/** The breadth-first path search of crates/graphnight-core/src/join.rs as a function of the graph.

    `Tree(adj, from)` is the map of paths that one search from `from` leaves behind when it is never
    stopped early.  Every fact about single searches and about searches combined is a fact about it. */
module JoinPaths {
  import opened Results

  datatype JoinType = Inner | Left | Right | Full

  datatype Join = Join(
    name: string,
    model: string,
    joinType: JoinType,
    on: seq<(string, string)>,
    alias: Option<string>)

  datatype JoinEdge = JoinEdge(target: string, join: Join, reverse: bool)

  type Adjacency = map<string, seq<JoinEdge>>

  type Path = seq<JoinEdge>

  function Edges(adj: Adjacency, model: string): seq<JoinEdge> {
    if model in adj then adj[model] else []
  }

  function Targets(adj: Adjacency): set<string> {
    set model, edge | model in adj && edge in adj[model] :: edge.target
  }

  // ---------- walks ----------

  /** The model a walk stands at after its first `k` edges. */
  function NodeAt(from: string, path: Path, k: nat): string
    requires k <= |path|
  {
    if k == 0 then from else path[k - 1].target
  }

  ghost predicate IsWalk(adj: Adjacency, from: string, path: Path, to: string) {
    && NodeAt(from, path, |path|) == to
    && forall k :: 0 <= k < |path| ==> path[k] in Edges(adj, NodeAt(from, path, k))
  }

  lemma WalkInit(adj: Adjacency, from: string, walk: Path, to: string)
    requires IsWalk(adj, from, walk, to) && walk != []
    ensures var n := |walk| - 1;
      var before := NodeAt(from, walk, n);
      IsWalk(adj, from, walk[..n], before) && walk[n] in Edges(adj, before) && walk[n].target == to
  {
    var n := |walk| - 1;
    forall k | 0 <= k < n ensures walk[..n][k] in Edges(adj, NodeAt(from, walk[..n], k)) {
      assert NodeAt(from, walk[..n], k) == NodeAt(from, walk, k);
    }
  }

  // ---------- the search ----------

  /** Looks at the edges of one model: each target seen for the first time is given a path and queued. */
  function Discover(edges: seq<JoinEdge>, path: Path, found: map<string, Path>, queue: seq<string>)
    : (r: (map<string, Path>, seq<string>))
    ensures found.Keys <= r.0.Keys
    ensures forall model :: model in found ==> r.0[model] == found[model]
    ensures (forall q :: q in queue ==> q in found) ==> (forall q :: q in r.1 ==> q in r.0)
    decreases |edges|
  {
    if edges == [] then (found, queue)
    else if edges[0].target in found then Discover(edges[1..], path, found, queue)
    else Discover(edges[1..], path, found[edges[0].target := path + [edges[0]]], queue + [edges[0].target])
  }

  lemma {:induction false} DiscoverFindsTargets(edges: seq<JoinEdge>, path: Path, found: map<string, Path>,
                                                queue: seq<string>)
    ensures var (found', queue') := Discover(edges, path, found, queue);
      && (forall edge :: edge in edges ==> edge.target in found')
      && (forall model :: model in found' ==> model in found || exists edge :: edge in edges && edge.target == model)
      && (found'.Keys == found.Keys ==> queue' == queue)
    decreases |edges|
  {
    if edges != [] {
      var t := edges[0].target;
      if t in found {
        DiscoverFindsTargets(edges[1..], path, found, queue);
      } else {
        var found1 := found[t := path + [edges[0]]];
        DiscoverFindsTargets(edges[1..], path, found1, queue + [t]);
        assert t in Discover(edges, path, found, queue).0;
      }
    }
  }

  ghost function Unseen(adj: Adjacency, found: map<string, Path>): set<string> {
    Targets(adj) - found.Keys
  }

  lemma DiscoverMakesProgress(adj: Adjacency, model: string, path: Path, found: map<string, Path>, queue: seq<string>)
    ensures var (found', queue') := Discover(Edges(adj, model), path, found, queue);
      Unseen(adj, found') < Unseen(adj, found) || (Unseen(adj, found') == Unseen(adj, found) && queue' == queue)
  {
    var (found', queue') := Discover(Edges(adj, model), path, found, queue);
    DiscoverFindsTargets(Edges(adj, model), path, found, queue);
    if found'.Keys != found.Keys {
      var m :| m in found' && m !in found;
      assert m in Unseen(adj, found) && m !in Unseen(adj, found');
    }
  }

  /** Runs the search to exhaustion. */
  ghost function Search(adj: Adjacency, found: map<string, Path>, queue: seq<string>): (r: map<string, Path>)
    requires forall q :: q in queue ==> q in found
    ensures found.Keys <= r.Keys
    ensures forall model :: model in found ==> r[model] == found[model]
    decreases Unseen(adj, found), |queue|
  {
    if queue == [] then found
    else
      var (found', queue') := Discover(Edges(adj, queue[0]), found[queue[0]], found, queue[1..]);
      DiscoverMakesProgress(adj, queue[0], found[queue[0]], found, queue[1..]);
      Search(adj, found', queue')
  }

  /** Every model reachable from `from`, with the path the search gives it. */
  ghost function Tree(adj: Adjacency, from: string): (r: map<string, Path>)
    ensures from in r && r[from] == []
  {
    Search(adj, map[from := []], [from])
  }

  // ---------- what the search keeps ----------

  /** The path of `model` is the path of some found model plus one of that model's edges. */
  ghost predicate HasParent(adj: Adjacency, from: string, found: map<string, Path>, model: string)
    requires model in found
  {
    var path := found[model];
    if path == [] then model == from
    else
      var n := |path| - 1;
      var parent := NodeAt(from, path, n);
      parent in found && found[parent] == path[..n] && path[n] in Edges(adj, parent) && path[n].target == model
  }

  /** The edges of `model` lead to found models at most one edge further away. */
  ghost predicate Finished(adj: Adjacency, found: map<string, Path>, model: string)
    requires model in found
  {
    forall edge :: edge in Edges(adj, model) ==> edge.target in found && |found[edge.target]| <= |found[model]| + 1
  }

  ghost predicate QueueOrdered(found: map<string, Path>, queue: seq<string>)
    requires forall q :: q in queue ==> q in found
  {
    forall i, j :: 0 <= i < j < |queue| ==> |found[queue[i]]| <= |found[queue[j]]|
  }

  ghost predicate Rooted(adj: Adjacency, from: string, found: map<string, Path>) {
    && from in found && found[from] == []
    && forall model {:trigger HasParent(adj, from, found, model)} :: model in found ==>
      HasParent(adj, from, found, model)
  }

  ghost predicate SearchState(adj: Adjacency, from: string, found: map<string, Path>, queue: seq<string>) {
    && Rooted(adj, from, found)
    && (forall q :: q in queue ==> q in found)
    && QueueOrdered(found, queue)
    && (queue != [] ==> forall model :: model in found ==> |found[model]| <= |found[queue[0]]| + 1)
    && (forall model {:trigger Finished(adj, found, model)} ::
          model in found && model !in queue ==> Finished(adj, found, model))
  }

  /** The state in the middle of looking at the edges of `current`, which has left the queue. */
  ghost predicate Visiting(adj: Adjacency, from: string, current: string, found: map<string, Path>,
                           queue: seq<string>) {
    && Rooted(adj, from, found)
    && current in found
    && (forall q :: q in queue ==> q in found && |found[q]| >= |found[current]|)
    && QueueOrdered(found, queue)
    && (forall model :: model in found ==> |found[model]| <= |found[current]| + 1)
    && (forall model {:trigger Finished(adj, found, model)} ::
          model in found && model !in queue && model != current ==> Finished(adj, found, model))
  }

  lemma ExtendKeepsRooted(adj: Adjacency, from: string, current: string, edge: JoinEdge, found: map<string, Path>)
    requires Rooted(adj, from, found) && current in found
    requires edge in Edges(adj, current) && edge.target !in found
    ensures Rooted(adj, from, found[edge.target := found[current] + [edge]])
  {
    var path := found[current] + [edge];
    var found1 := found[edge.target := path];
    forall model | model in found1 ensures HasParent(adj, from, found1, model) {
      if model in found {
        assert HasParent(adj, from, found, model);
      } else {
        assert path[..|path| - 1] == found[current];
        assert HasParent(adj, from, found, current);
        assert NodeAt(from, path, |path| - 1) == current;
      }
    }
  }

  lemma DiscoverOneKeepsState(adj: Adjacency, from: string, current: string, edge: JoinEdge, found: map<string, Path>,
                              queue: seq<string>)
    requires Visiting(adj, from, current, found, queue)
    requires edge in Edges(adj, current) && edge.target !in found
    ensures Visiting(adj, from, current, found[edge.target := found[current] + [edge]], queue + [edge.target])
  {
    var found1, queue1 := found[edge.target := found[current] + [edge]], queue + [edge.target];
    ExtendKeepsRooted(adj, from, current, edge, found);
    assert forall q :: q in queue1 ==> q in queue || q == edge.target;
    assert edge.target in queue1;
    assert forall q :: q in queue ==> q in queue1;
    assert QueueOrdered(found1, queue1);
    forall model | model in found1 && model !in queue1 && model != current ensures Finished(adj, found1, model) {
      assert Finished(adj, found, model);
    }
  }

  lemma {:induction false} DiscoverKeepsState(adj: Adjacency, from: string, current: string, edges: seq<JoinEdge>,
                                              found: map<string, Path>, queue: seq<string>)
    requires Visiting(adj, from, current, found, queue)
    requires forall edge :: edge in edges ==> edge in Edges(adj, current)
    ensures var (found', queue') := Discover(edges, found[current], found, queue);
      Visiting(adj, from, current, found', queue')
    decreases |edges|
  {
    if edges != [] {
      var edge := edges[0];
      if edge.target in found {
        DiscoverKeepsState(adj, from, current, edges[1..], found, queue);
      } else {
        DiscoverOneKeepsState(adj, from, current, edge, found, queue);
        DiscoverKeepsState(adj, from, current, edges[1..], found[edge.target := found[current] + [edge]],
                           queue + [edge.target]);
      }
    }
  }

  lemma StepKeepsState(adj: Adjacency, from: string, found: map<string, Path>, queue: seq<string>)
    requires SearchState(adj, from, found, queue) && queue != []
    ensures var (found', queue') := Discover(Edges(adj, queue[0]), found[queue[0]], found, queue[1..]);
      SearchState(adj, from, found', queue')
  {
    var current, rest := queue[0], queue[1..];
    assert queue == [current] + rest;
    var (found', queue') := Discover(Edges(adj, current), found[current], found, rest);
    DiscoverKeepsState(adj, from, current, Edges(adj, current), found, rest);
    DiscoverFindsTargets(Edges(adj, current), found[current], found, rest);
    assert Finished(adj, found', current);
  }

  lemma {:induction false} SearchKeepsState(adj: Adjacency, from: string, found: map<string, Path>, queue: seq<string>)
    requires SearchState(adj, from, found, queue)
    ensures SearchState(adj, from, Search(adj, found, queue), [])
    decreases Unseen(adj, found), |queue|
  {
    if queue != [] {
      StepKeepsState(adj, from, found, queue);
      DiscoverMakesProgress(adj, queue[0], found[queue[0]], found, queue[1..]);
      var (found', queue') := Discover(Edges(adj, queue[0]), found[queue[0]], found, queue[1..]);
      SearchKeepsState(adj, from, found', queue');
    }
  }

  lemma TreeState(adj: Adjacency, from: string)
    ensures SearchState(adj, from, Tree(adj, from), [])
  {
    SearchKeepsState(adj, from, map[from := []], [from]);
  }

  // ---------- what the search finds ----------

  lemma {:induction false} PrefixInTree(adj: Adjacency, from: string, tree: map<string, Path>, to: string, k: nat)
    requires Rooted(adj, from, tree) && to in tree && k <= |tree[to]|
    ensures var m := NodeAt(from, tree[to], k); m in tree && tree[m] == tree[to][..k]
    decreases |tree[to]|
  {
    var path := tree[to];
    assert HasParent(adj, from, tree, to);
    if k < |path| {
      var n := |path| - 1;
      PrefixInTree(adj, from, tree, NodeAt(from, path, n), k);
      assert path[..n][..k] == path[..k];
    } else {
      assert path[..k] == path;
    }
  }

  lemma {:induction false} ReachedInTree(adj: Adjacency, from: string, tree: map<string, Path>, walk: Path, to: string)
    requires SearchState(adj, from, tree, [])
    requires IsWalk(adj, from, walk, to)
    ensures to in tree && |tree[to]| <= |walk|
    decreases |walk|
  {
    if walk != [] {
      var n := |walk| - 1;
      var before := NodeAt(from, walk, n);
      WalkInit(adj, from, walk, to);
      ReachedInTree(adj, from, tree, walk[..n], before);
      assert Finished(adj, tree, before);
    }
  }

  /** Every prefix of a tree path is the tree path of the model it ends at. */
  lemma TreePrefix(adj: Adjacency, from: string, to: string, k: nat)
    requires to in Tree(adj, from) && k <= |Tree(adj, from)[to]|
    ensures var path := Tree(adj, from)[to];
      NodeAt(from, path, k) in Tree(adj, from) && Tree(adj, from)[NodeAt(from, path, k)] == path[..k]
  {
    TreeState(adj, from);
    PrefixInTree(adj, from, Tree(adj, from), to, k);
  }

  lemma RootedPathIsWalk(adj: Adjacency, from: string, tree: map<string, Path>, to: string)
    requires Rooted(adj, from, tree) && to in tree
    ensures IsWalk(adj, from, tree[to], to)
  {
    var path := tree[to];
    assert HasParent(adj, from, tree, to);
    forall k | 0 <= k < |path| ensures path[k] in Edges(adj, NodeAt(from, path, k)) {
      PrefixInTree(adj, from, tree, to, k + 1);
      var prefix := path[..k + 1];
      assert HasParent(adj, from, tree, NodeAt(from, path, k + 1));
      assert NodeAt(from, prefix, k) == NodeAt(from, path, k);
    }
  }

  /** Tree paths are walks of the graph. */
  lemma TreePathIsWalk(adj: Adjacency, from: string, to: string)
    requires to in Tree(adj, from)
    ensures IsWalk(adj, from, Tree(adj, from)[to], to)
  {
    TreeState(adj, from);
    RootedPathIsWalk(adj, from, Tree(adj, from), to);
  }

  /** No walk reaches a model the tree lacks, and none is shorter than the tree path. */
  lemma TreeIsShortest(adj: Adjacency, from: string, walk: Path, to: string)
    requires IsWalk(adj, from, walk, to)
    ensures to in Tree(adj, from) && |Tree(adj, from)[to]| <= |walk|
  {
    TreeState(adj, from);
    ReachedInTree(adj, from, Tree(adj, from), walk, to);
  }

  // ---------- direct edges ----------

  /** The first of `edges` into `model`. */
  function FirstInto(edges: seq<JoinEdge>, model: string): (r: Option<JoinEdge>)
    ensures r.Some? ==> r.value in edges && r.value.target == model
    ensures r.None? ==> forall edge :: edge in edges ==> edge.target != model
  {
    if edges == [] then None
    else if edges[0].target == model then Some(edges[0])
    else FirstInto(edges[1..], model)
  }

  lemma {:induction false} DiscoverTakesFirst(edges: seq<JoinEdge>, path: Path, found: map<string, Path>,
                                              queue: seq<string>, model: string)
    requires model !in found && FirstInto(edges, model).Some?
    ensures var found' := Discover(edges, path, found, queue).0;
      model in found' && found'[model] == path + [FirstInto(edges, model).value]
    decreases |edges|
  {
    var t := edges[0].target;
    if t in found {
      DiscoverTakesFirst(edges[1..], path, found, queue, model);
    } else if t != model {
      DiscoverTakesFirst(edges[1..], path, found[t := path + [edges[0]]], queue + [t], model);
    }
  }

  /** The path to a model that some edge of the base leads to is the first such edge. */
  lemma FirstEdgeIsPath(adj: Adjacency, base: string, model: string)
    requires model != base && FirstInto(Edges(adj, base), model).Some?
    ensures model in Tree(adj, base) && Tree(adj, base)[model] == [FirstInto(Edges(adj, base), model).value]
  {
    var start: map<string, Path> := map[base := []];
    var (found, queue) := Discover(Edges(adj, base), [], start, []);
    DiscoverMakesProgress(adj, base, [], start, []);
    DiscoverTakesFirst(Edges(adj, base), [], start, [], model);
    assert [base][1..] == [];
    assert Tree(adj, base) == Search(adj, found, queue);
  }
}
