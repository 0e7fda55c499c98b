/** `JoinWalker` of crates/graphnight-core/src/join.rs: one clause per edge of the join tree. */
module JoinClauses {
  import opened Results
  import opened JoinPaths
  import opened JoinGraph

  datatype Column = Column(alias: string, name: string)

  datatype Condition = Condition(left: Column, right: Column)

  datatype JoinClause = JoinClause(joinType: string, table: string, alias: string, on: seq<Condition>)

  function TargetAlias(join: Join): string {
    if join.alias.Some? then join.alias.value else join.model
  }

  function OnCondition(edge: JoinEdge, baseAlias: string, pair: (string, string)): Condition {
    var targetAlias := TargetAlias(edge.join);
    if edge.reverse then Condition(Column(targetAlias, pair.0), Column(baseAlias, pair.1))
    else Condition(Column(baseAlias, pair.0), Column(targetAlias, pair.1))
  }

  function OnConditions(edge: JoinEdge, baseAlias: string, on: seq<(string, string)>): (r: seq<Condition>)
    ensures |r| == |on|
    ensures forall i :: 0 <= i < |on| ==> r[i] == OnCondition(edge, baseAlias, on[i])
  {
    if on == [] then []
    else OnConditions(edge, baseAlias, on[..|on| - 1]) + [OnCondition(edge, baseAlias, on[|on| - 1])]
  }

  function Keyword(joinType: JoinType): string {
    match joinType
    case Inner => "INNER JOIN"
    case Left => "LEFT JOIN"
    case Right => "RIGHT JOIN"
    case Full => "FULL JOIN"
  }

  function ClauseOf(edge: JoinEdge, baseAlias: string): JoinClause {
    JoinClause(Keyword(edge.join.joinType), edge.join.model, TargetAlias(edge.join),
               OnConditions(edge, baseAlias, edge.join.on))
  }

  // ---------- where edges come from ----------

  /** `edge` leaves `model` because some model declared `join`. */
  ghost predicate Declared(models: seq<Model>, model: string, edge: JoinEdge) {
    exists i :: 0 <= i < |models| && DeclaredAmong(models[i].name, models[i].joins, model, edge)
  }

  ghost predicate DeclaredBy(name: string, join: Join, model: string, edge: JoinEdge) {
    || (model == name && edge == ForwardEdge(join))
    || (model == join.model && edge == ReverseEdge(name, join))
  }

  ghost predicate DeclaredAmong(name: string, joins: seq<Join>, model: string, edge: JoinEdge) {
    exists j :: 0 <= j < |joins| && DeclaredBy(name, joins[j], model, edge)
  }

  lemma DeclaredAmongLast(name: string, joins: seq<Join>, model: string, edge: JoinEdge)
    requires joins != []
    ensures var n := |joins| - 1;
      DeclaredAmong(name, joins, model, edge) <==>
        DeclaredAmong(name, joins[..n], model, edge) || DeclaredBy(name, joins[n], model, edge)
  {
    var n := |joins| - 1;
    if DeclaredAmong(name, joins[..n], model, edge) {
      var j :| 0 <= j < n && DeclaredBy(name, joins[..n][j], model, edge);
      assert DeclaredBy(name, joins[j], model, edge);
    }
    if DeclaredAmong(name, joins, model, edge) {
      var j :| 0 <= j < |joins| && DeclaredBy(name, joins[j], model, edge);
      if j < n {
        assert DeclaredBy(name, joins[..n][j], model, edge);
      }
    }
  }

  lemma {:induction false} WithJoinsEdges(adj: Adjacency, name: string, joins: seq<Join>, model: string, edge: JoinEdge)
    ensures edge in Edges(WithJoins(adj, name, joins), model) <==>
      edge in Edges(adj, model) || DeclaredAmong(name, joins, model, edge)
  {
    if joins != [] {
      var n := |joins| - 1;
      var before := WithJoins(adj, name, joins[..n]);
      WithJoinsEdges(adj, name, joins[..n], model, edge);
      LinkKeepsEdges(before, name, ForwardEdge(joins[n]));
      LinkKeepsEdges(Link(before, name, ForwardEdge(joins[n])), joins[n].model, ReverseEdge(name, joins[n]));
      DeclaredAmongLast(name, joins, model, edge);
    }
  }

  /** An edge is in the graph exactly when some model declares its join, forwards, or its reversal. */
  lemma {:induction false} GraphEdgesAreDeclared(models: seq<Model>, model: string, edge: JoinEdge)
    ensures edge in Edges(GraphOf(models), model) <==> Declared(models, model, edge)
  {
    if models != [] {
      var n := |models| - 1;
      GraphEdgesAreDeclared(models[..n], model, edge);
      WithJoinsEdges(GraphOf(models[..n]), models[n].name, models[n].joins, model, edge);
      if Declared(models[..n], model, edge) {
        var i :| 0 <= i < n && DeclaredAmong(models[..n][i].name, models[..n][i].joins, model, edge);
        assert DeclaredAmong(models[i].name, models[i].joins, model, edge);
      }
      if Declared(models, model, edge) {
        var i :| 0 <= i < |models| && DeclaredAmong(models[i].name, models[i].joins, model, edge);
        if i < n {
          assert DeclaredAmong(models[..n][i].name, models[..n][i].joins, model, edge);
        }
      }
    }
  }

  /** The edges of `model` that one declaration adds. */
  function EdgesOf(name: string, join: Join, model: string): Path {
    (if name == model then [ForwardEdge(join)] else []) +
    (if join.model == model then [ReverseEdge(name, join)] else [])
  }

  function EdgesFrom(name: string, joins: seq<Join>, model: string): Path {
    if joins == [] then []
    else EdgesFrom(name, joins[..|joins| - 1], model) + EdgesOf(name, joins[|joins| - 1], model)
  }

  /** The edges of `model`, read off the declarations: one for each join it declares and one for each join
      declared to it, in the order of the models and of the joins of each. */
  function DeclaredEdges(models: seq<Model>, model: string): Path {
    if models == [] then []
    else
      var n := |models| - 1;
      DeclaredEdges(models[..n], model) + EdgesFrom(models[n].name, models[n].joins, model)
  }

  lemma OneJoinInOrder(adj: Adjacency, name: string, join: Join, model: string)
    ensures Edges(WithJoin(adj, name, join), model) == Edges(adj, model) + EdgesOf(name, join, model)
  {
    var forward := Link(adj, name, ForwardEdge(join));
    assert Edges(forward, model) == Edges(adj, model) + if name == model then [ForwardEdge(join)] else [];
  }

  lemma ConcatThree(a: Path, b: Path, c: Path)
    ensures a + b + c == a + (b + c)
  {
  }

  lemma {:induction false} JoinsInOrder(adj: Adjacency, name: string, joins: seq<Join>, model: string)
    ensures Edges(WithJoins(adj, name, joins), model) == Edges(adj, model) + EdgesFrom(name, joins, model)
  {
    if joins != [] {
      var n := |joins| - 1;
      JoinsInOrder(adj, name, joins[..n], model);
      var before := WithJoins(adj, name, joins[..n]);
      OneJoinInOrder(before, name, joins[n], model);
      ConcatThree(Edges(adj, model), EdgesFrom(name, joins[..n], model), EdgesOf(name, joins[n], model));
    }
  }

  /** The graph holds each declared join once forwards and once backwards, in the order of declaration. */
  lemma {:induction false} EdgesInOrder(models: seq<Model>, model: string)
    ensures Edges(GraphOf(models), model) == DeclaredEdges(models, model)
  {
    if models != [] {
      var n := |models| - 1;
      EdgesInOrder(models[..n], model);
      JoinsInOrder(GraphOf(models[..n]), models[n].name, models[n].joins, model);
    }
  }

  // ---------- direct joins ----------

  /** `join`, declared by `name`, joins the base and the table, one way round or the other. */
  predicate Between(name: string, join: Join, base: string, table: string) {
    (name == base && join.model == table) || (join.model == base && name == table)
  }

  ghost predicate DeclaredBetween(models: seq<Model>, base: string, table: string) {
    exists i, j :: 0 <= i < |models| && 0 <= j < |models[i].joins| &&
      Between(models[i].name, models[i].joins[j], base, table)
  }

  /** Join `j` of model `i` is the first declared between the base and the table. */
  ghost predicate FirstBetween(models: seq<Model>, base: string, table: string, i: int, j: int) {
    && 0 <= i < |models| && FirstAmong(models[i].name, models[i].joins, base, table, j)
    && forall i' :: 0 <= i' < i ==> NoneAmong(models[i'].name, models[i'].joins, base, table)
  }

  ghost predicate FirstAmong(name: string, joins: seq<Join>, base: string, table: string, j: int) {
    && 0 <= j < |joins| && Between(name, joins[j], base, table)
    && forall j' :: 0 <= j' < j ==> !Between(name, joins[j'], base, table)
  }

  ghost predicate NoneAmong(name: string, joins: seq<Join>, base: string, table: string) {
    forall j :: 0 <= j < |joins| ==> !Between(name, joins[j], base, table)
  }

  /** The edge of the base that a declaration between it and a table makes. */
  function EdgeFor(name: string, join: Join, base: string): JoinEdge {
    if name == base then ForwardEdge(join) else ReverseEdge(name, join)
  }

  lemma {:induction false} FirstIntoConcat(a: Path, b: Path, model: string)
    ensures FirstInto(a + b, model) == if FirstInto(a, model).Some? then FirstInto(a, model) else FirstInto(b, model)
  {
    if a == [] {
      assert a + b == b;
    } else {
      assert (a + b)[1..] == a[1..] + b;
      FirstIntoConcat(a[1..], b, model);
    }
  }

  lemma FirstOfOne(name: string, join: Join, base: string, table: string)
    requires table != base
    ensures FirstInto(EdgesOf(name, join, base), table) ==
      if Between(name, join, base, table) then Some(EdgeFor(name, join, base)) else None
  {
    FirstIntoConcat(if name == base then [ForwardEdge(join)] else [],
                    if join.model == base then [ReverseEdge(name, join)] else [], table);
  }

  ghost predicate EdgeOfFirstAmong(name: string, joins: seq<Join>, base: string, table: string, edge: JoinEdge) {
    exists j :: FirstAmong(name, joins, base, table, j) && edge == EdgeFor(name, joins[j], base)
  }

  lemma EdgesFromStep(name: string, joins: seq<Join>, base: string, table: string)
    requires joins != [] && table != base
    ensures var n := |joins| - 1;
      var before := FirstInto(EdgesFrom(name, joins[..n], base), table);
      FirstInto(EdgesFrom(name, joins, base), table) ==
        if before.Some? then before
        else if Between(name, joins[n], base, table) then Some(EdgeFor(name, joins[n], base)) else None
  {
    var n := |joins| - 1;
    FirstIntoConcat(EdgesFrom(name, joins[..n], base), EdgesOf(name, joins[n], base), table);
    FirstOfOne(name, joins[n], base, table);
  }

  /** Among the joins of one model the first edge is that of the first declaration. */
  lemma {:induction false} FirstOfModel(name: string, joins: seq<Join>, base: string, table: string)
    requires table != base
    ensures var first := FirstInto(EdgesFrom(name, joins, base), table);
      if first.Some? then EdgeOfFirstAmong(name, joins, base, table, first.value)
      else NoneAmong(name, joins, base, table)
  {
    if joins != [] {
      var n := |joins| - 1;
      FirstOfModel(name, joins[..n], base, table);
      EdgesFromStep(name, joins, base, table);
      var before := FirstInto(EdgesFrom(name, joins[..n], base), table);
      if before.Some? {
        FirstEdgeStays(name, joins, base, table, before.value);
      } else {
        NoneBefore(name, joins, base, table);
      }
    }
  }

  lemma FirstEdgeStays(name: string, joins: seq<Join>, base: string, table: string, edge: JoinEdge)
    requires joins != [] && EdgeOfFirstAmong(name, joins[..|joins| - 1], base, table, edge)
    ensures EdgeOfFirstAmong(name, joins, base, table, edge)
  {
    var front := joins[..|joins| - 1];
    var j :| FirstAmong(name, front, base, table, j) && edge == EdgeFor(name, front[j], base);
    FirstStays(name, joins, base, table, j);
  }

  lemma FirstStays(name: string, joins: seq<Join>, base: string, table: string, j: nat)
    requires joins != [] && FirstAmong(name, joins[..|joins| - 1], base, table, j)
    ensures FirstAmong(name, joins, base, table, j) && joins[..|joins| - 1][j] == joins[j]
  {
    var front := joins[..|joins| - 1];
    assert forall k :: 0 <= k < |front| ==> front[k] == joins[k];
  }

  lemma NoneBefore(name: string, joins: seq<Join>, base: string, table: string)
    requires joins != [] && NoneAmong(name, joins[..|joins| - 1], base, table)
    ensures var n := |joins| - 1;
      if Between(name, joins[n], base, table) then FirstAmong(name, joins, base, table, n)
      else NoneAmong(name, joins, base, table)
  {
    forall j | 0 <= j < |joins| - 1 ensures !Between(name, joins[j], base, table) {
      assert joins[j] == joins[..|joins| - 1][j];
    }
  }

  /** The first edge of the base into a table is that of the first declaration between the two. */
  lemma {:induction false} FirstOfAll(models: seq<Model>, base: string, table: string)
    requires table != base
    ensures var first := FirstInto(DeclaredEdges(models, base), table);
      match first
      case None => !DeclaredBetween(models, base, table)
      case Some(edge) => EdgeOfFirst(models, base, table, edge)
  {
    if models != [] {
      var n := |models| - 1;
      var front, last := models[..n], models[n];
      FirstOfAll(front, base, table);
      FirstIntoConcat(DeclaredEdges(front, base), EdgesFrom(last.name, last.joins, base), table);
      FirstOfModel(last.name, last.joins, base, table);
      assert forall k :: 0 <= k < n ==> front[k] == models[k];
      var before := FirstInto(DeclaredEdges(front, base), table);
      if before.Some? {
        var i, j :| FirstBetween(front, base, table, i, j) &&
          before.value == EdgeFor(front[i].name, front[i].joins[j], base);
        assert FirstBetween(models, base, table, i, j);
      } else {
        NoModelBefore(models, base, table);
      }
    }
  }

  ghost predicate EdgeOfFirst(models: seq<Model>, base: string, table: string, edge: JoinEdge) {
    exists i, j :: FirstBetween(models, base, table, i, j) && edge == EdgeFor(models[i].name, models[i].joins[j], base)
  }

  lemma NoModelBefore(models: seq<Model>, base: string, table: string)
    requires models != [] && !DeclaredBetween(models[..|models| - 1], base, table)
    ensures var n := |models| - 1;
      && (forall j :: FirstAmong(models[n].name, models[n].joins, base, table, j) ==>
            FirstBetween(models, base, table, n, j))
      && (NoneAmong(models[n].name, models[n].joins, base, table) ==> !DeclaredBetween(models, base, table))
  {
    var n := |models| - 1;
    forall i | 0 <= i < n ensures NoneAmong(models[i].name, models[i].joins, base, table) {
      assert models[i] == models[..n][i];
    }
  }

  /** Every required model is the base, or joined to it by some declaration, of its own or of the base. */
  ghost predicate AllDirect(models: seq<Model>, base: string, required: seq<string>) {
    forall m :: m in required && m != base ==> DeclaredBetween(models, base, m)
  }

  lemma DirectModelsAreReached(models: seq<Model>, base: string, required: seq<string>)
    requires AllDirect(models, base, required)
    ensures forall m :: m in required ==> m == base || m in Tree(GraphOf(models), base)
  {
    EdgesInOrder(models, base);
    forall m | m in required && m != base ensures m in Tree(GraphOf(models), base) {
      FirstOfAll(models, base, m);
      FirstEdgeIsPath(GraphOf(models), base, m);
    }
  }

  /** When every required model is joined to the base directly, so is every model of the join tree, by the first
      edge declared between the two: the alias of the base is then the right qualifier for the base side. */
  lemma DirectJoinsStayDirect(models: seq<Model>, base: string, required: seq<string>, edges: Path)
    requires AllDirect(models, base, required)
    requires forall m :: m in required ==> m == base || m in Tree(GraphOf(models), base)
    requires OnlyNeeded(Tree(GraphOf(models), base), base, required, edges)
    ensures forall edge :: edge in edges ==>
      edge.target in required && FirstInto(DeclaredEdges(models, base), edge.target) == Some(edge)
  {
    var tree := Tree(GraphOf(models), base);
    EdgesInOrder(models, base);
    forall edge: JoinEdge | edge in edges
      ensures edge.target in required && FirstInto(DeclaredEdges(models, base), edge.target) == Some(edge)
    {
      assert NeededFor(tree, base, required, edge);
      var m :| m in required && m != base && edge in tree[m];
      FirstOfAll(models, base, m);
      FirstEdgeIsPath(GraphOf(models), base, m);
    }
  }

  /** What the SQL generator asks for is direct: the targets of the joins the base itself declares. */
  lemma OwnJoinsAreDirect(models: seq<Model>, model: Model)
    requires model in models
    ensures AllDirect(models, model.name, seq(|model.joins|, i requires 0 <= i < |model.joins| => model.joins[i].model))
  {
    var base, targets := model.name, seq(|model.joins|, i requires 0 <= i < |model.joins| => model.joins[i].model);
    var i :| 0 <= i < |models| && models[i] == model;
    forall m | m in targets && m != base ensures DeclaredBetween(models, base, m) {
      var j :| 0 <= j < |targets| && targets[j] == m;
      assert Between(models[i].name, models[i].joins[j], base, m);
    }
  }

  // ---------- which clauses say what was declared ----------

  /** Equality is symmetric, so a condition may be written either way round. */
  predicate SameCondition(a: Condition, b: Condition) {
    a == b || (a.left == b.right && a.right == b.left)
  }

  /** What a declared pair `(l, r)` of a join from `owner` to `joined` means. */
  function Meaning(ownerAlias: string, joinedAlias: string, pair: (string, string)): Condition {
    Condition(Column(ownerAlias, pair.0), Column(joinedAlias, pair.1))
  }

  /** The clause says what `join` says, in any order, when the model that declares the join goes by `ownerAlias`
      and the model it joins by `joinedAlias`: every condition is a declared one, and none is missing. */
  ghost predicate SaysJoin(clause: JoinClause, ownerAlias: string, joinedAlias: string, join: Join) {
    && (forall c :: c in clause.on ==> IsDeclared(c, ownerAlias, joinedAlias, join))
    && (forall pair :: pair in join.on ==> Holds(clause, Meaning(ownerAlias, joinedAlias, pair)))
  }

  ghost predicate IsDeclared(condition: Condition, ownerAlias: string, joinedAlias: string, join: Join) {
    exists pair :: pair in join.on && SameCondition(condition, Meaning(ownerAlias, joinedAlias, pair))
  }

  ghost predicate Holds(clause: JoinClause, condition: Condition) {
    exists c :: c in clause.on && SameCondition(c, condition)
  }

  /** The clause of an edge that leaves the base says what the join behind the edge says. */
  ghost predicate SaysDeclaration(models: seq<Model>, base: string, baseAlias: string, edge: JoinEdge,
                                  clause: JoinClause) {
    exists i, j :: 0 <= i < |models| && 0 <= j < |models[i].joins| &&
      SaysDeclared(models[i].name, models[i].joins[j], base, baseAlias, edge, clause)
  }

  /** The same for the join that model `name` declares, met from either end. */
  ghost predicate SaysDeclared(name: string, join: Join, base: string, baseAlias: string, edge: JoinEdge,
                               clause: JoinClause) {
    || (base == name && edge == ForwardEdge(join) && SaysJoin(clause, baseAlias, TargetAlias(join), join))
    || (base == join.model && edge == ReverseEdge(name, join) && SaysJoin(clause, name, baseAlias, join))
  }

  /** What can be checked of an edge: it is forward, or its pairs include the exchange of each, or the base goes
      by the name of the edge's target. */
  predicate RightWayRound(edge: JoinEdge, baseAlias: string) {
    || !edge.reverse
    || (forall pair :: pair in edge.join.on ==> (pair.1, pair.0) in edge.join.on)
    || baseAlias == edge.target
  }

  lemma ForwardClauseSaysJoin(join: Join, baseAlias: string)
    ensures SaysJoin(ClauseOf(ForwardEdge(join), baseAlias), baseAlias, TargetAlias(join), join)
  {
    var clause := ClauseOf(ForwardEdge(join), baseAlias);
    forall i | 0 <= i < |join.on|
      ensures IsDeclared(clause.on[i], baseAlias, TargetAlias(join), join)
      ensures Holds(clause, Meaning(baseAlias, TargetAlias(join), join.on[i]))
    {
      assert join.on[i] in join.on && clause.on[i] in clause.on;
    }
  }

  lemma InSwapped(on: seq<(string, string)>, pair: (string, string))
    ensures pair in Swapped(on) <==> (pair.1, pair.0) in on
  {
    if (pair.1, pair.0) in on {
      var i :| 0 <= i < |on| && on[i] == (pair.1, pair.0);
      assert Swapped(on)[i] == pair;
    }
  }

  lemma ReverseCondition(name: string, join: Join, baseAlias: string, i: nat)
    requires i < |join.on|
    ensures ClauseOf(ReverseEdge(name, join), baseAlias).on[i] ==
      Condition(Column(name, join.on[i].1), Column(baseAlias, join.on[i].0))
  {
  }

  /** The columns of a reverse edge's clause are exchanged: it says what was declared exactly when that does not
      matter. */
  lemma ReverseClauseSaysJoinIff(name: string, join: Join, baseAlias: string)
    ensures SaysJoin(ClauseOf(ReverseEdge(name, join), baseAlias), name, baseAlias, join) <==>
      RightWayRound(ReverseEdge(name, join), baseAlias)
  {
    var clause, on := ClauseOf(ReverseEdge(name, join), baseAlias), join.on;
    forall i | 0 <= i < |on|
      ensures clause.on[i] == Condition(Column(name, on[i].1), Column(baseAlias, on[i].0))
    {
      ReverseCondition(name, join, baseAlias, i);
    }
    if RightWayRound(ReverseEdge(name, join), baseAlias) {
      forall i | 0 <= i < |on|
        ensures IsDeclared(clause.on[i], name, baseAlias, join) && Holds(clause, Meaning(name, baseAlias, on[i]))
      {
        assert on[i] in on && clause.on[i] in clause.on;
        if baseAlias != name {
          InSwapped(on, on[i]);
          InSwapped(on, (on[i].1, on[i].0));
          var k :| 0 <= k < |on| && on[k] == (on[i].1, on[i].0);
          assert on[k] in on && clause.on[k] in clause.on;
        }
      }
    } else {
      var pair :| pair in Swapped(on) && (pair.1, pair.0) !in Swapped(on);
      var i :| 0 <= i < |on| && Swapped(on)[i] == pair;
      InSwapped(on, (pair.1, pair.0));
      assert clause.on[i] in clause.on;
      assert !IsDeclared(clause.on[i], name, baseAlias, join);
    }
  }

  lemma DeclaredSaysIff(name: string, join: Join, base: string, baseAlias: string, edge: JoinEdge)
    requires DeclaredBy(name, join, base, edge)
    ensures SaysDeclared(name, join, base, baseAlias, edge, ClauseOf(edge, baseAlias)) <==>
      RightWayRound(edge, baseAlias)
  {
    ForwardClauseSaysJoin(join, baseAlias);
    ReverseClauseSaysJoinIff(name, join, baseAlias);
  }

  /** For any edge that leaves the base: its clause says what some model declared exactly when the edge is
      the right way round. */
  lemma EdgeSaysDeclarationIff(models: seq<Model>, base: string, baseAlias: string, edge: JoinEdge)
    requires edge in Edges(GraphOf(models), base)
    ensures SaysDeclaration(models, base, baseAlias, edge, ClauseOf(edge, baseAlias)) <==>
      RightWayRound(edge, baseAlias)
  {
    GraphEdgesAreDeclared(models, base, edge);
    if RightWayRound(edge, baseAlias) {
      var i :| 0 <= i < |models| && DeclaredAmong(models[i].name, models[i].joins, base, edge);
      var j :| 0 <= j < |models[i].joins| && DeclaredBy(models[i].name, models[i].joins[j], base, edge);
      DeclaredSaysIff(models[i].name, models[i].joins[j], base, baseAlias, edge);
    } else if SaysDeclaration(models, base, baseAlias, edge, ClauseOf(edge, baseAlias)) {
      var i, j :| 0 <= i < |models| && 0 <= j < |models[i].joins| &&
        SaysDeclared(models[i].name, models[i].joins[j], base, baseAlias, edge, ClauseOf(edge, baseAlias));
      DeclaredSaysIff(models[i].name, models[i].joins[j], base, baseAlias, edge);
    }
  }

  /** What a clause says, read off the declaration: the type and the table of the join, the alias it is given or
      else the name of the table, and its pairs in order, the base on its own side.  From the other side the
      columns of a pair come exchanged. */
  ghost predicate Spells(name: string, join: Join, forward: bool, baseAlias: string, clause: JoinClause) {
    && ReadKeyword(clause.joinType) == Some(join.joinType)
    && clause.table == (if forward then join.model else name)
    && clause.alias == (if forward && join.alias.Some? then join.alias.value else clause.table)
    && |clause.on| == |join.on|
    && forall k :: 0 <= k < |join.on| ==> clause.on[k] == SpelledPair(name, join, forward, baseAlias, clause.alias, k)
  }

  function SpelledPair(name: string, join: Join, forward: bool, baseAlias: string, alias: string, k: nat): Condition
    requires k < |join.on|
  {
    if forward then Condition(Column(baseAlias, join.on[k].0), Column(alias, join.on[k].1))
    else Condition(Column(alias, join.on[k].1), Column(baseAlias, join.on[k].0))
  }

  /** The joined tables of section 7.5 of ISO/IEC 9075:1992. */
  function ReadKeyword(text: string): Option<JoinType> {
    if text == "INNER JOIN" then Some(Inner)
    else if text == "LEFT JOIN" then Some(Left)
    else if text == "RIGHT JOIN" then Some(Right)
    else if text == "FULL JOIN" then Some(Full)
    else None
  }

  lemma ClauseSpells(name: string, join: Join, baseAlias: string)
    ensures Spells(name, join, true, baseAlias, ClauseOf(ForwardEdge(join), baseAlias))
    ensures Spells(name, join, false, baseAlias, ClauseOf(ReverseEdge(name, join), baseAlias))
  {
    KeywordReads(join.joinType);
    var clause := ClauseOf(ReverseEdge(name, join), baseAlias);
    forall k | 0 <= k < |join.on| ensures clause.on[k] == SpelledPair(name, join, false, baseAlias, clause.alias, k) {
      ReverseCondition(name, join, baseAlias, k);
    }
  }

  lemma KeywordReads(joinType: JoinType)
    ensures ReadKeyword(Keyword(joinType)) == Some(joinType)
  {
    match joinType
    case Inner =>
    case Left =>
    case Right =>
    case Full =>
  }

  /** The clause spells some declaration. */
  ghost predicate DeclaredClause(models: seq<Model>, baseAlias: string, clause: JoinClause) {
    exists i, j, forward :: 0 <= i < |models| && 0 <= j < |models[i].joins| &&
      Spells(models[i].name, models[i].joins[j], forward, baseAlias, clause)
  }

  /** Where all joins are direct: each clause spells the first declaration between the base and its table.  It says
      what was declared when the base made that declaration; else exactly when the pairs include the exchange of
      each, or the base goes by the name of the table. */
  ghost predicate DirectClausesSay(models: seq<Model>, base: string, baseAlias: string, clauses: seq<JoinClause>) {
    forall i :: 0 <= i < |clauses| ==> DirectClauseSays(models, base, baseAlias, clauses[i])
  }

  ghost predicate DirectClauseSays(models: seq<Model>, base: string, baseAlias: string, clause: JoinClause) {
    exists i, j :: FirstBetween(models, base, clause.table, i, j) &&
      SpellsAndSays(models[i].name, models[i].joins[j], base, baseAlias, clause)
  }

  ghost predicate SpellsAndSays(name: string, join: Join, base: string, baseAlias: string, clause: JoinClause) {
    && Spells(name, join, name == base, baseAlias, clause)
    && if name == base then SaysJoin(clause, baseAlias, clause.alias, join)
       else SaysJoin(clause, name, baseAlias, join) <==> (HoldsExchanges(join.on) || baseAlias == clause.table)
  }

  predicate HoldsExchanges(on: seq<(string, string)>) {
    forall pair :: pair in on ==> (pair.1, pair.0) in on
  }

  lemma ExchangesOfSwapped(on: seq<(string, string)>)
    ensures HoldsExchanges(Swapped(on)) <==> HoldsExchanges(on)
  {
    forall pair ensures pair in Swapped(on) <==> (pair.1, pair.0) in on {
      InSwapped(on, pair);
    }
    if HoldsExchanges(Swapped(on)) {
      forall pair | pair in on ensures (pair.1, pair.0) in on {
        assert (pair.1, pair.0) in Swapped(on);
        assert pair in Swapped(on);
      }
    }
    if HoldsExchanges(on) {
      forall pair | pair in Swapped(on) ensures (pair.1, pair.0) in Swapped(on) {
        assert (pair.1, pair.0) in on;
        assert pair in on;
      }
    }
  }

  lemma ClauseSpellsAndSays(name: string, join: Join, base: string, baseAlias: string)
    ensures SpellsAndSays(name, join, base, baseAlias, ClauseOf(EdgeFor(name, join, base), baseAlias))
  {
    ClauseSpells(name, join, baseAlias);
    ForwardClauseSaysJoin(join, baseAlias);
    ReverseClauseSaysJoinIff(name, join, baseAlias);
    ExchangesOfSwapped(join.on);
  }

  lemma DirectClausesSayDeclarationIff(models: seq<Model>, base: string, required: seq<string>, baseAlias: string,
                                       edges: Path, clauses: seq<JoinClause>)
    requires AllDirect(models, base, required)
    requires forall m :: m in required ==> m == base || m in Tree(GraphOf(models), base)
    requires OnlyNeeded(Tree(GraphOf(models), base), base, required, edges)
    requires forall i :: 0 <= i < |edges| ==> edges[i].join.model == edges[i].target != base
    requires |clauses| == |edges| && forall i :: 0 <= i < |edges| ==> clauses[i] == ClauseOf(edges[i], baseAlias)
    ensures DirectClausesSay(models, base, baseAlias, clauses)
  {
    DirectJoinsStayDirect(models, base, required, edges);
    forall k | 0 <= k < |clauses| ensures DirectClauseSays(models, base, baseAlias, clauses[k]) {
      assert edges[k] in edges;
      FirstOfAll(models, base, edges[k].target);
      var i, j :| FirstBetween(models, base, edges[k].target, i, j) &&
        edges[k] == EdgeFor(models[i].name, models[i].joins[j], base);
      ClauseSpellsAndSays(models[i].name, models[i].joins[j], base, baseAlias);
    }
  }

  method BuildClause(edge: JoinEdge, baseAlias: string) returns (clause: JoinClause)
    ensures clause == ClauseOf(edge, baseAlias)
  {
    var on: seq<Condition> := [];
    for j := 0 to |edge.join.on|
      invariant on == OnConditions(edge, baseAlias, edge.join.on[..j])
    {
      assert edge.join.on[..j + 1][..j] == edge.join.on[..j];
      on := on + [OnCondition(edge, baseAlias, edge.join.on[j])];
    }
    assert edge.join.on[..|edge.join.on|] == edge.join.on;
    clause := JoinClause(Keyword(edge.join.joinType), edge.join.model, TargetAlias(edge.join), on);
  }

  /** One clause per edge, in order, each spelling a declaration; no table twice, never the base, every required one. */
  ghost predicate ClausesOk(models: seq<Model>, base: string, required: seq<string>, baseAlias: string, edges: Path,
                            clauses: seq<JoinClause>) {
    && |clauses| == |edges|
    && (forall i :: 0 <= i < |edges| ==> clauses[i] == ClauseOf(edges[i], baseAlias))
    && (forall i, j :: 0 <= i < j < |clauses| ==> clauses[i].table != clauses[j].table)
    && (forall i :: 0 <= i < |clauses| ==> clauses[i].table == edges[i].target != base)
    && (forall i :: 0 <= i < |clauses| ==> DeclaredClause(models, baseAlias, clauses[i]))
    && (forall m :: m in required && m != base ==> HasTable(clauses, m))
  }

  ghost predicate HasTable(clauses: seq<JoinClause>, table: string) {
    exists i :: 0 <= i < |clauses| && clauses[i].table == table
  }

  /** The join tree: the paths to the required models, each target once. */
  ghost function NeededEdges(models: seq<Model>, base: string, required: seq<string>): Path
    requires forall m :: m in required ==> m == base || m in Tree(GraphOf(models), base)
  {
    FirstByTarget(AllEdges(Tree(GraphOf(models), base), base, required))
  }

  /** Joins every required model to the base, one clause per edge of the join tree. */
  method BuildJoinClauses(models: seq<Model>, base: string, required: seq<string>, baseAlias: string)
    returns (r: Result<seq<JoinClause>, JoinError>)
    ensures r.Ok? <==> forall m :: m in required ==> m == base || m in Tree(GraphOf(models), base)
    ensures r.Err? ==> FirstUnreached(Tree(GraphOf(models), base), base, required, r.error)
    ensures r.Ok? ==>
      ClausesOk(models, base, required, baseAlias, NeededEdges(models, base, required), r.value)
    ensures AllDirect(models, base, required) ==> r.Ok? && DirectClausesSay(models, base, baseAlias, r.value)
  {
    if AllDirect(models, base, required) {
      DirectModelsAreReached(models, base, required);
    }
    var graph := new JoinGraph(models);
    var edges := graph.ResolveJoins(base, required);
    match edges {
      case Err(e) => return Err(e);
      case Ok(edges) =>
        var clauses: seq<JoinClause> := [];
        for i := 0 to |edges|
          invariant |clauses| == i
          invariant forall k :: 0 <= k < i ==> clauses[k] == ClauseOf(edges[k], baseAlias)
        {
          var clause := BuildClause(edges[i], baseAlias);
          clauses := clauses + [clause];
        }
        ClausesFromTree(models, base, required, baseAlias, edges, clauses);
        r := Ok(clauses);
    }
  }

  lemma ClausesFromTree(models: seq<Model>, base: string, required: seq<string>, baseAlias: string, edges: Path,
                        clauses: seq<JoinClause>)
    requires JoinTree(GraphOf(models), base, edges) && |clauses| == |edges|
    requires forall m :: m in required ==> m == base || m in Tree(GraphOf(models), base)
    requires Covers(Tree(GraphOf(models), base), base, required, edges)
    requires OnlyNeeded(Tree(GraphOf(models), base), base, required, edges)
    requires forall i :: 0 <= i < |edges| ==> clauses[i] == ClauseOf(edges[i], baseAlias)
    ensures ClausesOk(models, base, required, baseAlias, edges, clauses)
    ensures AllDirect(models, base, required) ==> DirectClausesSay(models, base, baseAlias, clauses)
  {
    TablesAreTargets(models, base, edges);
    forall i | 0 <= i < |edges| ensures DeclaredClause(models, baseAlias, clauses[i]) {
      var m, j, forward := DeclarationOf(models, edges[i]);
      ClauseSpells(models[m].name, models[m].joins[j], baseAlias);
      assert Spells(models[m].name, models[m].joins[j], forward, baseAlias, clauses[i]);
    }
    if AllDirect(models, base, required) {
      DirectClausesSayDeclarationIff(models, base, required, baseAlias, edges, clauses);
    }
    forall m | m in required && m != base ensures HasTable(clauses, m) {
      var path := Tree(GraphOf(models), base)[m];
      TreePathIsWalk(GraphOf(models), base, m);
      WalkEnds(GraphOf(models), base, path, m);
      var last := path[|path| - 1];
      assert last in edges;
      var i :| 0 <= i < |edges| && edges[i] == last;
      assert clauses[i].table == m;
    }
  }

  lemma WalkEnds(adj: Adjacency, from: string, walk: Path, to: string)
    requires IsWalk(adj, from, walk, to) && from != to
    ensures walk != [] && walk[|walk| - 1].target == to
  {
    assert NodeAt(from, walk, |walk|) == to;
  }

  /** Some model declared the edge, forwards or backwards. */
  ghost predicate SomewhereDeclared(models: seq<Model>, edge: JoinEdge) {
    exists model :: edge in Edges(GraphOf(models), model)
  }

  lemma DeclarationOf(models: seq<Model>, edge: JoinEdge) returns (i: nat, j: nat, forward: bool)
    requires SomewhereDeclared(models, edge)
    ensures i < |models| && j < |models[i].joins|
    ensures edge == if forward then ForwardEdge(models[i].joins[j]) else ReverseEdge(models[i].name, models[i].joins[j])
  {
    var model :| edge in Edges(GraphOf(models), model);
    GraphEdgesAreDeclared(models, model, edge);
    i :| 0 <= i < |models| && DeclaredAmong(models[i].name, models[i].joins, model, edge);
    j :| 0 <= j < |models[i].joins| && DeclaredBy(models[i].name, models[i].joins[j], model, edge);
    forward := edge == ForwardEdge(models[i].joins[j]);
  }

  lemma TablesAreTargets(models: seq<Model>, base: string, edges: Path)
    requires JoinTree(GraphOf(models), base, edges)
    ensures forall i :: 0 <= i < |edges| ==>
      SomewhereDeclared(models, edges[i]) && edges[i].join.model == edges[i].target
  {
    forall i | 0 <= i < |edges|
      ensures SomewhereDeclared(models, edges[i]) && edges[i].join.model == edges[i].target
    {
      assert Attached(GraphOf(models), base, edges, i);
      if edges[i] !in Edges(GraphOf(models), base) {
        var j :| 0 <= j < i && Follows(GraphOf(models), edges[j], edges[i]);
        assert edges[i] in Edges(GraphOf(models), edges[j].target);
      }
      var m, j, forward := DeclarationOf(models, edges[i]);
    }
  }

  // ---------- clauses that do not say what was declared ----------

  const CUSTOMER_OF_ORDER: Join := Join("customer", "customers", Left, [("customer_id", "id")], None)
  const ORDERS_OF_CUSTOMER: Join := Join("orders", "orders", Left, [("id", "customer_id")], None)

  const ORDERS: Model := Model("orders", [CUSTOMER_OF_ORDER])
  const CUSTOMERS: Model := Model("customers", [ORDERS_OF_CUSTOMER])
  const PLAIN_CUSTOMERS: Model := Model("customers", [])

  lemma EdgesOfTwo(a: Model, b: Model, model: string)
    ensures DeclaredEdges([a, b], model) ==
      EdgesFrom(a.name, a.joins, model) + EdgesFrom(b.name, b.joins, model)
  {
    assert [a, b][..1] == [a] && [a][..0] == [];
    assert DeclaredEdges([a], model) == EdgesFrom(a.name, a.joins, model);
  }

  lemma EdgesFromOne(name: string, join: Join, model: string)
    ensures EdgesFrom(name, [join], model) == EdgesOf(name, join, model)
  {
    assert [join][..0] == [];
  }

  lemma OneRequired(tree: map<string, Path>, base: string, edge: JoinEdge)
    requires edge.target != base && edge.target in tree && tree[edge.target] == [edge]
    ensures FirstByTarget(AllEdges(tree, base, [edge.target])) == [edge]
  {
    assert [edge.target][..0] == [] && AllEdges(tree, base, [edge.target]) == [edge];
    assert [edge][..0] == [];
  }

  lemma OneDirect(models: seq<Model>, base: string, model: string)
    requires model != base && FirstInto(DeclaredEdges(models, base), model).Some?
    ensures AllDirect(models, base, [model]) && model in Tree(GraphOf(models), base)
    ensures NeededEdges(models, base, [model]) == [FirstInto(DeclaredEdges(models, base), model).value]
  {
    var edge := FirstInto(DeclaredEdges(models, base), model).value;
    EdgesInOrder(models, base);
    FirstOfAll(models, base, model);
    FirstEdgeIsPath(GraphOf(models), base, model);
    OneRequired(Tree(GraphOf(models), base), base, edge);
  }

  lemma OrdersFromCustomers()
    ensures DeclaredEdges([ORDERS, PLAIN_CUSTOMERS], "customers") == [ReverseEdge("orders", CUSTOMER_OF_ORDER)]
  {
    EdgesOfTwo(ORDERS, PLAIN_CUSTOMERS, "customers");
    EdgesFromOne("orders", CUSTOMER_OF_ORDER, "customers");
  }

  lemma OrdersAreExchanged(baseAlias: string)
    requires baseAlias != "orders"
    ensures var edge := ReverseEdge("orders", CUSTOMER_OF_ORDER);
      && ClauseOf(edge, baseAlias).on == [Condition(Column("orders", "id"), Column(baseAlias, "customer_id"))]
      && !RightWayRound(edge, baseAlias)
  {
    var on := ReverseEdge("orders", CUSTOMER_OF_ORDER).join.on;
    ReverseCondition("orders", CUSTOMER_OF_ORDER, baseAlias, 0);
    assert on == [("id", "customer_id")];
    assert on[0] in on && (on[0].1, on[0].0) !in on;
  }

  /** Orders declare `orders.customer_id = customers.id`.  Joining orders to customers goes the other way, by
      the reverse edge, and its clause does not say so, whatever the base is called unless "orders". */
  lemma ReverseJoinIsExchanged(baseAlias: string)
    requires baseAlias != "orders"
    ensures var models, edge := [ORDERS, PLAIN_CUSTOMERS], ReverseEdge("orders", CUSTOMER_OF_ORDER);
      && AllDirect(models, "customers", ["orders"]) && "orders" in Tree(GraphOf(models), "customers")
      && NeededEdges(models, "customers", ["orders"]) == [edge]
      && ClauseOf(edge, baseAlias).on == [Condition(Column("orders", "id"), Column(baseAlias, "customer_id"))]
      && !SaysDeclaration(models, "customers", baseAlias, edge, ClauseOf(edge, baseAlias))
  {
    var models, edge := [ORDERS, PLAIN_CUSTOMERS], ReverseEdge("orders", CUSTOMER_OF_ORDER);
    OrdersFromCustomers();
    OneDirect(models, "customers", "orders");
    EdgesInOrder(models, "customers");
    OrdersAreExchanged(baseAlias);
    EdgeSaysDeclarationIff(models, "customers", baseAlias, edge);
  }

  /** Some model declared what the clause says. */
  ghost predicate SomebodyDeclared(models: seq<Model>, base: string, baseAlias: string, clause: JoinClause) {
    exists edge :: edge in DeclaredEdges(models, base) && SaysDeclaration(models, base, baseAlias, edge, clause)
  }

  lemma MutualEdges()
    ensures DeclaredEdges([CUSTOMERS, ORDERS], "orders") ==
      [ReverseEdge("customers", ORDERS_OF_CUSTOMER), ForwardEdge(CUSTOMER_OF_ORDER)]
    ensures DeclaredEdges([ORDERS, CUSTOMERS], "orders") ==
      [ForwardEdge(CUSTOMER_OF_ORDER), ReverseEdge("customers", ORDERS_OF_CUSTOMER)]
  {
    EdgesOfTwo(CUSTOMERS, ORDERS, "orders");
    EdgesOfTwo(ORDERS, CUSTOMERS, "orders");
    EdgesFromOne("customers", ORDERS_OF_CUSTOMER, "orders");
    EdgesFromOne("orders", CUSTOMER_OF_ORDER, "orders");
  }

  /** Each of two models declares its join to the other, and orders are joined to customers.  When orders come
      first, the clause says what they declared; when customers do, it is one that nobody declared. */
  lemma MutualJoinsDependOnOrder(baseAlias: string)
    requires baseAlias != "customers"
    ensures var models, edge := [ORDERS, CUSTOMERS], ForwardEdge(CUSTOMER_OF_ORDER);
      && "customers" in Tree(GraphOf(models), "orders") && NeededEdges(models, "orders", ["customers"]) == [edge]
      && ClauseOf(edge, baseAlias).on == [Condition(Column(baseAlias, "customer_id"), Column("customers", "id"))]
      && SomebodyDeclared(models, "orders", baseAlias, ClauseOf(edge, baseAlias))
    ensures var models, edge := [CUSTOMERS, ORDERS], ReverseEdge("customers", ORDERS_OF_CUSTOMER);
      && "customers" in Tree(GraphOf(models), "orders") && NeededEdges(models, "orders", ["customers"]) == [edge]
      && ClauseOf(edge, baseAlias).on == [Condition(Column("customers", "customer_id"), Column(baseAlias, "id"))]
      && !SomebodyDeclared(models, "orders", baseAlias, ClauseOf(edge, baseAlias))
  {
    MutualEdges();
    OneDirect([ORDERS, CUSTOMERS], "orders", "customers");
    OneDirect([CUSTOMERS, ORDERS], "orders", "customers");
    var forward, reverse := ForwardEdge(CUSTOMER_OF_ORDER), ReverseEdge("customers", ORDERS_OF_CUSTOMER);
    EdgesInOrder([ORDERS, CUSTOMERS], "orders");
    EdgeSaysDeclarationIff([ORDERS, CUSTOMERS], "orders", baseAlias, forward);
    var clause := ClauseOf(reverse, baseAlias);
    NobodyDeclaredExchanged(clause, baseAlias);
  }

  lemma NobodyDeclaredExchanged(clause: JoinClause, baseAlias: string)
    requires baseAlias != "customers"
    requires clause.on == [Condition(Column("customers", "customer_id"), Column(baseAlias, "id"))]
    ensures !SomebodyDeclared([CUSTOMERS, ORDERS], "orders", baseAlias, clause)
  {
    assert ("customer_id", "id") in CUSTOMER_OF_ORDER.on;
    assert ("id", "customer_id") in ORDERS_OF_CUSTOMER.on;
    assert !SaysJoin(clause, baseAlias, "customers", CUSTOMER_OF_ORDER);
    assert !SaysJoin(clause, "customers", baseAlias, ORDERS_OF_CUSTOMER);
  }
}
