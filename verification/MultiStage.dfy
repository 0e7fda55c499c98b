/** `execute_multi_stage` and `apply_stage_ref` of crates/graphnight-runtime/src/governance.rs.

    Running one governed query is an unknown function of the number of queries run before and of the
    query: it may answer or fail as it likes. */
module MultiStage {
  import opened Results
  import opened Queries
  import opened StageOrder

  datatype Row = ObjectRow(columns: seq<(string, Value)>) | ScalarRow(value: Value)

  datatype Outcome = Outcome(data: seq<Row>, id: nat)

  datatype StageError =
    | NoStages
    | Order(error: OrderError)
    | DuplicateName(name: string)
    | NotEarlierStage(reference: string)
    | MissingStage(name: string)
    | Failed(message: string)

  type Executor = (nat, Query) -> Result<Outcome, string>

  datatype Run = Run(name: string, query: Query, outcome: Outcome)

  // ---------- filters from a referenced stage ----------

  predicate UsableColumn(column: string) {
    column != [] && ' ' !in column
  }

  function ColumnFilter(column: (string, Value)): Filter {
    Filter(column.0, Eq, column.1, false)
  }

  function ColumnFilters(columns: seq<(string, Value)>): (r: seq<Filter>)
    ensures forall f :: f in r <==> exists c :: c in columns && UsableColumn(c.0) && f == ColumnFilter(c)
  {
    if columns == [] then []
    else
      var n := |columns| - 1;
      assert forall c :: c in columns <==> c in columns[..n] || c == columns[n];
      ColumnFilters(columns[..n]) + (if UsableColumn(columns[n].0) then [ColumnFilter(columns[n])] else [])
  }

  function FirstRowFilters(previous: Outcome): seq<Filter> {
    if previous.data != [] && previous.data[0].ObjectRow? then ColumnFilters(previous.data[0].columns) else []
  }

  method ApplyStageRef(query: Query, previous: Outcome) returns (r: Query)
    ensures r == query.(filters := query.filters + FirstRowFilters(previous))
  {
    r := query;
    if previous.data == [] || !previous.data[0].ObjectRow? {
      return;
    }
    var columns := previous.data[0].columns;
    for i := 0 to |columns|
      invariant r == query.(filters := query.filters + ColumnFilters(columns[..i]))
    {
      assert columns[..i + 1][..i] == columns[..i];
      if UsableColumn(columns[i].0) {
        r := r.(filters := r.filters + [Filter(columns[i].0, Eq, columns[i].1, false)]);
      }
    }
    assert columns[..|columns|] == columns;
  }

  // ---------- running the pipeline ----------

  /** The query a stage runs, given what the stage it refers to answered. */
  function Prepared(stage: Stage, previous: Option<Outcome>): Query {
    var added := if previous.Some? then FirstRowFilters(previous.value) else [];
    var filtered := stage.query.(filters := stage.query.filters + added);
    if filtered.name.None? && filtered.sourceModel.None? then filtered.(name := Some(stage.name)) else filtered
  }

  // ---------- what a stage asks ----------

  /** Column `i` has a name without blanks. */
  predicate Named(columns: seq<(string, Value)>, i: nat) {
    i < |columns| && columns[i].0 != "" && ' ' !in columns[i].0
  }

  /** The positions of the columns that have one, in order. */
  ghost predicate Picks(columns: seq<(string, Value)>, picks: seq<nat>) {
    && (forall k :: 0 <= k < |picks| ==> Named(columns, picks[k]))
    && (forall k, l :: 0 <= k < l < |picks| ==> picks[k] < picks[l])
    && (forall i: nat :: Named(columns, i) ==> i in picks)
  }

  /** The column equals its value, and this is not an alternative. */
  predicate Equates(filter: Filter, column: (string, Value)) {
    filter.field == column.0 && filter.operator.Eq? && filter.value == column.1 && !filter.orCondition
  }

  /** One filter per such column, in order. */
  ghost predicate PickedFilters(columns: seq<(string, Value)>, picks: seq<nat>, added: seq<Filter>) {
    |added| == |picks| &&
    forall k :: 0 <= k < |added| ==> Named(columns, picks[k]) && Equates(added[k], columns[picks[k]])
  }

  ghost predicate AskedOf(columns: seq<(string, Value)>, added: seq<Filter>) {
    exists picks :: Picks(columns, picks) && PickedFilters(columns, picks, added)
  }

  /** The filters that the outcome of the stage referred to adds: those of its first row, if that is an object. */
  ghost predicate Added(previous: Option<Outcome>, added: seq<Filter>) {
    if previous.Some? && previous.value.data != [] && previous.value.data[0].ObjectRow? then
      AskedOf(previous.value.data[0].columns, added)
    else added == []
  }

  /** What a stage asks: its own query and filters, the added filters after them, and its name as the name of the
      query where that has neither a name nor a source. */
  ghost predicate Asks(stage: Stage, previous: Option<Outcome>, query: Query) {
    var own := stage.query;
    && query == own.(filters := query.filters, name := query.name)
    && query.name == (if own.name.None? && own.sourceModel.None? then Some(stage.name) else own.name)
    && |own.filters| <= |query.filters| && query.filters[..|own.filters|] == own.filters
    && Added(previous, query.filters[|own.filters|..])
  }

  lemma PicksFront(columns: seq<(string, Value)>, picks: seq<nat>)
    requires columns != [] && Picks(columns, picks)
    ensures var n := |columns| - 1;
      if UsableColumn(columns[n].0) then
        picks != [] && picks[|picks| - 1] == n && Picks(columns[..n], picks[..|picks| - 1])
      else Picks(columns[..n], picks)
  {
    var n := |columns| - 1;
    if UsableColumn(columns[n].0) {
      assert Named(columns, n) && n in picks;
      var k :| 0 <= k < |picks| && picks[k] == n;
      assert picks[k] <= picks[|picks| - 1] && Named(columns, picks[|picks| - 1]);
      FrontOfPicks(columns, picks);
    } else {
      forall k | 0 <= k < |picks| ensures Named(columns[..n], picks[k]) {
        assert Named(columns, picks[k]) && picks[k] != n;
      }
      NamedInFront(columns);
    }
  }

  lemma NamedInFront(columns: seq<(string, Value)>)
    requires columns != []
    ensures forall i: nat :: Named(columns[..|columns| - 1], i) <==> Named(columns, i) && i < |columns| - 1
    ensures Named(columns, |columns| - 1) <==> UsableColumn(columns[|columns| - 1].0)
  {
    var front := columns[..|columns| - 1];
    forall i: nat ensures Named(front, i) <==> Named(columns, i) && i < |front| {
      if i < |front| {
        assert front[i] == columns[i];
      }
    }
  }

  lemma FrontOfPicks(columns: seq<(string, Value)>, picks: seq<nat>)
    requires columns != [] && Picks(columns, picks) && picks != [] && picks[|picks| - 1] == |columns| - 1
    ensures Picks(columns[..|columns| - 1], picks[..|picks| - 1])
  {
    var n, m := |columns| - 1, |picks| - 1;
    NamedInFront(columns);
    forall k | 0 <= k < m ensures Named(columns[..n], picks[..m][k]) {
      assert Named(columns, picks[k]) && picks[k] < picks[m];
    }
    forall i: nat | Named(columns[..n], i) ensures i in picks[..m] {
      assert Named(columns, i) && i in picks;
      var k :| 0 <= k < |picks| && picks[k] == i;
      assert picks[..m][k] == i;
    }
  }

  lemma {:induction false} PickedAreColumnFilters(columns: seq<(string, Value)>, picks: seq<nat>, added: seq<Filter>)
    requires Picks(columns, picks) && PickedFilters(columns, picks, added)
    ensures added == ColumnFilters(columns)
  {
    if columns != [] {
      var n := |columns| - 1;
      PicksFront(columns, picks);
      if UsableColumn(columns[n].0) {
        var m := |picks| - 1;
        PickedAreColumnFilters(columns[..n], picks[..m], added[..m]);
        assert added == added[..m] + [added[m]];
      } else {
        PickedAreColumnFilters(columns[..n], picks, added);
      }
    }
  }

  lemma {:induction false} ColumnFiltersArePicked(columns: seq<(string, Value)>) returns (picks: seq<nat>)
    ensures Picks(columns, picks) && PickedFilters(columns, picks, ColumnFilters(columns))
  {
    if columns == [] {
      picks := [];
    } else {
      var n := |columns| - 1;
      var before := ColumnFiltersArePicked(columns[..n]);
      picks := if UsableColumn(columns[n].0) then before + [n] else before;
      PicksGrow(columns, before, picks);
      FiltersGrow(columns, before, picks);
    }
  }

  lemma FiltersGrow(columns: seq<(string, Value)>, before: seq<nat>, picks: seq<nat>)
    requires columns != [] && Picks(columns[..|columns| - 1], before) && Picks(columns, picks)
    requires PickedFilters(columns[..|columns| - 1], before, ColumnFilters(columns[..|columns| - 1]))
    requires picks == if UsableColumn(columns[|columns| - 1].0) then before + [|columns| - 1] else before
    ensures PickedFilters(columns, picks, ColumnFilters(columns))
  {
    var n := |columns| - 1;
    var front := ColumnFilters(columns[..n]);
    FiltersKept(columns, before, front);
    if UsableColumn(columns[n].0) {
      FilterAppended(columns, before, front, n);
    }
  }

  lemma FiltersKept(columns: seq<(string, Value)>, picks: seq<nat>, added: seq<Filter>)
    requires columns != [] && PickedFilters(columns[..|columns| - 1], picks, added)
    ensures PickedFilters(columns, picks, added)
  {
    NamedInFront(columns);
    forall k | 0 <= k < |added| ensures Named(columns, picks[k]) && Equates(added[k], columns[picks[k]]) {
      assert Named(columns[..|columns| - 1], picks[k]);
      assert columns[..|columns| - 1][picks[k]] == columns[picks[k]];
    }
  }

  lemma FilterAppended(columns: seq<(string, Value)>, picks: seq<nat>, added: seq<Filter>, n: nat)
    requires PickedFilters(columns, picks, added) && Named(columns, n)
    ensures PickedFilters(columns, picks + [n], added + [ColumnFilter(columns[n])])
  {
  }

  lemma PicksGrow(columns: seq<(string, Value)>, before: seq<nat>, picks: seq<nat>)
    requires columns != [] && Picks(columns[..|columns| - 1], before)
    requires picks == if UsableColumn(columns[|columns| - 1].0) then before + [|columns| - 1] else before
    ensures Picks(columns, picks)
  {
    var n := |columns| - 1;
    NamedInFront(columns);
    forall k | 0 <= k < |picks| ensures Named(columns, picks[k]) {
      assert k < |before| ==> picks[k] == before[k] && Named(columns[..n], before[k]);
    }
    forall k, l | 0 <= k < l < |picks| ensures picks[k] < picks[l] {
      assert Named(columns[..n], before[k]);
      assert l < |before| ==> before[k] < before[l];
    }
    forall i: nat | Named(columns, i) ensures i in picks {
      if i < n {
        assert Named(columns[..n], i) && i in before;
      }
    }
  }

  /** What a stage asks is what the code prepares, and nothing else. */
  lemma AsksIff(stage: Stage, previous: Option<Outcome>, query: Query)
    ensures Asks(stage, previous, query) <==> query == Prepared(stage, previous)
  {
    var own, prepared := stage.query, Prepared(stage, previous);
    var added := if previous.Some? then FirstRowFilters(previous.value) else [];
    assert prepared.filters == own.filters + added;
    assert (own.filters + added)[|own.filters|..] == added && (own.filters + added)[..|own.filters|] == own.filters;
    if previous.Some? && previous.value.data != [] && previous.value.data[0].ObjectRow? {
      var columns := previous.value.data[0].columns;
      var picks := ColumnFiltersArePicked(columns);
      assert AskedOf(columns, added);
    }
    if Asks(stage, previous, query) {
      var more := query.filters[|own.filters|..];
      AddedIsUnique(previous, more, added);
      assert query.filters == own.filters + more;
    }
  }

  lemma AddedIsUnique(previous: Option<Outcome>, a: seq<Filter>, b: seq<Filter>)
    requires Added(previous, a) && Added(previous, b)
    ensures a == b
  {
    if previous.Some? && previous.value.data != [] && previous.value.data[0].ObjectRow? {
      var columns := previous.value.data[0].columns;
      var p :| Picks(columns, p) && PickedFilters(columns, p, a);
      var q :| Picks(columns, q) && PickedFilters(columns, q, b);
      PickedAreColumnFilters(columns, p, a);
      PickedAreColumnFilters(columns, q, b);
    }
  }

  /** Only the first row of the stage referred to matters. */
  lemma SameFirstRowSameQuery(stage: Stage, a: Outcome, b: Outcome, p: Query, q: Query)
    requires a.data != [] && b.data != [] && a.data[0] == b.data[0]
    requires Asks(stage, Some(a), p) && Asks(stage, Some(b), q)
    ensures p == q
  {
    AsksIff(stage, Some(a), p);
    AsksIff(stage, Some(b), q);
  }

  // ---------- the log of a run ----------

  /** Position `i` of the caller's list was run as entry `k` of the log, after the stage it refers to. */
  ghost predicate RanAs(stages: seq<Stage>, log: seq<Run>, i: nat, k: nat)
    requires i < |stages| && k < |log|
  {
    && log[k].name == stages[i].name
    && match stages[i].query.stageRef
       case None => Asks(stages[i], None, log[k].query)
       case Some(reference) => exists j :: 0 <= j < k && PreparedFrom(stages[i], log, j, k, reference)
  }

  ghost predicate PreparedFrom(stage: Stage, log: seq<Run>, j: nat, k: nat, reference: string)
    requires j < k < |log|
  {
    log[j].name == reference && Asks(stage, Some(log[j].outcome), log[k].query)
  }

  function RunNames(log: seq<Run>): seq<string> {
    seq(|log|, i requires 0 <= i < |log| => log[i].name)
  }

  ghost predicate Executed(exec: Executor, log: seq<Run>) {
    forall k :: 0 <= k < |log| ==> exec(k, log[k].query) == Ok(log[k].outcome)
  }

  /** Every entry of the log is some listed stage, run as it should be, its outcome in the stage's slot. */
  ghost predicate SlotsHold(stages: seq<Stage>, log: seq<Run>, slots: seq<Option<Outcome>>) {
    && |slots| == |stages|
    && (forall k :: 0 <= k < |log| ==> RunHolds(stages, log, slots, k))
    && (forall i :: 0 <= i < |slots| && stages[i].name !in RunNames(log) ==> slots[i].None?)
  }

  ghost predicate RunHolds(stages: seq<Stage>, log: seq<Run>, slots: seq<Option<Outcome>>, k: nat)
    requires |slots| == |stages| && k < |log|
  {
    exists i :: 0 <= i < |stages| && RanAs(stages, log, i, k) && slots[i] == Some(log[k].outcome)
  }

  ghost predicate Positions(stages: seq<Stage>, position: map<string, nat>) {
    && (forall i :: 0 <= i < |stages| ==> stages[i].name in position && position[stages[i].name] == i)
    && (forall name :: name in position ==> position[name] < |stages| && stages[position[name]].name == name)
  }

  ghost predicate IsDuplicate(stages: seq<Stage>, name: string) {
    exists i, j :: 0 <= i < j < |stages| && stages[i].name == stages[j].name == name
  }

  method PositionsOf(stages: seq<Stage>) returns (r: Result<map<string, nat>, StageError>)
    ensures r.Ok? <==> DistinctNames(stages)
    ensures r.Ok? ==> Positions(stages, r.value)
    ensures r.Err? ==> r.error.DuplicateName? && IsDuplicate(stages, r.error.name)
  {
    var position: map<string, nat> := map[];
    for i := 0 to |stages|
      invariant DistinctNames(stages[..i]) && Positions(stages[..i], position)
    {
      assert stages[..i + 1] == stages[..i] + [stages[i]];
      if stages[i].name in position {
        assert stages[position[stages[i].name]].name == stages[i].name;
        return Err(DuplicateName(stages[i].name));
      }
      position := position[stages[i].name := i];
    }
    assert stages[..|stages|] == stages;
    r := Ok(position);
  }

  method FindStage(stages: seq<Stage>, name: string) returns (r: Option<Stage>)
    ensures r.Some? ==> r.value in stages && r.value.name == name
    ensures r.None? ==> name !in Names(stages)
  {
    for i := 0 to |stages|
      invariant name !in Names(stages[..i])
    {
      if stages[i].name == name {
        return Some(stages[i]);
      }
      assert stages[..i + 1] == stages[..i] + [stages[i]];
      NamesAppend(stages[..i], [stages[i]]);
    }
    assert stages[..|stages|] == stages;
    r := None;
  }

  lemma SlotsExtend(stages: seq<Stage>, log: seq<Run>, slots: seq<Option<Outcome>>, i: nat, run: Run)
    requires SlotsHold(stages, log, slots) && DistinctNames(stages)
    requires i < |stages| && run.name == stages[i].name && run.name !in RunNames(log)
    requires RanAs(stages, log + [run], i, |log|)
    ensures SlotsHold(stages, log + [run], slots[i := Some(run.outcome)])
  {
    var log', slots' := log + [run], slots[i := Some(run.outcome)];
    assert RunNames(log') == RunNames(log) + [run.name];
    forall k | 0 <= k < |log'| ensures RunHolds(stages, log', slots', k) {
      if k < |log| {
        assert RunHolds(stages, log, slots, k);
        var s :| 0 <= s < |stages| && RanAs(stages, log, s, k) && slots[s] == Some(log[k].outcome);
        assert RunNames(log)[k] == log[k].name;
        RanAsKept(stages, log, run, s, k);
      }
    }
  }

  lemma RanAsKept(stages: seq<Stage>, log: seq<Run>, run: Run, i: nat, k: nat)
    requires i < |stages| && k < |log| && RanAs(stages, log, i, k)
    ensures RanAs(stages, log + [run], i, k)
  {
    if stages[i].query.stageRef.Some? {
      var j :| 0 <= j < k && PreparedFrom(stages[i], log, j, k, stages[i].query.stageRef.value);
      assert PreparedFrom(stages[i], log + [run], j, k, stages[i].query.stageRef.value);
    }
  }

  ghost predicate SlotAnswered(stages: seq<Stage>, log: seq<Run>, slots: seq<Option<Outcome>>, i: nat)
    requires i < |stages| == |slots|
  {
    exists k :: 0 <= k < |log| && RanAs(stages, log, i, k) && slots[i] == Some(log[k].outcome)
  }

  /** Once every name has run, every slot holds the outcome of its own stage. */
  lemma AllSlotsFilled(stages: seq<Stage>, log: seq<Run>, slots: seq<Option<Outcome>>, i: nat)
    requires SlotsHold(stages, log, slots) && DistinctNames(stages) && i < |stages|
    requires stages[i].name in RunNames(log)
    ensures SlotAnswered(stages, log, slots, i)
  {
    var k :| 0 <= k < |log| && RunNames(log)[k] == stages[i].name;
    assert RunHolds(stages, log, slots, k);
  }

  function Flatten(slots: seq<Option<Outcome>>): seq<Outcome> {
    if slots == [] then []
    else Flatten(slots[..|slots| - 1]) + (match slots[|slots| - 1] case Some(o) => [o] case None => [])
  }

  lemma {:induction false} FlattenFull(slots: seq<Option<Outcome>>)
    requires forall i :: 0 <= i < |slots| ==> slots[i].Some?
    ensures |Flatten(slots)| == |slots|
    ensures forall i :: 0 <= i < |slots| ==> Flatten(slots)[i] == slots[i].value
  {
    if slots != [] {
      FlattenFull(slots[..|slots| - 1]);
    }
  }

  /** The query stage `i` is to run next. */
  method PrepareQuery(stages: seq<Stage>, i: nat, byName: map<string, Outcome>, ghost log: seq<Run>)
    returns (query: Query)
    requires i < |stages| && NamesHold(byName, log)
    requires stages[i].query.stageRef.Some? ==> stages[i].query.stageRef.value in byName
    ensures PreparedNext(stages, log, i, query)
  {
    query := stages[i].query;
    ghost var previous: Option<Outcome> := None;
    ghost var j := 0;
    if query.stageRef.Some? {
      var reference := query.stageRef.value;
      assert HeldBy(byName, log, reference);
      j :| 0 <= j < |log| && log[j].name == reference && log[j].outcome == byName[reference];
      previous := Some(log[j].outcome);
      query := ApplyStageRef(query, byName[reference]);
    }
    if query.name.None? && query.sourceModel.None? {
      query := query.(name := Some(stages[i].name));
    }
    AsksIff(stages[i], previous, query);
    forall outcome ensures RanAs(stages, log + [Run(stages[i].name, query, outcome)], i, |log|) {
      if previous.Some? {
        assert PreparedFrom(stages[i], log + [Run(stages[i].name, query, outcome)], j, |log|,
                            stages[i].query.stageRef.value);
      }
    }
  }

  /** The outcome at position `i` is that of a run of stage `i`. */
  ghost predicate Answered(stages: seq<Stage>, log: seq<Run>, outcomes: seq<Outcome>, i: nat)
    requires i < |stages| == |outcomes|
  {
    exists k :: 0 <= k < |log| && RanAs(stages, log, i, k) && outcomes[i] == log[k].outcome
  }

  /** The run stopped at the next stage of the schedule, whose query failed: the stages before it ran, each
      as it should, and no other did. */
  ghost predicate StoppedAt(stages: seq<Stage>, exec: Executor, order: seq<string>, log: seq<Run>, message: string) {
    && |log| < |order| && RunNames(log) == order[..|log|]
    && (forall k :: 0 <= k < |log| ==> RanSome(stages, log, k))
    && exists i :: 0 <= i < |stages| && stages[i].name == order[|log|] && RefusedNext(stages, exec, log, i, message)
  }

  /** Entry `k` of the log is some stage, run as it should be. */
  ghost predicate RanSome(stages: seq<Stage>, log: seq<Run>, k: nat)
    requires k < |log|
  {
    exists i :: 0 <= i < |stages| && RanAs(stages, log, i, k)
  }

  /** The query that stage `i` was to run next was refused. */
  ghost predicate RefusedNext(stages: seq<Stage>, exec: Executor, log: seq<Run>, i: nat, message: string)
    requires i < |stages|
  {
    exists query :: PreparedNext(stages, log, i, query) && exec(|log|, query) == Err(message)
  }

  /** Stage `i` is to run `query` after what the log holds, whatever comes of it. */
  ghost predicate PreparedNext(stages: seq<Stage>, log: seq<Run>, i: nat, query: Query)
    requires i < |stages|
  {
    forall outcome :: RanAs(stages, log + [Run(stages[i].name, query, outcome)], i, |log|)
  }

  ghost predicate IsSchedule(stages: seq<Stage>, order: seq<string>) {
    DistinctNames(stages) && Scheduled(stages, order) && multiset(order) == multiset(Names(stages))
  }

  /** Each error is answered for its own cause, and only a failed query comes after others have run. */
  ghost predicate Accounted(stages: seq<Stage>, exec: Executor, log: seq<Run>, e: StageError) {
    match e
    case NoStages => log == [] && stages == []
    case Order(error) => log == [] && stages != [] && Verdict(stages, Err(error))
    case DuplicateName(name) =>
      log == [] && IsDuplicate(stages, name)
    case Failed(message) => exists order :: IsSchedule(stages, order) && StoppedAt(stages, exec, order, log, message)
    case NotEarlierStage(_) => false
    case MissingStage(_) => false
  }

  /** Runs every stage once, after the stage it refers to, and answers in the caller's order. */
  method ExecuteMultiStage(stages: seq<Stage>, exec: Executor)
    returns (r: Result<seq<Outcome>, StageError>, log: seq<Run>)
    ensures Executed(exec, log)
    ensures r.Ok? ==> |r.value| == |stages| && forall i :: 0 <= i < |stages| ==> Answered(stages, log, r.value, i)
    ensures r.Ok? ==> IsSchedule(stages, RunNames(log))
    ensures r.Err? ==> Accounted(stages, exec, log, r.error)
  {
    log := [];
    if stages == [] {
      return Err(NoStages), log;
    }
    var order := TopologicalOrder(stages);
    if order.Err? {
      return Err(Order(order.error)), log;
    }
    var position := PositionsOf(stages);
    if position.Err? {
      return Err(position.error), log;
    }
    r, log := RunInOrder(stages, exec, order.value, position.value);
  }

  /** The main loop: runs the stages in the order given and puts each outcome in its caller's slot. */
  method RunInOrder(stages: seq<Stage>, exec: Executor, order: seq<string>, position: map<string, nat>)
    returns (r: Result<seq<Outcome>, StageError>, log: seq<Run>)
    requires IsSchedule(stages, order) && Positions(stages, position)
    ensures Executed(exec, log)
    ensures r.Ok? ==> RunNames(log) == order
    ensures r.Ok? ==> |r.value| == |stages| && forall i :: 0 <= i < |stages| ==> Answered(stages, log, r.value, i)
    ensures r.Err? ==> r.error.Failed? && StoppedAt(stages, exec, order, log, r.error.message)
  {
    log := [];
    var byName: map<string, Outcome> := map[];
    var slots: seq<Option<Outcome>> := seq(|stages|, _ => None);
    NothingRunYet(stages, exec);
    for n := 0 to |order|
      invariant Progress(stages, exec, order[..n], log, slots, byName)
    {
      var name := order[n];
      TurnOf(stages, order, n);
      var found := FindStage(stages, name);
      if found.None? {
        return Err(MissingStage(name)), log;
      }
      if found.value.query.stageRef.Some? {
        var reference := found.value.query.stageRef.value;
        if reference !in byName {
          return Err(NotEarlierStage(reference)), log;
        }
      }
      var i := position[name];
      assert stages[i] == found.value;
      var query := PrepareQuery(stages, i, byName, log);
      var outcome := exec(|log|, query);
      if outcome.Err? {
        StopsAt(stages, exec, order, n, log, slots, byName, i, query, outcome.error);
        return Err(Failed(outcome.error)), log;
      }
      var run := Run(name, query, outcome.value);
      assert RanAs(stages, log + [run], i, |log|);
      Advance(stages, exec, order, n, log, slots, byName, i, run);
      slots := slots[i := Some(outcome.value)];
      byName := byName[name := outcome.value];
      log := log + [run];
    }
    assert order[..|order|] == order;
    EverySlotAnswers(stages, order, log, slots);
    r := Ok(Flatten(slots));
  }

  lemma StopsAt(stages: seq<Stage>, exec: Executor, order: seq<string>, n: nat, log: seq<Run>,
                slots: seq<Option<Outcome>>,
                byName: map<string, Outcome>, i: nat, query: Query, message: string)
    requires n < |order| && Progress(stages, exec, order[..n], log, slots, byName)
    requires i < |stages| && stages[i].name == order[n]
    requires PreparedNext(stages, log, i, query) && exec(|log|, query) == Err(message)
    ensures StoppedAt(stages, exec, order, log, message)
  {
    assert |log| == |RunNames(log)| == n;
    forall k | 0 <= k < |log| ensures RanSome(stages, log, k) {
      assert RunHolds(stages, log, slots, k);
    }
    assert RefusedNext(stages, exec, log, i, message);
  }

  /** The stage whose turn it is belongs to the pipeline, has not run, and its reference has. */
  lemma TurnOf(stages: seq<Stage>, order: seq<string>, n: nat)
    requires DistinctNames(stages) && Scheduled(stages, order) && multiset(order) == multiset(Names(stages)) &&
      n < |order|
    ensures order[n] in Names(stages) && order[n] !in order[..n]
    ensures forall stage :: stage in stages && stage.name == order[n] ==> ReadyAfter(stage, order[..n])
  {
    OrderNamesOnce(stages, order, n);
    forall stage | stage in stages && stage.name == order[n] ensures ReadyAfter(stage, order[..n]) {
      if stage.query.stageRef.Some? {
        ReferenceComesFirst(stages, order, stage, n);
      }
    }
  }

  /** The state of the loop once the stages `done` have run. */
  ghost predicate Progress(stages: seq<Stage>, exec: Executor, done: seq<string>, log: seq<Run>,
                           slots: seq<Option<Outcome>>, byName: map<string, Outcome>) {
    && RunNames(log) == done
    && Executed(exec, log)
    && SlotsHold(stages, log, slots)
    && NamesHold(byName, log)
  }

  lemma Advance(stages: seq<Stage>, exec: Executor, order: seq<string>, n: nat, log: seq<Run>,
                slots: seq<Option<Outcome>>, byName: map<string, Outcome>, i: nat, run: Run)
    requires DistinctNames(stages) && n < |order| && order[n] !in order[..n]
    requires Progress(stages, exec, order[..n], log, slots, byName)
    requires i < |stages| && run.name == stages[i].name == order[n]
    requires RanAs(stages, log + [run], i, |log|)
    requires exec(|log|, run.query) == Ok(run.outcome)
    ensures Progress(stages, exec, order[..n + 1], log + [run], slots[i := Some(run.outcome)],
                     byName[run.name := run.outcome])
  {
    SlotsExtend(stages, log, slots, i, run);
    NamesExtend(byName, log, run);
    assert RunNames(log + [run]) == order[..n + 1];
  }

  lemma NothingRunYet(stages: seq<Stage>, exec: Executor)
    ensures Progress(stages, exec, [], [], seq(|stages|, _ => None), map[])
  {
    var log: seq<Run> := [];
    assert RunNames(log) == [];
  }

  lemma EverySlotAnswers(stages: seq<Stage>, order: seq<string>, log: seq<Run>, slots: seq<Option<Outcome>>)
    requires DistinctNames(stages) && multiset(order) == multiset(Names(stages))
    requires RunNames(log) == order && SlotsHold(stages, log, slots)
    ensures |Flatten(slots)| == |stages|
    ensures forall i :: 0 <= i < |stages| ==> Answered(stages, log, Flatten(slots), i)
  {
    forall i | 0 <= i < |stages| ensures SlotAnswered(stages, log, slots, i) && slots[i].Some? {
      NameInOrder(stages, order, stages[i]);
      AllSlotsFilled(stages, log, slots, i);
    }
    FlattenFull(slots);
    forall i | 0 <= i < |stages| ensures Answered(stages, log, Flatten(slots), i) {
      assert SlotAnswered(stages, log, slots, i);
      var k :| 0 <= k < |log| && RanAs(stages, log, i, k) && slots[i] == Some(log[k].outcome);
    }
  }

  /** `byName` holds, for each name that ran, an outcome the log has for it. */
  ghost predicate NamesHold(byName: map<string, Outcome>, log: seq<Run>) {
    && (forall name :: name in byName <==> name in RunNames(log))
    && forall name {:trigger HeldBy(byName, log, name)} :: name in byName ==> HeldBy(byName, log, name)
  }

  ghost predicate HeldBy(byName: map<string, Outcome>, log: seq<Run>, name: string)
    requires name in byName
  {
    exists k :: 0 <= k < |log| && log[k].name == name && log[k].outcome == byName[name]
  }

  lemma NamesExtend(byName: map<string, Outcome>, log: seq<Run>, run: Run)
    requires NamesHold(byName, log)
    ensures NamesHold(byName[run.name := run.outcome], log + [run])
  {
    var byName', log' := byName[run.name := run.outcome], log + [run];
    assert log'[|log|] == run;
    forall name | name in byName' ensures HeldBy(byName', log', name) {
      if name != run.name {
        assert HeldBy(byName, log, name);
        var k :| 0 <= k < |log| && log[k].name == name && log[k].outcome == byName[name];
        assert log'[k] == log[k];
      }
    }
    assert RunNames(log') == RunNames(log) + [run.name];
  }

  /** The schedule names each stage of the pipeline, and only once. */
  lemma OrderNamesOnce(stages: seq<Stage>, order: seq<string>, n: nat)
    requires DistinctNames(stages) && multiset(order) == multiset(Names(stages)) && n < |order|
    ensures order[n] in Names(stages)
    ensures order[n] !in order[..n]
  {
    assert order[n] in multiset(order);
    var i :| 0 <= i < |stages| && Names(stages)[i] == order[n];
    DistinctNamesOnce(stages, i);
    assert order == order[..n] + [order[n]] + order[n + 1..];
    assert multiset(order)[order[n]] == multiset(order[..n])[order[n]] + 1 + multiset(order[n + 1..])[order[n]];
    assert multiset(order[..n])[order[n]] == 0;
  }

  lemma DistinctNamesOnce(stages: seq<Stage>, i: nat)
    requires DistinctNames(stages) && i < |stages|
    ensures multiset(Names(stages))[stages[i].name] == 1
  {
    var names := Names(stages);
    assert names == names[..i] + [names[i]] + names[i + 1..];
    assert names[i] !in names[..i] && names[i] !in names[i + 1..];
  }
}
