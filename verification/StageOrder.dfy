/** `topological_order` of crates/graphnight-runtime/src/governance.rs: passes over the stages that are
    still waiting, until none is left or a pass resolves nothing. */
module StageOrder {
  import opened Results
  import opened Queries

  datatype Stage = Stage(name: string, query: Query)

  datatype OrderError = UnknownReference(reference: string) | CycleDetected(names: seq<string>)

  function Names(stages: seq<Stage>): (r: seq<string>)
    ensures |r| == |stages|
  {
    seq(|stages|, i requires 0 <= i < |stages| => stages[i].name)
  }

  ghost predicate DistinctNames(stages: seq<Stage>) {
    forall i, j :: 0 <= i < j < |stages| ==> stages[i].name != stages[j].name
  }

  predicate References(stage: Stage, name: string) {
    stage.query.stageRef == Some(name)
  }

  ghost predicate KnownReference(stages: seq<Stage>, stage: Stage) {
    stage.query.stageRef.None? || stage.query.stageRef.value in Names(stages)
  }

  ghost predicate AllKnown(stages: seq<Stage>) {
    forall i :: 0 <= i < |stages| ==> KnownReference(stages, stages[i])
  }

  // ---------- cycles ----------

  /** Each stage of the chain refers to the next one. */
  ghost predicate Chain(stages: seq<Stage>, chain: seq<Stage>) {
    && chain != []
    && (forall i :: 0 <= i < |chain| ==> chain[i] in stages)
    && (forall i :: 0 <= i < |chain| - 1 ==> References(chain[i], chain[i + 1].name))
  }

  ghost predicate Cycle(stages: seq<Stage>, chain: seq<Stage>) {
    Chain(stages, chain) && References(chain[|chain| - 1], chain[0].name)
  }

  ghost predicate HasCycle(stages: seq<Stage>) {
    exists chain :: Cycle(stages, chain)
  }

  ghost predicate OnCycle(stages: seq<Stage>, stage: Stage) {
    exists chain :: Cycle(stages, chain) && stage in chain
  }

  /** Some stage of the pipeline refers to `stage`. */
  ghost predicate ReferredTo(stages: seq<Stage>, stage: Stage) {
    exists user :: user in stages && References(user, stage.name)
  }

  /** Following references from `stage` leads into a cycle. */
  ghost predicate LeadsIntoCycle(stages: seq<Stage>, stage: Stage) {
    exists chain, k :: 0 <= k < |chain| && chain[0] == stage && Chain(stages, chain) && Cycle(stages, chain[k..])
  }

  ghost predicate LeadIntoCycles(stages: seq<Stage>, waiting: seq<Stage>) {
    forall stage {:trigger LeadsIntoCycle(stages, stage)} :: stage in waiting ==>
      stage in stages && LeadsIntoCycle(stages, stage)
  }

  ghost predicate Stuck(waiting: seq<Stage>) {
    forall stage {:trigger HasSuccessor(waiting, stage)} :: stage in waiting ==> HasSuccessor(waiting, stage)
  }

  ghost predicate HasSuccessor(waiting: seq<Stage>, stage: Stage) {
    exists next :: next in waiting && References(stage, next.name)
  }

  lemma {:induction false} DistinctAtMostSize<T>(s: seq<T>, all: set<T>)
    requires forall i, j :: 0 <= i < j < |s| ==> s[i] != s[j]
    requires forall i :: 0 <= i < |s| ==> s[i] in all
    ensures |s| <= |all|
    decreases |s|
  {
    if s != [] {
      var n := |s| - 1;
      DistinctAtMostSize(s[..n], all - {s[n]});
    }
  }

  lemma ClosedChainCycles(stages: seq<Stage>, waiting: seq<Stage>, chain: seq<Stage>, k: nat)
    requires Chain(waiting, chain) && k < |chain| && References(chain[|chain| - 1], chain[k].name)
    requires forall stage :: stage in waiting ==> stage in stages
    ensures LeadsIntoCycle(stages, chain[0])
  {
    var tail := chain[k..];
    assert tail[|tail| - 1] == chain[|chain| - 1] && tail[0] == chain[k];
    assert Cycle(stages, tail);
    assert Chain(stages, chain);
  }

  /** Pigeonhole: where every stage refers to another one of the set, references must run in circles. */
  lemma {:induction false} StuckChainCycles(stages: seq<Stage>, waiting: seq<Stage>, chain: seq<Stage>)
    requires Stuck(waiting) && Chain(waiting, chain)
    requires forall stage :: stage in waiting ==> stage in stages
    requires forall i, j :: 0 <= i < j < |chain| ==> chain[i] != chain[j]
    ensures LeadsIntoCycle(stages, chain[0])
    decreases |set stage | stage in waiting| - |chain|
  {
    var all := set stage | stage in waiting;
    DistinctAtMostSize(chain, all);
    var last := chain[|chain| - 1];
    assert HasSuccessor(waiting, last);
    var next :| next in waiting && References(last, next.name);
    if next in chain {
      var k :| 0 <= k < |chain| && chain[k] == next;
      ClosedChainCycles(stages, waiting, chain, k);
    } else {
      var longer := chain + [next];
      DistinctAtMostSize(longer, all);
      StuckChainCycles(stages, waiting, longer);
    }
  }

  lemma StuckLeadsIntoCycle(stages: seq<Stage>, waiting: seq<Stage>, stage: Stage)
    requires Stuck(waiting) && stage in waiting
    requires forall s :: s in waiting ==> s in stages
    ensures LeadsIntoCycle(stages, stage)
    ensures HasCycle(stages)
  {
    StuckChainCycles(stages, waiting, [stage]);
  }

  /** A stage that leads into a cycle need not be on one: nothing refers to it, so no chain returns to it. */
  lemma UnreferencedIsOnNoCycle(stages: seq<Stage>, stage: Stage, chain: seq<Stage>)
    requires forall s :: s in stages ==> !References(s, stage.name)
    requires Cycle(stages, chain)
    ensures stage !in chain
  {
    forall k | 0 <= k < |chain| ensures chain[k] != stage {
      var before := if k == 0 then chain[|chain| - 1] else chain[k - 1];
      assert k > 0 ==> References(chain[k - 1], chain[k - 1 + 1].name);
      assert before in stages && References(before, chain[k].name);
    }
  }

  lemma OnCycleIsReferredTo(stages: seq<Stage>, stage: Stage)
    requires OnCycle(stages, stage)
    ensures ReferredTo(stages, stage)
  {
    var chain :| Cycle(stages, chain) && stage in chain;
    if !ReferredTo(stages, stage) {
      UnreferencedIsOnNoCycle(stages, stage, chain);
    }
  }

  /** Every stage from which references run into a cycle is referred to. */
  ghost predicate CyclicAreReferredTo(stages: seq<Stage>) {
    forall stage {:trigger LeadsIntoCycle(stages, stage)} ::
      stage in stages && LeadsIntoCycle(stages, stage) ==> ReferredTo(stages, stage)
  }

  lemma UserLeadsIntoCycle(stages: seq<Stage>, user: Stage, stage: Stage)
    requires user in stages && References(user, stage.name) && LeadsIntoCycle(stages, stage)
    ensures LeadsIntoCycle(stages, user)
  {
    var chain, k :| 0 <= k < |chain| && chain[0] == stage && Chain(stages, chain) && Cycle(stages, chain[k..]);
    var longer := [user] + chain;
    ChainGrows(stages, user, chain);
    assert longer[k + 1..] == chain[k..];
  }

  lemma ChainGrows(stages: seq<Stage>, user: Stage, chain: seq<Stage>)
    requires user in stages && Chain(stages, chain) && References(user, chain[0].name)
    ensures Chain(stages, [user] + chain)
  {
    var longer := [user] + chain;
    forall i | 0 <= i < |longer| - 1 ensures References(longer[i], longer[i + 1].name) {
      if i > 0 {
        assert longer[i] == chain[i - 1] && longer[i + 1] == chain[i - 1 + 1];
      }
    }
  }

  lemma SameNameSameStage(stages: seq<Stage>, a: Stage, b: Stage)
    requires DistinctNames(stages) && a in stages && b in stages && a.name == b.name
    ensures a == b
  {
    var i :| 0 <= i < |stages| && stages[i] == a;
    var j :| 0 <= j < |stages| && stages[j] == b;
  }

  // Any other stage of the chain refers to its successor, so only the last can refer to the first.
  lemma OnlyLastCloses(stages: seq<Stage>, chain: seq<Stage>, user: Stage)
    requires DistinctNames(stages) && Chain(stages, chain) && user in chain && References(user, chain[0].name)
    requires forall i, j :: 0 <= i < j < |chain| ==> chain[i] != chain[j]
    ensures Cycle(stages, chain)
  {
    var k :| 0 <= k < |chain| && chain[k] == user;
    if k < |chain| - 1 {
      assert References(chain[k], chain[k + 1].name);
      SameNameSameStage(stages, chain[0], chain[k + 1]);
    }
  }

  /** Pigeonhole backwards: where every stage that leads into a cycle has a user, the users of users come
      round to the stage they started from. */
  lemma {:induction false} UsersComeRound(stages: seq<Stage>, chain: seq<Stage>)
    requires DistinctNames(stages) && CyclicAreReferredTo(stages)
    requires Chain(stages, chain) && LeadsIntoCycle(stages, chain[0])
    requires forall i, j :: 0 <= i < j < |chain| ==> chain[i] != chain[j]
    ensures OnCycle(stages, chain[|chain| - 1])
    decreases |set stage | stage in stages| - |chain|
  {
    var all := set stage | stage in stages;
    DistinctAtMostSize(chain, all);
    var user :| user in stages && References(user, chain[0].name);
    if user in chain {
      OnlyLastCloses(stages, chain, user);
    } else {
      var longer := [user] + chain;
      UserLeadsIntoCycle(stages, user, chain[0]);
      ChainGrows(stages, user, chain);
      assert longer[|longer| - 1] == chain[|chain| - 1];
      DistinctAtMostSize(longer, all);
      UsersComeRound(stages, longer);
    }
  }

  /** Everything that leads into a cycle is on one exactly when all of it is referred to. */
  lemma CyclicAreOnCyclesIff(stages: seq<Stage>)
    requires DistinctNames(stages)
    ensures (forall stage :: stage in stages && LeadsIntoCycle(stages, stage) ==> OnCycle(stages, stage))
      <==> CyclicAreReferredTo(stages)
  {
    if CyclicAreReferredTo(stages) {
      forall stage | stage in stages && LeadsIntoCycle(stages, stage) ensures OnCycle(stages, stage) {
        UsersComeRound(stages, [stage]);
      }
    } else {
      var stage :| stage in stages && LeadsIntoCycle(stages, stage) && !ReferredTo(stages, stage);
      if OnCycle(stages, stage) {
        OnCycleIsReferredTo(stages, stage);
      }
    }
  }

  // ---------- schedules ----------

  /** Everything named in `order` is a root or comes after the stage it refers to. */
  ghost predicate Scheduled(stages: seq<Stage>, order: seq<string>) {
    forall i :: 0 <= i < |order| ==> ReadyAt(stages, order, i)
  }

  ghost predicate ReadyAt(stages: seq<Stage>, order: seq<string>, i: nat)
    requires i < |order|
  {
    exists stage :: stage in stages && stage.name == order[i] && ReadyAfter(stage, order[..i])
  }

  predicate ReadyAfter(stage: Stage, resolved: seq<string>) {
    stage.query.stageRef.None? || stage.query.stageRef.value in resolved
  }

  lemma ScheduledExtend(stages: seq<Stage>, order: seq<string>, stage: Stage)
    requires Scheduled(stages, order) && stage in stages && ReadyAfter(stage, order)
    ensures Scheduled(stages, order + [stage.name])
  {
    var longer := order + [stage.name];
    forall i | 0 <= i < |longer| ensures ReadyAt(stages, longer, i) {
      assert longer[..i] == order[..i];
      if i < |order| {
        assert ReadyAt(stages, order, i);
      }
    }
  }

  /** With distinct names, the schedule puts every reference before its user. */
  lemma ReferenceComesFirst(stages: seq<Stage>, order: seq<string>, stage: Stage, i: nat)
    requires DistinctNames(stages) && Scheduled(stages, order)
    requires stage in stages && i < |order| && order[i] == stage.name && stage.query.stageRef.Some?
    ensures stage.query.stageRef.value in order[..i]
  {
    assert ReadyAt(stages, order, i);
  }

  lemma {:induction false} ChainGoesBack(stages: seq<Stage>, order: seq<string>, chain: seq<Stage>, start: nat)
    returns (end: nat)
    requires DistinctNames(stages) && Scheduled(stages, order) && Chain(stages, chain)
    requires start < |order| && order[start] == chain[0].name
    ensures end <= start && order[end] == chain[|chain| - 1].name
    decreases |chain|
  {
    if |chain| == 1 {
      end := start;
    } else {
      assert References(chain[0], chain[0 + 1].name);
      ReferenceComesFirst(stages, order, chain[0], start);
      var next :| 0 <= next < start && order[next] == chain[1].name;
      end := ChainGoesBack(stages, order, chain[1..], next);
    }
  }

  /** A pipeline that can be scheduled has no cycle. */
  lemma ScheduledHasNoCycle(stages: seq<Stage>, order: seq<string>)
    requires DistinctNames(stages) && Scheduled(stages, order)
    requires multiset(order) == multiset(Names(stages))
    ensures !HasCycle(stages)
  {
    forall chain ensures !Cycle(stages, chain) {
      if Chain(stages, chain) {
        NameInOrder(stages, order, chain[0]);
        ScheduledIsNotCyclic(stages, order, chain);
      }
    }
  }

  lemma NameInOrder(stages: seq<Stage>, order: seq<string>, stage: Stage)
    requires multiset(order) == multiset(Names(stages)) && stage in stages
    ensures stage.name in order
  {
    var i :| 0 <= i < |stages| && stages[i] == stage;
    assert Names(stages)[i] == stage.name;
    assert stage.name in multiset(order);
  }

  lemma ScheduledIsNotCyclic(stages: seq<Stage>, order: seq<string>, chain: seq<Stage>)
    requires DistinctNames(stages) && Scheduled(stages, order)
    requires chain != [] && chain[0].name in order
    ensures !Cycle(stages, chain)
  {
    if Cycle(stages, chain) {
      var start := FirstPosition(order, chain[0].name);
      var end := ChainGoesBack(stages, order, chain, start);
      ReferenceComesFirst(stages, order, chain[|chain| - 1], end);
      assert false;
    }
  }

  lemma ScheduledLeadsIntoNoCycle(stages: seq<Stage>, order: seq<string>, stage: Stage)
    requires DistinctNames(stages) && Scheduled(stages, order) && stage.name in order
    ensures !LeadsIntoCycle(stages, stage)
  {
    forall chain: seq<Stage>, k | 0 <= k < |chain| && chain[0] == stage && Chain(stages, chain)
      ensures !Cycle(stages, chain[k..])
    {
      var front := chain[..k + 1];
      assert Chain(stages, front);
      var start := FirstPosition(order, stage.name);
      var end := ChainGoesBack(stages, order, front, start);
      ScheduledIsNotCyclic(stages, order, chain[k..]);
    }
  }

  lemma FirstPosition(order: seq<string>, name: string) returns (p: nat)
    requires name in order
    ensures p < |order| && order[p] == name && name !in order[..p]
  {
    p := 0;
    while order[p] != name
      invariant p < |order| && name !in order[..p] && name in order[p..]
      decreases |order| - p
    {
      p := p + 1;
    }
  }

  // ---------- the passes ----------

  /** Stages listed in dependency order already. */
  ghost predicate ListedInOrder(stages: seq<Stage>) {
    forall i :: 0 <= i < |stages| ==> ReadyAfter(stages[i], Names(stages[..i]))
  }

  /** `reference` is the first one in the list that names no stage of the pipeline. */
  ghost predicate FirstUnknown(stages: seq<Stage>, listed: seq<Stage>, reference: string) {
    exists i ::
      && 0 <= i < |listed| && References(listed[i], reference) && !KnownReference(stages, listed[i])
      && forall j :: 0 <= j < i ==> KnownReference(stages, listed[j])
  }

  ghost predicate PassState(stages: seq<Stage>, resolved: seq<string>, waiting: seq<Stage>) {
    && multiset(resolved) + multiset(Names(waiting)) == multiset(Names(stages))
    && (forall i :: 0 <= i < |waiting| ==> waiting[i] in stages)
    && Scheduled(stages, resolved)
  }

  lemma NamesAppend(a: seq<Stage>, b: seq<Stage>)
    ensures Names(a + b) == Names(a) + Names(b)
  {
  }

  /** One pass: a stage whose reference is resolved by now is resolved, any other keeps waiting. */
  function PassOver(remaining: seq<Stage>, resolved: seq<string>, waiting: seq<Stage>): (r: (seq<string>, seq<Stage>))
    ensures |r.0| + |r.1| == |resolved| + |waiting| + |remaining|
    ensures |resolved| <= |r.0|
    decreases |remaining|
  {
    if remaining == [] then (resolved, waiting)
    else if ReadyAfter(remaining[0], resolved) then PassOver(remaining[1..], resolved + [remaining[0].name], waiting)
    else PassOver(remaining[1..], resolved, waiting + [remaining[0]])
  }

  lemma {:induction false} PassKeepsState(stages: seq<Stage>, remaining: seq<Stage>, resolved: seq<string>,
                                          waiting: seq<Stage>)
    requires PassState(stages, resolved, waiting + remaining)
    ensures var (resolved', waiting') := PassOver(remaining, resolved, waiting);
      PassState(stages, resolved', waiting')
    decreases |remaining|
  {
    if remaining == [] {
      assert waiting + remaining == waiting;
    } else {
      assert remaining == [remaining[0]] + remaining[1..];
      if ReadyAfter(remaining[0], resolved) {
        ResolveKeepsState(stages, resolved, waiting, remaining[0], remaining[1..]);
        PassKeepsState(stages, remaining[1..], resolved + [remaining[0].name], waiting);
      } else {
        assert waiting + remaining == (waiting + [remaining[0]]) + remaining[1..];
        PassKeepsState(stages, remaining[1..], resolved, waiting + [remaining[0]]);
      }
    }
  }

  lemma {:induction false} PassWithoutProgress(remaining: seq<Stage>, resolved: seq<string>, waiting: seq<Stage>)
    requires |PassOver(remaining, resolved, waiting).0| == |resolved|
    ensures PassOver(remaining, resolved, waiting) == (resolved, waiting + remaining)
    ensures forall i :: 0 <= i < |remaining| ==> !ReadyAfter(remaining[i], resolved)
    decreases |remaining|
  {
    if remaining == [] {
      assert waiting + remaining == waiting;
    } else {
      assert remaining == [remaining[0]] + remaining[1..];
      PassWithoutProgress(remaining[1..], resolved, waiting + [remaining[0]]);
      assert waiting + remaining == (waiting + [remaining[0]]) + remaining[1..];
    }
  }

  lemma {:induction false} PassOverListed(stages: seq<Stage>, i: nat)
    requires ListedInOrder(stages) && i <= |stages|
    ensures PassOver(stages[i..], Names(stages[..i]), []) == (Names(stages), [])
    decreases |stages| - i
  {
    if i < |stages| {
      assert stages[..i + 1] == stages[..i] + [stages[i]];
      NamesAppend(stages[..i], [stages[i]]);
      assert Names([stages[i]]) == [stages[i].name];
      assert stages[i..][1..] == stages[i + 1..];
      PassOverListed(stages, i + 1);
    } else {
      assert stages[..i] == stages;
    }
  }

  method Pass(stages: seq<Stage>, resolved: seq<string>, remaining: seq<Stage>)
    returns (unknown: Option<string>, resolved': seq<string>, waiting: seq<Stage>, progressed: bool)
    ensures unknown.None? ==> (resolved', waiting) == PassOver(remaining, resolved, [])
    ensures unknown.None? ==> (progressed <==> |resolved'| > |resolved|)
    ensures unknown.None? ==> forall i :: 0 <= i < |remaining| ==> KnownReference(stages, remaining[i])
    ensures unknown.Some? ==> FirstUnknown(stages, remaining, unknown.value)
  {
    resolved', waiting, progressed := resolved, [], false;
    for i := 0 to |remaining|
      invariant PassOver(remaining[i..], resolved', waiting) == PassOver(remaining, resolved, [])
      invariant |resolved| <= |resolved'| && (progressed <==> |resolved'| > |resolved|)
      invariant forall j :: 0 <= j < i ==> KnownReference(stages, remaining[j])
    {
      var entry := remaining[i];
      assert remaining[i..][1..] == remaining[i + 1..];
      if entry.query.stageRef.Some? && entry.query.stageRef.value !in Names(stages) {
        unknown := Some(entry.query.stageRef.value);
        assert References(remaining[i], unknown.value);
        return;
      }
      if ReadyAfter(entry, resolved') {
        resolved' := resolved' + [entry.name];
        progressed := true;
      } else {
        waiting := waiting + [entry];
      }
    }
    unknown := None;
  }

  lemma ResolveKeepsState(stages: seq<Stage>, resolved: seq<string>, waiting: seq<Stage>, entry: Stage,
                          rest: seq<Stage>)
    requires PassState(stages, resolved, waiting + ([entry] + rest)) && ReadyAfter(entry, resolved)
    ensures PassState(stages, resolved + [entry.name], waiting + rest)
  {
    var before := waiting + ([entry] + rest);
    NamesAppend(waiting, [entry] + rest);
    NamesAppend([entry], rest);
    NamesAppend(waiting, rest);
    assert Names([entry]) == [entry.name];
    assert before[|waiting|] == entry;
    ScheduledExtend(stages, resolved, entry);
    forall i | 0 <= i < |waiting + rest| ensures (waiting + rest)[i] in stages {
      assert (waiting + rest)[i] == before[if i < |waiting| then i else i + 1];
    }
  }

  lemma NoProgressIsStuck(stages: seq<Stage>, resolved: seq<string>, waiting: seq<Stage>)
    requires PassState(stages, resolved, waiting)
    requires forall i :: 0 <= i < |waiting| ==> KnownReference(stages, waiting[i]) && !ReadyAfter(waiting[i], resolved)
    requires waiting != []
    ensures LeadIntoCycles(stages, waiting)
    ensures HasCycle(stages)
  {
    NoProgressSuccessors(stages, resolved, waiting);
    forall stage | stage in waiting ensures LeadsIntoCycle(stages, stage) {
      StuckLeadsIntoCycle(stages, waiting, stage);
    }
    StuckLeadsIntoCycle(stages, waiting, waiting[0]);
  }

  lemma NoProgressSuccessors(stages: seq<Stage>, resolved: seq<string>, waiting: seq<Stage>)
    requires PassState(stages, resolved, waiting)
    requires forall i :: 0 <= i < |waiting| ==> KnownReference(stages, waiting[i]) && !ReadyAfter(waiting[i], resolved)
    ensures Stuck(waiting)
  {
    forall stage | stage in waiting ensures HasSuccessor(waiting, stage) {
      var i :| 0 <= i < |waiting| && waiting[i] == stage;
      var reference := waiting[i].query.stageRef.value;
      assert KnownReference(stages, waiting[i]);
      assert reference in multiset(Names(stages)) && reference !in multiset(resolved);
      assert reference in Names(waiting);
      var k :| 0 <= k < |waiting| && Names(waiting)[k] == reference;
      assert waiting[k] in waiting;
    }
  }

  /** What a caller may conclude from the answer. */
  ghost predicate Verdict(stages: seq<Stage>, r: Result<seq<string>, OrderError>) {
    match r
    case Ok(order) =>
      && multiset(order) == multiset(Names(stages)) && Scheduled(stages, order)
      && AllKnown(stages) && (DistinctNames(stages) ==> !HasCycle(stages))
    case Err(UnknownReference(reference)) =>
      FirstUnknown(stages, stages, reference)
    case Err(CycleDetected(names)) =>
      && AllKnown(stages) && HasCycle(stages)
      && (exists waiting :: Names(waiting) == names && LeadIntoCycles(stages, waiting))
      && (DistinctNames(stages) ==> NamesTheCyclic(stages, names))
  }

  /** The names are exactly those of the stages from which references run into a cycle. */
  ghost predicate NamesTheCyclic(stages: seq<Stage>, names: seq<string>) {
    forall stage {:trigger LeadsIntoCycle(stages, stage)} :: stage in stages ==>
      (stage.name in names <==> LeadsIntoCycle(stages, stage))
  }

  /** What the comment on the code says of the stages that cannot be resolved. */
  ghost predicate NamedAreOnCycles(stages: seq<Stage>, names: seq<string>) {
    forall stage :: stage in stages && stage.name in names ==> OnCycle(stages, stage)
  }

  /** Every stage of a cycle report is part of a cycle exactly when every stage that leads into a cycle is
      referred to by some stage of the pipeline. */
  lemma NamedAreOnCyclesIff(stages: seq<Stage>, names: seq<string>)
    requires DistinctNames(stages) && Verdict(stages, Err(CycleDetected(names)))
    ensures NamedAreOnCycles(stages, names) <==> CyclicAreReferredTo(stages)
  {
    CyclicAreOnCyclesIff(stages);
  }

  /** Two stages: "a" refers to "b", and "b" to itself.  The answer names "a", which is on no cycle. */
  lemma NamedNeedNotBeOnACycle(query: Query, r: Result<seq<string>, OrderError>)
    requires Verdict([Stage("a", query.(stageRef := Some("b"))), Stage("b", query.(stageRef := Some("b")))], r)
    ensures r.Err? && r.error.CycleDetected? && "a" in r.error.names
    ensures !OnCycle([Stage("a", query.(stageRef := Some("b"))), Stage("b", query.(stageRef := Some("b")))],
                     Stage("a", query.(stageRef := Some("b"))))
  {
    var user, self := Stage("a", query.(stageRef := Some("b"))), Stage("b", query.(stageRef := Some("b")));
    var stages := [user, self];
    assert stages[1..] == [self] && Cycle(stages, stages[1..]);
    assert LeadsIntoCycle(stages, user);
    assert Names(stages) == ["a", "b"];
    assert AllKnown(stages);
    if OnCycle(stages, user) {
      OnCycleIsReferredTo(stages, user);
    }
  }

  lemma WaitingAreCyclic(stages: seq<Stage>, resolved: seq<string>, waiting: seq<Stage>)
    requires DistinctNames(stages) && PassState(stages, resolved, waiting) && LeadIntoCycles(stages, waiting)
    ensures NamesTheCyclic(stages, Names(waiting))
  {
    forall stage | stage in stages ensures stage.name in Names(waiting) <==> LeadsIntoCycle(stages, stage) {
      if stage.name in Names(waiting) {
        var k :| 0 <= k < |waiting| && Names(waiting)[k] == stage.name;
        assert waiting[k] in waiting && waiting[k] == stage;
      } else {
        var i :| 0 <= i < |stages| && stages[i] == stage;
        assert Names(stages)[i] == stage.name;
        assert stage.name in multiset(Names(stages)) && stage.name !in multiset(Names(waiting));
        assert stage.name in multiset(resolved);
        ScheduledLeadsIntoNoCycle(stages, resolved, stage);
      }
    }
  }

  lemma OkVerdict(stages: seq<Stage>, resolved: seq<string>)
    requires PassState(stages, resolved, []) && AllKnown(stages)
    ensures Verdict(stages, Ok(resolved))
  {
    assert Names([]) == [];
    if DistinctNames(stages) {
      ScheduledHasNoCycle(stages, resolved);
    }
  }

  lemma CycleVerdict(stages: seq<Stage>, resolved: seq<string>, waiting: seq<Stage>)
    requires PassState(stages, resolved, waiting) && AllKnown(stages) && waiting != []
    requires PassOver(waiting, resolved, []) == (resolved, waiting)
    ensures Verdict(stages, Err(CycleDetected(Names(waiting))))
  {
    PassWithoutProgress(waiting, resolved, []);
    forall i | 0 <= i < |waiting| ensures KnownReference(stages, waiting[i]) {
      var k :| 0 <= k < |stages| && stages[k] == waiting[i];
    }
    NoProgressIsStuck(stages, resolved, waiting);
    if DistinctNames(stages) {
      WaitingAreCyclic(stages, resolved, waiting);
    }
  }

  lemma PassAll(stages: seq<Stage>, resolved: seq<string>, remaining: seq<Stage>)
    requires PassState(stages, resolved, remaining)
    ensures var (resolved', waiting) := PassOver(remaining, resolved, []);
      && PassState(stages, resolved', waiting)
      && (|resolved'| == |resolved| ==> (resolved', waiting) == (resolved, remaining))
  {
    assert [] + remaining == remaining;
    PassKeepsState(stages, remaining, resolved, []);
    if |PassOver(remaining, resolved, []).0| == |resolved| {
      PassWithoutProgress(remaining, resolved, []);
    }
  }

  /** Orders the stages so that every reference points at something already resolved. */
  method TopologicalOrder(stages: seq<Stage>) returns (r: Result<seq<string>, OrderError>)
    ensures Verdict(stages, r)
    ensures DistinctNames(stages) ==> (r.Ok? <==> AllKnown(stages) && !HasCycle(stages))
    ensures ListedInOrder(stages) ==> r == Ok(Names(stages))
  {
    var resolved: seq<string> := [];
    var remaining := stages;
    ghost var first := true;
    while remaining != []
      invariant PassState(stages, resolved, remaining)
      invariant if first then resolved == [] && remaining == stages else AllKnown(stages)
      invariant !first && ListedInOrder(stages) ==> remaining == [] && resolved == Names(stages)
      decreases |remaining|
    {
      PassAll(stages, resolved, remaining);
      if first {
        ListedPass(stages);
      }
      var unknown, resolved', waiting, progressed := Pass(stages, resolved, remaining);
      if unknown.Some? {
        ListedHasNoUnknown(stages);
        return Err(UnknownReference(unknown.value));
      }
      assert AllKnown(stages);
      if !progressed {
        CycleVerdict(stages, resolved, waiting);
        return Err(CycleDetected(Names(waiting)));
      }
      resolved, remaining, first := resolved', waiting, false;
    }
    assert AllKnown(stages);
    OkVerdict(stages, resolved);
    r := Ok(resolved);
  }

  lemma ListedPass(stages: seq<Stage>)
    ensures ListedInOrder(stages) ==> PassOver(stages, [], []) == (Names(stages), [])
  {
    if ListedInOrder(stages) {
      PassOverListed(stages, 0);
      assert stages[0..] == stages && Names(stages[..0]) == [];
    }
  }

  lemma ListedHasNoUnknown(stages: seq<Stage>)
    ensures ListedInOrder(stages) ==> AllKnown(stages)
  {
    if ListedInOrder(stages) {
      forall i | 0 <= i < |stages| ensures KnownReference(stages, stages[i]) {
        if stages[i].query.stageRef.Some? {
          var k :| 0 <= k < i && Names(stages[..i])[k] == stages[i].query.stageRef.value;
          assert Names(stages)[k] == stages[i].query.stageRef.value;
        }
      }
    }
  }
}
