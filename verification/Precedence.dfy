/** What the flat, unparenthesised WHERE text means when it is read as SQL reads it.

    Section 8.12 of ISO/IEC 9075:1992 makes a search condition a disjunction of boolean terms and a boolean
    term a conjunction of boolean factors, in three-valued logic. */
module Precedence {
  import opened Results
  import opened Queries
  import opened Statements
  import opened Text

  datatype Truth = False | Unknown | True {
    function Rank(): nat {
      match this case False => 0 case Unknown => 1 case True => 2
    }
  }

  function Both(a: Truth, b: Truth): Truth { if a.Rank() <= b.Rank() then a else b }

  function Either(a: Truth, b: Truth): Truth { if a.Rank() >= b.Rank() then a else b }

  // ---------- the reader ----------

  datatype SearchCondition =
    | Atom(tokens: seq<Token>)
    | Conjunction(left: SearchCondition, right: SearchCondition)
    | Disjunction(left: SearchCondition, right: SearchCondition)

  function TakeAtom(tokens: seq<Token>): (r: (seq<Token>, seq<Token>))
    ensures |r.1| <= |tokens|
  {
    if tokens == [] || tokens[0].Connective? then ([], tokens)
    else ([tokens[0]] + TakeAtom(tokens[1..]).0, TakeAtom(tokens[1..]).1)
  }

  predicate AtConnective(tokens: seq<Token>, or: bool) {
    tokens != [] && tokens[0] == Connective(or)
  }

  /** A boolean term, of which `left` has been read. */
  function ReadTerm(left: SearchCondition, tokens: seq<Token>): (r: (SearchCondition, seq<Token>))
    ensures |r.1| <= |tokens|
    decreases |tokens|
  {
    if AtConnective(tokens, false) then
      var (atom, rest) := TakeAtom(tokens[1..]);
      ReadTerm(Conjunction(left, Atom(atom)), rest)
    else (left, tokens)
  }

  /** A search condition, of which the terms in `left` have been read. */
  function ReadTerms(left: SearchCondition, tokens: seq<Token>): SearchCondition
    decreases |tokens|
  {
    if AtConnective(tokens, true) then
      var (atom, rest) := TakeAtom(tokens[1..]);
      var (term, rest') := ReadTerm(Atom(atom), rest);
      ReadTerms(Disjunction(left, term), rest')
    else left
  }

  function Read(tokens: seq<Token>): SearchCondition {
    var (atom, rest) := TakeAtom(tokens);
    var (term, rest') := ReadTerm(Atom(atom), rest);
    ReadTerms(term, rest')
  }

  function Eval(condition: SearchCondition, truth: seq<Token> -> Truth): Truth {
    match condition
    case Atom(tokens) => truth(tokens)
    case Conjunction(left, right) => Both(Eval(left, truth), Eval(right, truth))
    case Disjunction(left, right) => Either(Eval(left, truth), Eval(right, truth))
  }

  // ---------- the meaning ----------

  /** A new group begins at `s`: at the first condition and at each one that asks for OR. */
  predicate GroupStart(flags: seq<bool>, s: int) {
    0 <= s < |flags| && (s == 0 || flags[s])
  }

  /** Condition `j` belongs to the group that begins at `s`. */
  predicate InGroup(flags: seq<bool>, s: int, j: int) {
    0 <= s <= j < |flags| && forall k :: s < k <= j ==> !flags[k]
  }

  ghost predicate GroupHolds(flags: seq<bool>, truths: seq<Truth>, s: int, rank: nat)
    requires |flags| == |truths|
  {
    GroupStart(flags, s) && forall j :: InGroup(flags, s, j) ==> truths[j].Rank() >= rank
  }

  /** Left to right: the disjunction of the finished groups, and the conjunction of the current one. */
  function Fold(flags: seq<bool>, truths: seq<Truth>, i: nat, done: Truth, current: Truth): Truth
    requires |flags| == |truths| && i <= |flags|
    decreases |flags| - i
  {
    if i == |flags| then Either(done, current)
    else if flags[i] then Fold(flags, truths, i + 1, Either(done, current), truths[i])
    else Fold(flags, truths, i + 1, done, Both(current, truths[i]))
  }

  /** The value of the whole condition; no condition at all keeps every row. */
  function Meaning(flags: seq<bool>, truths: seq<Truth>): Truth
    requires |flags| == |truths|
  {
    if flags == [] then True else Fold(flags, truths, 1, False, truths[0])
  }

  lemma {:induction false} FoldRank(flags: seq<bool>, truths: seq<Truth>, i: nat, g: nat, done: Truth, current: Truth,
                                    rank: nat)
    requires |flags| == |truths| && g < i <= |flags| && rank >= 1
    requires GroupStart(flags, g) && forall k :: g < k < i ==> !flags[k]
    requires done.Rank() >= rank <==> exists s :: 0 <= s < g && GroupHolds(flags, truths, s, rank)
    requires current.Rank() >= rank <==> forall j :: g <= j < i ==> truths[j].Rank() >= rank
    ensures Fold(flags, truths, i, done, current).Rank() >= rank <==>
      exists s :: 0 <= s < |flags| && GroupHolds(flags, truths, s, rank)
    decreases |flags| - i
  {
    if i == |flags| {
      assert forall j :: g <= j < i ==> InGroup(flags, g, j);
      assert GroupHolds(flags, truths, g, rank) <==> current.Rank() >= rank;
      assert forall s :: GroupHolds(flags, truths, s, rank) ==> s <= g;
    } else if flags[i] {
      assert flags[i];
      assert forall j :: InGroup(flags, g, j) <==> g <= j < i;
      assert GroupHolds(flags, truths, g, rank) <==> current.Rank() >= rank;
      forall s | 0 <= s < i && s != g && GroupHolds(flags, truths, s, rank) ensures s < g {
      }
      FoldRank(flags, truths, i + 1, i, Either(done, current), truths[i], rank);
    } else {
      FoldRank(flags, truths, i + 1, g, done, Both(current, truths[i]), rank);
    }
  }

  /** The meaning is at least unknown, or true, exactly when some maximal run of AND-ed conditions is. */
  lemma MeaningIsDisjunctionOfGroups(flags: seq<bool>, truths: seq<Truth>, rank: nat)
    requires |flags| == |truths| && flags != [] && rank >= 1
    ensures Meaning(flags, truths).Rank() >= rank <==>
      exists s :: 0 <= s < |flags| && GroupHolds(flags, truths, s, rank)
  {
    FoldRank(flags, truths, 1, 0, False, truths[0], rank);
  }

  // ---------- the flat text is read as its meaning ----------

  predicate NoConnective(tokens: seq<Token>) {
    forall k :: 0 <= k < |tokens| ==> !tokens[k].Connective?
  }

  /** The text from condition `i` on, connective included. */
  function TextFrom(atoms: seq<seq<Token>>, flags: seq<bool>, i: nat): seq<Token>
    requires |atoms| == |flags| && i <= |atoms|
    decreases |atoms| - i
  {
    if i == |atoms| then [] else [Connective(flags[i])] + atoms[i] + TextFrom(atoms, flags, i + 1)
  }

  function Truths(atoms: seq<seq<Token>>, truth: seq<Token> -> Truth): (r: seq<Truth>)
    ensures |r| == |atoms|
  {
    seq(|atoms|, i requires 0 <= i < |atoms| => truth(atoms[i]))
  }

  lemma {:induction false} TakeAtomReads(atom: seq<Token>, rest: seq<Token>)
    requires NoConnective(atom) && (rest == [] || rest[0].Connective?)
    ensures TakeAtom(atom + rest) == (atom, rest)
  {
    if atom == [] {
      assert atom + rest == rest;
    } else {
      assert (atom + rest)[1..] == atom[1..] + rest;
      TakeAtomReads(atom[1..], rest);
      assert atom == [atom[0]] + atom[1..];
    }
  }

  /** What reading goes on to give, with the terms in `done` and part of a term in `left` read already. */
  function Continue(done: Option<SearchCondition>, left: SearchCondition, tokens: seq<Token>): SearchCondition {
    var (term, rest) := ReadTerm(left, tokens);
    ReadTerms(if done.Some? then Disjunction(done.value, term) else term, rest)
  }

  lemma {:induction false} ContinueMeansFold(atoms: seq<seq<Token>>, flags: seq<bool>, i: nat,
                                             done: Option<SearchCondition>,
                                             left: SearchCondition, truth: seq<Token> -> Truth)
    requires |atoms| == |flags| && i <= |atoms|
    requires forall k :: 0 <= k < |atoms| ==> NoConnective(atoms[k])
    ensures Eval(Continue(done, left, TextFrom(atoms, flags, i)), truth) ==
      Fold(flags, Truths(atoms, truth), i, if done.Some? then Eval(done.value, truth) else False, Eval(left, truth))
    decreases |atoms| - i
  {
    var text := TextFrom(atoms, flags, i);
    if i < |atoms| {
      var rest := TextFrom(atoms, flags, i + 1);
      assert text[1..] == atoms[i] + rest;
      TakeAtomReads(atoms[i], rest);
      if flags[i] {
        var read := if done.Some? then Disjunction(done.value, left) else left;
        ContinueMeansFold(atoms, flags, i + 1, Some(read), Atom(atoms[i]), truth);
        assert Continue(done, left, text) == Continue(Some(read), Atom(atoms[i]), rest);
      } else {
        ContinueMeansFold(atoms, flags, i + 1, done, Conjunction(left, Atom(atoms[i])), truth);
        assert Continue(done, left, text) == Continue(done, Conjunction(left, Atom(atoms[i])), rest);
      }
    }
  }

  lemma ReadMeansMeaning(atoms: seq<seq<Token>>, flags: seq<bool>, truth: seq<Token> -> Truth)
    requires |atoms| == |flags| && atoms != []
    requires forall k :: 0 <= k < |atoms| ==> NoConnective(atoms[k])
    ensures Eval(Read(atoms[0] + TextFrom(atoms, flags, 1)), truth) == Meaning(flags, Truths(atoms, truth))
  {
    TakeAtomReads(atoms[0], TextFrom(atoms, flags, 1));
    ContinueMeansFold(atoms, flags, 1, None, Atom(atoms[0]), truth);
    assert Read(atoms[0] + TextFrom(atoms, flags, 1)) == Continue(None, Atom(atoms[0]), TextFrom(atoms, flags, 1));
  }

  // ---------- the generator's text ----------

  function Flags(filters: seq<Filter>): (r: seq<bool>)
    ensures |r| == |filters|
  {
    seq(|filters|, i requires 0 <= i < |filters| => filters[i].orCondition)
  }

  /** The conditions of the WHERE text, one per filter. */
  function Atoms(render: Renderer, filters: seq<Filter>): (r: seq<seq<Token>>)
    requires WhereBy(render, filters).Ok?
    ensures |r| == |filters|
  {
    if filters == [] then []
    else
      var n := |filters| - 1;
      Atoms(render, filters[..n]) + [render(|WhereBy(render, filters[..n]).value.1|, filters[n]).value.0]
  }

  lemma {:induction false} TextFromExtend(atoms: seq<seq<Token>>, flags: seq<bool>, atom: seq<Token>, flag: bool,
                                          i: nat)
    requires |atoms| == |flags| && i <= |atoms|
    ensures TextFrom(atoms + [atom], flags + [flag], i) == TextFrom(atoms, flags, i) + [Connective(flag)] + atom
    decreases |atoms| - i
  {
    if i < |atoms| {
      TextFromExtend(atoms, flags, atom, flag, i + 1);
    } else {
      assert TextFrom(atoms + [atom], flags + [flag], i + 1) == [];
      assert (atoms + [atom])[i] == atom;
    }
  }

  lemma {:induction false} WhereIsFlatText(render: Renderer, filters: seq<Filter>)
    requires WhereBy(render, filters).Ok? && filters != []
    ensures WhereBy(render, filters).value.0 ==
      Atoms(render, filters)[0] + TextFrom(Atoms(render, filters), Flags(filters), 1)
  {
    var n := |filters| - 1;
    var atoms, flags := Atoms(render, filters), Flags(filters);
    WhereByStep(render, filters);
    if n == 0 {
      assert TextFrom(atoms, flags, 1) == [];
      assert WhereBy(render, filters[..0]).value.0 == [];
    } else {
      var front := Atoms(render, filters[..n]);
      WhereIsFlatText(render, filters[..n]);
      assert flags == Flags(filters[..n]) + [filters[n].orCondition];
      assert atoms == front + [atoms[n]] && atoms[0] == front[0];
      TextFromExtend(front, Flags(filters[..n]), atoms[n], filters[n].orCondition, 1);
      ConcatFour(front[0], TextFrom(front, Flags(filters[..n]), 1), [Connective(filters[n].orCondition)], atoms[n]);
    }
  }

  lemma ConditionHasNoConnective(dialect: Dialect, mode: ValueMode, bound: nat, column: string, op: string,
                                 filter: Filter)
    requires Condition(dialect, mode, bound, column, op, filter).Ok?
    ensures NoConnective(Condition(dialect, mode, bound, column, op, filter).value.0)
  {
    if filter.operator.IsMembership() {
      ListHasNoConnective(dialect, mode, bound, filter.value.items);
    }
  }

  lemma {:induction false} ListHasNoConnective(dialect: Dialect, mode: ValueMode, bound: nat, items: seq<Value>)
    ensures NoConnective(ListTokens(dialect, mode, bound, items))
  {
    if items != [] {
      ListHasNoConnective(dialect, mode, bound, items[..|items| - 1]);
    }
  }

  lemma {:induction false} AtomsHaveNoConnective(dialect: Dialect, mode: ValueMode, qualify: string -> string,
                                                 filters: seq<Filter>)
    requires Where(dialect, mode, qualify, filters).Ok?
    ensures forall k :: 0 <= k < |filters| ==>
      NoConnective(Atoms(ConditionRenderer(dialect, mode, qualify), filters)[k])
  {
    if filters != [] {
      var n := |filters| - 1;
      var render := ConditionRenderer(dialect, mode, qualify);
      AtomsHaveNoConnective(dialect, mode, qualify, filters[..n]);
      ConditionHasNoConnective(dialect, mode, |WhereBy(render, filters[..n]).value.1|, qualify(filters[n].field),
                               OperatorText(filters[n].operator), filters[n]);
    }
  }

  /** Read as SQL reads it, the generated WHERE text means the disjunction of its AND-groups, whatever
      truth values its conditions have; so do both forms of the statement. */
  lemma WhereTextMeans(dialect: Dialect, mode: ValueMode, qualify: string -> string, filters: seq<Filter>,
                       truth: seq<Token> -> Truth)
    requires filters != [] && Where(dialect, mode, qualify, filters).Ok?
    ensures Eval(Read(Where(dialect, mode, qualify, filters).value.0), truth) ==
      Meaning(Flags(filters), Truths(Atoms(ConditionRenderer(dialect, mode, qualify), filters), truth))
  {
    var render := ConditionRenderer(dialect, mode, qualify);
    WhereIsFlatText(render, filters);
    AtomsHaveNoConnective(dialect, mode, qualify, filters);
    ReadMeansMeaning(Atoms(render, filters), Flags(filters), truth);
  }

  // ---------- policy filters ----------

  predicate NoOr(flags: seq<bool>) {
    forall i :: 0 <= i < |flags| ==> !flags[i]
  }

  function All(truths: seq<Truth>): Truth {
    if truths == [] then True else Both(truths[0], All(truths[1..]))
  }

  lemma {:induction false} AllRank(truths: seq<Truth>, rank: nat)
    requires rank <= 2
    ensures All(truths).Rank() >= rank <==> forall j :: 0 <= j < |truths| ==> truths[j].Rank() >= rank
  {
    if truths != [] {
      AllRank(truths[1..], rank);
      assert forall j :: 1 <= j < |truths| ==> truths[j] == truths[1..][j - 1];
    }
  }

  lemma SameRanks(a: Truth, b: Truth)
    requires a.Rank() >= 1 <==> b.Rank() >= 1
    requires a.Rank() >= 2 <==> b.Rank() >= 2
    ensures a == b
  {
  }

  lemma LastGroupRank(flags: seq<bool>, truths: seq<Truth>, g: nat, rank: nat)
    requires |flags| == |truths| && GroupStart(flags, g) && NoOr(flags[g + 1..]) && 1 <= rank <= 2
    ensures Meaning(flags, truths).Rank() >= rank <==>
      (g > 0 && Meaning(flags[..g], truths[..g]).Rank() >= rank) || All(truths[g..]).Rank() >= rank
  {
    MeaningIsDisjunctionOfGroups(flags, truths, rank);
    AllRank(truths[g..], rank);
    assert forall k :: g < k < |flags| ==> !flags[k] by {
      forall k | g < k < |flags| ensures !flags[k] { assert flags[g + 1..][k - g - 1] == flags[k]; }
    }
    assert forall j :: g <= j < |truths| ==> truths[j] == truths[g..][j - g];
    assert GroupHolds(flags, truths, g, rank) <==> All(truths[g..]).Rank() >= rank by {
      assert forall j :: InGroup(flags, g, j) <==> g <= j < |flags|;
    }
    if g > 0 {
      MeaningIsDisjunctionOfGroups(flags[..g], truths[..g], rank);
      forall s | 0 <= s < g
        ensures GroupHolds(flags, truths, s, rank) <==> GroupHolds(flags[..g], truths[..g], s, rank)
      {
        EarlierGroup(flags, truths, g, s, rank);
      }
    }
  }

  lemma EarlierGroup(flags: seq<bool>, truths: seq<Truth>, g: nat, s: nat, rank: nat)
    requires |flags| == |truths| && s < g < |flags| && flags[g]
    ensures GroupHolds(flags, truths, s, rank) <==> GroupHolds(flags[..g], truths[..g], s, rank)
  {
    forall j ensures InGroup(flags, s, j) <==> InGroup(flags[..g], s, j) {
      if s <= j < g {
        assert forall k :: s < k <= j ==> flags[k] == flags[..g][k];
      }
    }
  }

  /** The last group is conjoined with nothing before it. */
  lemma LastGroup(flags: seq<bool>, truths: seq<Truth>, g: nat)
    requires |flags| == |truths| && GroupStart(flags, g) && NoOr(flags[g + 1..])
    ensures Meaning(flags, truths) ==
      if g == 0 then All(truths) else Either(Meaning(flags[..g], truths[..g]), All(truths[g..]))
  {
    LastGroupRank(flags, truths, g, 1);
    LastGroupRank(flags, truths, g, 2);
    assert g == 0 ==> truths[g..] == truths;
    SameRanks(Meaning(flags, truths),
              if g == 0 then All(truths) else Either(Meaning(flags[..g], truths[..g]), All(truths[g..])));
  }

  lemma {:induction false} AllConcat(a: seq<Truth>, b: seq<Truth>)
    ensures All(a + b) == Both(All(a), All(b))
  {
    if a == [] {
      assert a + b == b;
    } else {
      assert (a + b)[1..] == a[1..] + b;
      AllConcat(a[1..], b);
    }
  }

  lemma ConcatSplit<T>(a: seq<T>, b: seq<T>, n: nat)
    requires n <= |a|
    ensures (a + b)[..n] == a[..n] && (a + b)[n..] == a[n..] + b
  {
  }

  /** Policy filters that do not ask for OR restrict the last group of the caller's filters, and only it. */
  lemma PolicyJoinsLastGroup(user: seq<bool>, userTruths: seq<Truth>, policy: seq<bool>, policyTruths: seq<Truth>,
                             g: nat)
    requires |user| == |userTruths| && |policy| == |policyTruths|
    requires GroupStart(user, g) && NoOr(user[g + 1..]) && NoOr(policy)
    ensures Meaning(user + policy, userTruths + policyTruths) ==
      var last := Both(All(userTruths[g..]), All(policyTruths));
      if g == 0 then last else Either(Meaning(user[..g], userTruths[..g]), last)
  {
    var flags, truths := user + policy, userTruths + policyTruths;
    ConcatSplit(user, policy, g + 1);
    ConcatSplit(user, policy, g);
    ConcatSplit(userTruths, policyTruths, g);
    LastGroup(flags, truths, g);
    AllConcat(userTruths[g..], policyTruths);
    if g == 0 {
      assert userTruths[0..] == userTruths;
    }
  }

  function Constant(t: Truth, n: nat): (r: seq<Truth>)
    ensures |r| == n && forall i :: 0 <= i < n ==> r[i] == t
  {
    seq(n, _ => t)
  }

  ghost predicate MeansBothAt(user: seq<bool>, policy: seq<bool>, userTruths: seq<Truth>, policyTruths: seq<Truth>)
    requires |user| == |userTruths| && |policy| == |policyTruths|
  {
    Meaning(user + policy, userTruths + policyTruths) == Both(Meaning(user, userTruths), Meaning(policy, policyTruths))
  }

  /** Appending the policy filters means "caller's filters and policy filters" for all rows exactly when
      one of the lists is empty or no filter after the first asks for OR. */
  lemma GovernedMeansBothIff(user: seq<bool>, policy: seq<bool>)
    ensures (forall userTruths, policyTruths :: |userTruths| == |user| && |policyTruths| == |policy| ==>
               MeansBothAt(user, policy, userTruths, policyTruths))
      <==> user == [] || policy == [] || NoOr((user + policy)[1..])
  {
    if user == [] || policy == [] || NoOr((user + policy)[1..]) {
      forall userTruths: seq<Truth>, policyTruths: seq<Truth> | |userTruths| == |user| && |policyTruths| == |policy|
        ensures MeansBothAt(user, policy, userTruths, policyTruths)
      {
        SingleGroupMeansBoth(user, policy, userTruths, policyTruths);
      }
    } else {
      var k :| 0 <= k < |(user + policy)[1..]| && (user + policy)[1..][k];
      var userTruths, policyTruths := DecidingRow(user, policy, k + 1);
      assert !MeansBothAt(user, policy, userTruths, policyTruths);
    }
  }

  lemma SingleGroupMeansBoth(user: seq<bool>, policy: seq<bool>, userTruths: seq<Truth>, policyTruths: seq<Truth>)
    requires |userTruths| == |user| && |policyTruths| == |policy|
    requires user == [] || policy == [] || NoOr((user + policy)[1..])
    ensures MeansBothAt(user, policy, userTruths, policyTruths)
  {
    if user == [] {
      assert user + policy == policy && userTruths + policyTruths == policyTruths;
    } else if policy == [] {
      assert user + policy == user && userTruths + policyTruths == userTruths;
    } else {
      assert (user + policy)[1..] == user[1..] + policy;
      assert NoOr(policy) by {
        forall i | 0 <= i < |policy| ensures !policy[i] { assert (user[1..] + policy)[|user| - 1 + i] == policy[i]; }
      }
      assert NoOr(user[1..]) by {
        forall i | 0 <= i < |user[1..]| ensures !user[1..][i] { assert (user[1..] + policy)[i] == user[1..][i]; }
      }
      LastGroup(user + policy, userTruths + policyTruths, 0);
      LastGroup(user, userTruths, 0);
      LastGroup(policy, policyTruths, 0);
      AllConcat(userTruths, policyTruths);
    }
  }

  // A row that one side rejects and the OR at position `k` keeps.
  lemma DecidingRow(user: seq<bool>, policy: seq<bool>, k: nat)
    returns (userTruths: seq<Truth>, policyTruths: seq<Truth>)
    requires user != [] && policy != [] && 1 <= k < |user + policy| && (user + policy)[k]
    ensures |userTruths| == |user| && |policyTruths| == |policy|
    ensures !MeansBothAt(user, policy, userTruths, policyTruths)
  {
    var flags := user + policy;
    if k < |user| {
      userTruths, policyTruths := Constant(True, |user|), Constant(False, |policy|);
      assert GroupHolds(flags, userTruths + policyTruths, 0, 2) by {
        forall j | InGroup(flags, 0, j) ensures j < |user| {
          assert flags[k];
        }
      }
      MeaningIsDisjunctionOfGroups(policy, policyTruths, 1);
      forall s ensures !GroupHolds(policy, policyTruths, s, 1) {
        assert GroupStart(policy, s) ==> InGroup(policy, s, s);
      }
    } else {
      userTruths, policyTruths := Constant(False, |user|), Constant(True, |policy|);
      assert GroupHolds(flags, userTruths + policyTruths, k, 2);
      MeaningIsDisjunctionOfGroups(user, userTruths, 1);
      forall s ensures !GroupHolds(user, userTruths, s, 1) {
        assert GroupStart(user, s) ==> InGroup(user, s, s);
      }
    }
    MeaningIsDisjunctionOfGroups(flags, userTruths + policyTruths, 2);
  }

  lemma {:induction false} PrefixOfText(render: Renderer, filters: seq<Filter>, n: nat)
    requires WhereBy(render, filters).Ok? && n <= |filters|
    ensures WhereBy(render, filters[..n]).Ok?
    ensures Atoms(render, filters)[..n] == Atoms(render, filters[..n])
    ensures Flags(filters)[..n] == Flags(filters[..n])
  {
    if n < |filters| {
      var front := filters[..|filters| - 1];
      WhereByStep(render, filters);
      assert front[..n] == filters[..n];
      PrefixOfText(render, front, n);
      assert Atoms(render, filters)[..n] == Atoms(render, front)[..n];
    } else {
      assert filters[..n] == filters;
    }
  }

  lemma PrefixMeans(dialect: Dialect, mode: ValueMode, qualify: string -> string, filters: seq<Filter>, g: nat,
                    truth: seq<Token> -> Truth)
    requires Where(dialect, mode, qualify, filters).Ok? && 0 < g <= |filters|
    ensures Where(dialect, mode, qualify, filters[..g]).Ok?
    ensures Eval(Read(Where(dialect, mode, qualify, filters[..g]).value.0), truth) ==
      Meaning(Flags(filters)[..g], Truths(Atoms(ConditionRenderer(dialect, mode, qualify), filters), truth)[..g])
  {
    var render := ConditionRenderer(dialect, mode, qualify);
    PrefixOfText(render, filters, g);
    WhereTextMeans(dialect, mode, qualify, filters[..g], truth);
    TruthsPrefix(Atoms(render, filters), truth, g);
  }

  lemma TruthsPrefix(atoms: seq<seq<Token>>, truth: seq<Token> -> Truth, g: nat)
    requires g <= |atoms|
    ensures Truths(atoms, truth)[..g] == Truths(atoms[..g], truth)
  {
  }

  lemma PolicyExtendsLastGroup(user: seq<Filter>, policy: seq<Filter>, g: nat)
    requires GroupStart(Flags(user), g) && NoOr(Flags(user)[g + 1..]) && NoOr(Flags(policy))
    ensures GroupStart(Flags(user + policy), g) && NoOr(Flags(user + policy)[g + 1..])
  {
    assert Flags(user + policy) == Flags(user) + Flags(policy);
    assert Flags(user + policy)[g + 1..] == Flags(user)[g + 1..] + Flags(policy);
  }

  /** What a text means whose last group starts at `g`: the conjunction of that group, or what the text
      before it means. */
  ghost predicate EndsInGroup(dialect: Dialect, mode: ValueMode, qualify: string -> string, filters: seq<Filter>,
                              g: nat, truth: seq<Token> -> Truth)
    requires Where(dialect, mode, qualify, filters).Ok? && g < |filters|
    requires Where(dialect, mode, qualify, filters[..g]).Ok?
  {
    var truths := Truths(Atoms(ConditionRenderer(dialect, mode, qualify), filters), truth);
    Eval(Read(Where(dialect, mode, qualify, filters).value.0), truth) ==
    if g == 0 then All(truths)
    else Either(Eval(Read(Where(dialect, mode, qualify, filters[..g]).value.0), truth), All(truths[g..]))
  }

  lemma LastGroupOfText(dialect: Dialect, mode: ValueMode, qualify: string -> string, filters: seq<Filter>, g: nat,
                        truth: seq<Token> -> Truth)
    requires Where(dialect, mode, qualify, filters).Ok?
    requires GroupStart(Flags(filters), g) && NoOr(Flags(filters)[g + 1..])
    ensures Where(dialect, mode, qualify, filters[..g]).Ok?
    ensures EndsInGroup(dialect, mode, qualify, filters, g, truth)
  {
    WhereTextMeans(dialect, mode, qualify, filters, truth);
    LastGroup(Flags(filters), Truths(Atoms(ConditionRenderer(dialect, mode, qualify), filters), truth), g);
    if g > 0 {
      PrefixMeans(dialect, mode, qualify, filters, g, truth);
    }
  }

  /** The text of a governed query, with policy filters that do not ask for OR: a row passes when the
      caller's groups before the last accept it, or when it satisfies the last group and every policy
      filter. */
  lemma GovernedTextMeans(dialect: Dialect, mode: ValueMode, qualify: string -> string, user: seq<Filter>,
                          policy: seq<Filter>,
                          g: nat, truth: seq<Token> -> Truth)
    requires Where(dialect, mode, qualify, user + policy).Ok?
    requires GroupStart(Flags(user), g) && NoOr(Flags(user)[g + 1..]) && NoOr(Flags(policy))
    ensures (user + policy)[..g] == user[..g] && Where(dialect, mode, qualify, user[..g]).Ok?
    ensures EndsInGroup(dialect, mode, qualify, user + policy, g, truth)
  {
    PolicyExtendsLastGroup(user, policy, g);
    LastGroupOfText(dialect, mode, qualify, user + policy, g, truth);
    assert (user + policy)[..g] == user[..g];
  }
}
