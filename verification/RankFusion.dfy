/** `reciprocal_rank_fusion` of crates/graphnight-runtime/src/embedding.rs, over exact scores.

    A score is a real number, or what the floating-point rules make of a division by zero. */
module RankFusion {
  import opened Sorting

  // ---------- scores ----------

  datatype Score = Finite(value: real) | Infinite(positive: bool) | NotANumber

  const ZERO: Score := Finite(0.0)

  function Plus(a: Score, b: Score): Score {
    match (a, b)
    case (Finite(x), Finite(y)) => Finite(x + y)
    case (Infinite(p), Infinite(q)) => if p == q then a else NotANumber
    case (Infinite(_), Finite(_)) => a
    case (Finite(_), Infinite(_)) => b
    case _ => NotANumber
  }

  function Divided(weight: real, among: real): Score {
    if among != 0.0 then Finite(weight / among)
    else if weight != 0.0 then Infinite(weight > 0.0)
    else NotANumber
  }

  /** Nothing is above, or below, what is not a number. */
  predicate Above(a: Score, b: Score) {
    match (a, b)
    case (Finite(x), Finite(y)) => x > y
    case (Infinite(p), Infinite(q)) => p && !q
    case (Infinite(p), Finite(_)) => p
    case (Finite(_), Infinite(q)) => !q
    case _ => false
  }

  /** Numbers are ordered, the infinite ones at the ends; what is not a number stands nowhere. */
  lemma AboveIsOrder(a: Score, b: Score)
    ensures a.NotANumber? || b.NotANumber? ==> !Above(a, b) && !Above(b, a)
    ensures !a.NotANumber? && !b.NotANumber? ==> (a == b <==> !Above(a, b) && !Above(b, a))
    ensures !(Above(a, b) && Above(b, a))
    ensures a == Infinite(true) && b != a && !b.NotANumber? ==> Above(a, b)
  {
  }

  lemma PlusAssociates(a: Score, b: Score, c: Score)
    ensures Plus(Plus(a, b), c) == Plus(a, Plus(b, c))
    ensures Plus(a, ZERO) == a == Plus(ZERO, a)
  {
  }

  // ---------- ranked lists ----------

  // Identifiers in order; what stands beside an identifier in an input plays no part.
  type Ranked<T> = seq<(string, T)>

  ghost function Ids<T>(list: Ranked<T>): set<string> {
    set entry | entry in list :: entry.0
  }

  ghost predicate DistinctIds<T>(list: Ranked<T>) {
    forall i, j :: 0 <= i < j < |list| ==> list[i].0 != list[j].0
  }

  function Share(weight: real, k: real, rank: nat): Score {
    Divided(weight, k + rank as real + 1.0)
  }

  /** A share is the weight divided by the denominator; divided by zero, infinite with the sign of the weight, or
      no number without one. */
  lemma ShareTimesDenominator(weight: real, k: real, rank: nat)
    ensures var share, denominator := Share(weight, k, rank), k + rank as real + 1.0;
      if denominator != 0.0 then share.Finite? && share.value * denominator == weight
      else if weight > 0.0 then share == Infinite(true)
      else if weight < 0.0 then share == Infinite(false)
      else share == NotANumber
  {
  }

  /** What one list adds to the score of `id`. */
  function ScoreIn(list: Ranked<real>, weight: real, k: real, id: string): Score {
    if list == [] then ZERO
    else
      var n := |list| - 1;
      var before := ScoreIn(list[..n], weight, k, id);
      if list[n].0 == id then Plus(before, Share(weight, k, n)) else before
  }

  lemma IdsStep<T>(front: Ranked<T>, last: (string, T))
    ensures Ids(front + [last]) == Ids(front) + {last.0}
  {
  }

  lemma ScoreStep(front: Ranked<real>, last: (string, real), weight: real, k: real, id: string)
    ensures ScoreIn(front + [last], weight, k, id) ==
      if last.0 == id then Plus(ScoreIn(front, weight, k, id), Share(weight, k, |front|))
      else ScoreIn(front, weight, k, id)
  {
    assert (front + [last])[..|front|] == front;
  }

  lemma {:induction false} NotListedNoScore(list: Ranked<real>, weight: real, k: real, id: string)
    requires id !in Ids(list)
    ensures ScoreIn(list, weight, k, id) == ZERO
  {
    if list != [] {
      var n := |list| - 1;
      assert list == list[..n] + [list[n]];
      IdsStep(list[..n], list[n]);
      NotListedNoScore(list[..n], weight, k, id);
    }
  }

  // ---------- the fusion ----------

  type Scores = map<string, Score>

  function ScoreOf(scores: Scores, id: string): Score {
    if id in scores then scores[id] else ZERO
  }

  /** `r` is `scores` with what `list` adds to each. */
  ghost predicate Accumulated(scores: Scores, list: Ranked<real>, weight: real, k: real, r: Scores) {
    && r.Keys == scores.Keys + Ids(list)
    && forall id :: id in r ==> r[id] == Plus(ScoreOf(scores, id), ScoreIn(list, weight, k, id))
  }

  lemma ScoreSoFar(scores: Scores, front: Ranked<real>, weight: real, k: real, r: Scores, id: string)
    requires Accumulated(scores, front, weight, k, r)
    ensures ScoreOf(r, id) == Plus(ScoreOf(scores, id), ScoreIn(front, weight, k, id))
  {
    if id !in r {
      NotListedNoScore(front, weight, k, id);
      PlusAssociates(ZERO, ZERO, ZERO);
    }
  }

  lemma AccumulatedStep(scores: Scores, front: Ranked<real>, last: (string, real), weight: real, k: real, r: Scores)
    requires Accumulated(scores, front, weight, k, r)
    ensures Accumulated(scores, front + [last], weight, k,
                        r[last.0 := Plus(ScoreOf(r, last.0), Share(weight, k, |front|))])
  {
    var next := r[last.0 := Plus(ScoreOf(r, last.0), Share(weight, k, |front|))];
    IdsStep(front, last);
    forall id | id in next ensures next[id] == Plus(ScoreOf(scores, id), ScoreIn(front + [last], weight, k, id)) {
      ScoreStep(front, last, weight, k, id);
      ScoreSoFar(scores, front, weight, k, r, id);
      if id == last.0 {
        PlusAssociates(ScoreOf(scores, id), ScoreIn(front, weight, k, id), Share(weight, k, |front|));
      }
    }
  }

  /** Adds the shares of one list to the scores. */
  method AddList(scores: Scores, list: Ranked<real>, weight: real, k: real) returns (r: Scores)
    ensures Accumulated(scores, list, weight, k, r)
  {
    r := scores;
    NothingAdded(scores, weight, k);
    for rank := 0 to |list|
      invariant Accumulated(scores, list[..rank], weight, k, r)
    {
      var id := list[rank].0;
      AccumulatedStep(scores, list[..rank], list[rank], weight, k, r);
      assert list[..rank] + [list[rank]] == list[..rank + 1];
      r := r[id := Plus(if id in r then r[id] else ZERO, Divided(weight, k + rank as real + 1.0))];
    }
    assert list[..|list|] == list;
  }

  lemma NothingAdded(scores: Scores, weight: real, k: real)
    ensures Accumulated(scores, [], weight, k, scores)
  {
    forall id | id in scores ensures scores[id] == Plus(ScoreOf(scores, id), ScoreIn([], weight, k, id)) {
      PlusAssociates(scores[id], ZERO, ZERO);
    }
  }

  /** `a` may stand before `b`: its score is not below. */
  predicate HigherFirst(a: (string, Score), b: (string, Score)) {
    !Above(b.1, a.1)
  }

  ghost predicate AllNumbers(list: Ranked<Score>) {
    forall i :: 0 <= i < |list| ==> !list[i].1.NotANumber?
  }

  // The same, with a place at the end for what is not a number.
  predicate NumbersFirst(a: (string, Score), b: (string, Score)) {
    if a.1.NotANumber? then b.1.NotANumber? else b.1.NotANumber? || HigherFirst(a, b)
  }

  /** Where all scores are numbers, the comparison is one that sorts. */
  lemma NumbersAreSorted(entries: Ranked<Score>)
    requires AllNumbers(entries)
    ensures Sorted(SortBy(entries, HigherFirst), HigherFirst)
  {
    var sorted := SortBy(entries, NumbersFirst);
    SortByCorrect(entries, NumbersFirst);
    forall x | x in multiset(entries) ensures !x.1.NotANumber? {
      assert x in entries;
    }
    SortByAgrees(entries, multiset(entries), HigherFirst, NumbersFirst);
    forall i, j | 0 <= i < j < |sorted| ensures HigherFirst(sorted[i], sorted[j]) {
      assert NumbersFirst(sorted[i], sorted[j]);
      assert sorted[i] in multiset(sorted) && sorted[j] in multiset(sorted);
    }
  }

  /** The entries of a map, in whatever order it yields them. */
  method Entries(scores: Scores) returns (entries: Ranked<Score>)
    ensures DistinctIds(entries) && Ids(entries) == scores.Keys
    ensures forall i :: 0 <= i < |entries| ==> entries[i].0 in scores && entries[i].1 == scores[entries[i].0]
  {
    entries := [];
    var left := scores.Keys;
    while left != {}
      invariant left <= scores.Keys && Ids(entries) == scores.Keys - left
      invariant DistinctIds(entries)
      invariant forall i :: 0 <= i < |entries| ==> entries[i].0 in scores && entries[i].1 == scores[entries[i].0]
      decreases left
    {
      var id :| id in left;
      forall i | 0 <= i < |entries| ensures entries[i].0 != id {
        assert entries[i] in entries;
      }
      IdsStep(entries, (id, scores[id]));
      entries := entries + [(id, scores[id])];
      left := left - {id};
    }
  }

  /** Every id of either list once, each with its whole score. */
  ghost predicate Fused(lexical: Ranked<real>, dense: Ranked<real>, k: real, weightLexical: real, weightDense: real,
                        fused: Ranked<Score>)
  {
    && DistinctIds(fused) && Ids(fused) == Ids(lexical) + Ids(dense)
    && forall i :: 0 <= i < |fused| ==> fused[i].1 == Total(lexical, dense, k, weightLexical, weightDense, fused[i].0)
  }

  function Total(lexical: Ranked<real>, dense: Ranked<real>, k: real, weightLexical: real, weightDense: real,
                 id: string): Score {
    Plus(ScoreIn(lexical, weightLexical, k, id), ScoreIn(dense, weightDense, k, id))
  }

  predicate AtPole(k: real, rank: nat) {
    k + rank as real + 1.0 == 0.0
  }

  /** At this rank there is an entry of a list of weight zero, or the same identifier in two lists whose weights
      have opposite signs. */
  predicate NoNumberAt(lexical: Ranked<real>, dense: Ranked<real>, weightLexical: real, weightDense: real, rank: nat) {
    || (rank < |lexical| && weightLexical == 0.0)
    || (rank < |dense| && weightDense == 0.0)
    || (rank < |lexical| && rank < |dense| && lexical[rank].0 == dense[rank].0 && weightLexical * weightDense < 0.0)
  }

  /** The rank whose denominator is zero is such a rank. */
  ghost predicate MeetsPole(lexical: Ranked<real>, dense: Ranked<real>, k: real, weightLexical: real,
                            weightDense: real) {
    exists rank: nat :: AtPole(k, rank) && NoNumberAt(lexical, dense, weightLexical, weightDense, rank)
  }

  /** Every score is a number exactly when no pole is met.  With one that is not, the comparison is no order, and
      none is promised. */
  method ReciprocalRankFusion(lexical: Ranked<real>, dense: Ranked<real>, k: real,
                              weightLexical: real, weightDense: real)
    returns (fused: Ranked<Score>)
    ensures Fused(lexical, dense, k, weightLexical, weightDense, fused)
    ensures AllNumbers(fused) ==> Sorted(fused, HigherFirst)
    ensures AllNumbers(fused) <==> !MeetsPole(lexical, dense, k, weightLexical, weightDense)
  {
    var scores := AddList(map[], lexical, weightLexical, k);
    ghost var first := scores;
    scores := AddList(scores, dense, weightDense, k);
    var entries := Entries(scores);
    AddedTwice(lexical, dense, k, weightLexical, weightDense, first, scores, entries);
    SortByPermutes(entries, HigherFirst);
    fused := SortBy(entries, HigherFirst);
    ReorderedIsFused(lexical, dense, k, weightLexical, weightDense, entries, fused);
    if AllNumbers(fused) {
      SameElements(fused, entries);
      NumbersEither(fused, entries);
      NumbersAreSorted(entries);
    }
    NumbersIff(lexical, dense, k, weightLexical, weightDense, fused);
  }

  lemma NumbersEither(a: Ranked<Score>, b: Ranked<Score>)
    requires AllNumbers(a) && forall entry :: entry in b ==> entry in a
    ensures AllNumbers(b)
  {
    forall i | 0 <= i < |b| ensures !b[i].1.NotANumber? {
      assert b[i] in b;
      var j :| 0 <= j < |a| && a[j] == b[i];
    }
  }

  lemma AddedTwice(lexical: Ranked<real>, dense: Ranked<real>, k: real, weightLexical: real, weightDense: real,
                   first: Scores, scores: Scores, entries: Ranked<Score>)
    requires Accumulated(map[], lexical, weightLexical, k, first) && Accumulated(first, dense, weightDense, k, scores)
    requires DistinctIds(entries) && Ids(entries) == scores.Keys
    requires forall i :: 0 <= i < |entries| ==> entries[i].0 in scores && entries[i].1 == scores[entries[i].0]
    ensures Fused(lexical, dense, k, weightLexical, weightDense, entries)
  {
    forall i | 0 <= i < |entries|
      ensures entries[i].1 == Total(lexical, dense, k, weightLexical, weightDense, entries[i].0)
    {
      var id := entries[i].0;
      PlusAssociates(ScoreIn(lexical, weightLexical, k, id), ZERO, ZERO);
      if id !in first {
        NotListedNoScore(lexical, weightLexical, k, id);
      }
    }
  }

  lemma ReorderedIsFused(lexical: Ranked<real>, dense: Ranked<real>, k: real, weightLexical: real, weightDense: real,
                         a: Ranked<Score>, b: Ranked<Score>)
    requires Fused(lexical, dense, k, weightLexical, weightDense, a) && multiset(a) == multiset(b)
    ensures Fused(lexical, dense, k, weightLexical, weightDense, b)
  {
    SameElements(a, b);
    forall i | 0 <= i < |b| ensures b[i].1 == Total(lexical, dense, k, weightLexical, weightDense, b[i].0) {
      assert b[i] in b;
      var j :| 0 <= j < |a| && a[j] == b[i];
    }
  }

  /** Reordering entries with distinct ids keeps them distinct and changes none. */
  lemma SameElements(a: Ranked<Score>, b: Ranked<Score>)
    requires multiset(a) == multiset(b) && DistinctIds(a)
    ensures DistinctIds(b) && Ids(a) == Ids(b)
    ensures forall entry :: entry in b <==> entry in a
  {
    forall entry ensures entry in b <==> entry in a {
      assert entry in multiset(b) <==> entry in multiset(a);
    }
    forall i, j | 0 <= i < j < |b| ensures b[i].0 != b[j].0 {
      if b[i].0 == b[j].0 {
        assert b[i] in a && b[j] in a;
        TwiceInMultiset(b, i, j);
        OnceInMultiset(a, b[i]);
      }
    }
  }

  lemma TwiceInMultiset(s: Ranked<Score>, i: nat, j: nat)
    requires i < j < |s| && s[i] == s[j]
    ensures multiset(s)[s[i]] >= 2
  {
    assert s == s[..j] + s[j..] && s[i] in s[..j] && s[j] in s[j..];
    assert multiset(s) == multiset(s[..j]) + multiset(s[j..]);
  }

  lemma OnceInMultiset(s: Ranked<Score>, entry: (string, Score))
    requires DistinctIds(s) && entry in s
    ensures multiset(s)[entry] == 1
  {
    var p :| 0 <= p < |s| && s[p] == entry;
    assert s == s[..p] + [s[p]] + s[p + 1..];
    assert entry !in s[..p] && entry !in s[p + 1..];
  }

  // ---------- which scores are numbers ----------

  lemma {:induction false} FiniteScore(list: Ranked<real>, weight: real, k: real, id: string)
    requires k >= 0.0
    ensures ScoreIn(list, weight, k, id).Finite?
    ensures weight >= 0.0 ==> ScoreIn(list, weight, k, id).value >= 0.0
    ensures weight == 0.0 ==> ScoreIn(list, weight, k, id).value == 0.0
  {
    if list != [] {
      var n := |list| - 1;
      FiniteScore(list[..n], weight, k, id);
      assert weight >= 0.0 ==> weight / (k + n as real + 1.0) >= 0.0;
    }
  }

  /** `id` is in the list at the rank whose denominator is zero. */
  ghost predicate PoleOf(list: Ranked<real>, k: real, id: string) {
    exists rank: nat :: AtPole(k, rank) && rank < |list| && list[rank].0 == id
  }

  lemma PoleOfLast(list: Ranked<real>, k: real, id: string)
    requires list != []
    ensures var n := |list| - 1;
      PoleOf(list, k, id) <==> PoleOf(list[..n], k, id) || (AtPole(k, n) && list[n].0 == id)
  {
    var n := |list| - 1;
    if PoleOf(list[..n], k, id) {
      var rank: nat :| AtPole(k, rank) && rank < n && list[..n][rank].0 == id;
      assert list[rank].0 == id;
    }
    if PoleOf(list, k, id) {
      var rank: nat :| AtPole(k, rank) && rank < |list| && list[rank].0 == id;
      assert rank < n ==> list[..n][rank].0 == id;
    }
  }

  /** Only one rank has the denominator zero: what is scored there is infinite, or with weight zero no number. */
  lemma {:induction false} ScoreKind(list: Ranked<real>, weight: real, k: real, id: string)
    ensures if PoleOf(list, k, id) then ScoreIn(list, weight, k, id) == Divided(weight, 0.0)
            else ScoreIn(list, weight, k, id).Finite?
  {
    if list != [] {
      ScoreKind(list[..|list| - 1], weight, k, id);
      PoleOfLast(list, k, id);
    }
  }

  lemma SignsOppose(a: real, b: real)
    ensures a * b < 0.0 <==> (a > 0.0 && b < 0.0) || (a < 0.0 && b > 0.0)
  {
    if a != 0.0 && b != 0.0 {
      var x, y := if a > 0.0 then a else -a, if b > 0.0 then b else -b;
      assert x * y > 0.0;
    }
  }

  lemma TotalIsNoNumberIff(lexical: Ranked<real>, dense: Ranked<real>, k: real, weightLexical: real,
                           weightDense: real, id: string)
    ensures Total(lexical, dense, k, weightLexical, weightDense, id).NotANumber? <==>
      || (PoleOf(lexical, k, id) && weightLexical == 0.0)
      || (PoleOf(dense, k, id) && weightDense == 0.0)
      || (PoleOf(lexical, k, id) && PoleOf(dense, k, id) && weightLexical * weightDense < 0.0)
  {
    ScoreKind(lexical, weightLexical, k, id);
    ScoreKind(dense, weightDense, k, id);
    SignsOppose(weightLexical, weightDense);
  }

  lemma NumbersIff(lexical: Ranked<real>, dense: Ranked<real>, k: real, weightLexical: real, weightDense: real,
                   fused: Ranked<Score>)
    requires Fused(lexical, dense, k, weightLexical, weightDense, fused)
    ensures AllNumbers(fused) <==> !MeetsPole(lexical, dense, k, weightLexical, weightDense)
  {
    forall i | 0 <= i < |fused| && fused[i].1.NotANumber?
      ensures MeetsPole(lexical, dense, k, weightLexical, weightDense)
    {
      TotalIsNoNumberIff(lexical, dense, k, weightLexical, weightDense, fused[i].0);
    }
    if MeetsPole(lexical, dense, k, weightLexical, weightDense) {
      var rank, id := PoleIsHeld(lexical, dense, k, weightLexical, weightDense);
      TotalIsNoNumberIff(lexical, dense, k, weightLexical, weightDense, id);
      var i := IdHasPosition(fused, id);
      assert fused[i].1.NotANumber?;
    }
  }

  lemma PoleIsHeld(lexical: Ranked<real>, dense: Ranked<real>, k: real, weightLexical: real, weightDense: real)
    returns (rank: nat, id: string)
    requires MeetsPole(lexical, dense, k, weightLexical, weightDense)
    ensures id in Ids(lexical) + Ids(dense)
    ensures || (PoleOf(lexical, k, id) && weightLexical == 0.0)
            || (PoleOf(dense, k, id) && weightDense == 0.0)
            || (PoleOf(lexical, k, id) && PoleOf(dense, k, id) && weightLexical * weightDense < 0.0)
  {
    rank :| AtPole(k, rank) && NoNumberAt(lexical, dense, weightLexical, weightDense, rank);
    if rank < |lexical| && weightLexical == 0.0 {
      id := lexical[rank].0;
      assert lexical[rank] in lexical;
    } else {
      id := dense[rank].0;
      assert dense[rank] in dense;
    }
  }

  /** A `k` of at least zero meets no pole, nor do two weights of the same sign. */
  lemma UsualInputsMeetNoPole(lexical: Ranked<real>, dense: Ranked<real>, k: real, weightLexical: real,
                              weightDense: real)
    requires k >= 0.0 || (weightLexical > 0.0 && weightDense > 0.0) || (weightLexical < 0.0 && weightDense < 0.0)
    ensures !MeetsPole(lexical, dense, k, weightLexical, weightDense)
  {
    SignsOppose(weightLexical, weightDense);
  }

  // ---------- what a score is ----------

  /** What a list without repeats gives an identifier at rank `i`: its score there, times the denominator, is the
      weight; one that is not listed gets nothing. */
  ghost predicate RankedScore(list: Ranked<real>, weight: real, k: real, id: string, score: real) {
    && (id !in Ids(list) ==> score == 0.0)
    && (forall i: nat :: i < |list| && list[i].0 == id ==> score * (k + i as real + 1.0) == weight)
  }

  /** Away from the pole a fused score is the sum of what the two lists give. */
  lemma FusedScore(lexical: Ranked<real>, dense: Ranked<real>, k: real, weightLexical: real, weightDense: real,
                   id: string) returns (fromLexical: real, fromDense: real)
    requires DistinctIds(lexical) && DistinctIds(dense) && !PoleOf(lexical, k, id) && !PoleOf(dense, k, id)
    ensures Total(lexical, dense, k, weightLexical, weightDense, id) == Finite(fromLexical + fromDense)
    ensures RankedScore(lexical, weightLexical, k, id, fromLexical)
    ensures RankedScore(dense, weightDense, k, id, fromDense)
  {
    fromLexical := ListScore(lexical, weightLexical, k, id);
    fromDense := ListScore(dense, weightDense, k, id);
  }

  lemma ListScore(list: Ranked<real>, weight: real, k: real, id: string) returns (score: real)
    requires DistinctIds(list) && !PoleOf(list, k, id)
    ensures ScoreIn(list, weight, k, id) == Finite(score) && RankedScore(list, weight, k, id, score)
  {
    ScoreKind(list, weight, k, id);
    score := ScoreIn(list, weight, k, id).value;
    if id !in Ids(list) {
      NotListedNoScore(list, weight, k, id);
    }
    forall i: nat | i < |list| && list[i].0 == id ensures score * (k + i as real + 1.0) == weight {
      ScoreAtRank(list, weight, k, i);
      assert !AtPole(k, i);
      ShareTimesDenominator(weight, k, i);
    }
  }

  // ---------- ranked ahead everywhere means ranked ahead ----------

  lemma {:induction false} ScoreAtRank(list: Ranked<real>, weight: real, k: real, rank: nat)
    requires DistinctIds(list) && rank < |list|
    ensures ScoreIn(list, weight, k, list[rank].0) == Share(weight, k, rank)
    decreases |list|
  {
    var n := |list| - 1;
    if rank < n {
      ScoreAtRank(list[..n], weight, k, rank);
    } else {
      assert list[n].0 !in Ids(list[..n]) by {
        forall entry | entry in list[..n] ensures entry.0 != list[n].0 {
          var i :| 0 <= i < n && list[..n][i] == entry;
        }
      }
      NotListedNoScore(list[..n], weight, k, list[n].0);
      PlusAssociates(Share(weight, k, n), ZERO, ZERO);
    }
  }

  lemma ShareShrinks(weight: real, k: real, high: nat, low: nat)
    requires k >= 0.0 && weight > 0.0 && high < low
    ensures Above(Share(weight, k, high), Share(weight, k, low))
  {
    var a, b := k + high as real + 1.0, k + low as real + 1.0;
    assert 0.0 < a < b;
    var x, y := weight / a, weight / b;
    assert x * a == weight && y * b == weight;
    if x <= y {
      assert x * a <= y * a < y * b;
    }
  }

  /** In this list, `above` is ranked ahead of `below`. */
  ghost predicate Ahead<T>(list: Ranked<T>, above: string, below: string) {
    exists i, j :: 0 <= i < j < |list| && list[i].0 == above && list[j].0 == below
  }

  /** `below` is in the list, and the list counts. */
  ghost predicate Weighs(list: Ranked<real>, weight: real, below: string) {
    weight > 0.0 && below in Ids(list)
  }

  lemma AheadScoresMore(list: Ranked<real>, weight: real, k: real, above: string, below: string)
    requires k >= 0.0 && weight >= 0.0 && DistinctIds(list)
    requires Weighs(list, weight, below) ==> Ahead(list, above, below)
    ensures ScoreIn(list, weight, k, above).Finite? && ScoreIn(list, weight, k, below).Finite?
    ensures !Above(ScoreIn(list, weight, k, below), ScoreIn(list, weight, k, above))
    ensures Weighs(list, weight, below) ==> Above(ScoreIn(list, weight, k, above), ScoreIn(list, weight, k, below))
  {
    FiniteScore(list, weight, k, above);
    FiniteScore(list, weight, k, below);
    if below !in Ids(list) {
      NotListedNoScore(list, weight, k, below);
    } else if weight > 0.0 {
      var i, j :| 0 <= i < j < |list| && list[i].0 == above && list[j].0 == below;
      ScoreAtRank(list, weight, k, i);
      ScoreAtRank(list, weight, k, j);
      ShareShrinks(weight, k, i, j);
    }
  }

  lemma IdHasPosition<T>(list: Ranked<T>, id: string) returns (i: nat)
    requires id in Ids(list)
    ensures i < |list| && list[i].0 == id
  {
    var entry :| entry in list && entry.0 == id;
    i :| 0 <= i < |list| && list[i] == entry;
  }

  /** An identifier ranked ahead of another in every weighted list that holds the other, of which there is
      at least one, scores strictly higher and comes first in any answer of the fusion. */
  lemma ConsensusIsKept(lexical: Ranked<real>, dense: Ranked<real>, k: real, weightLexical: real, weightDense: real,
                        fused: Ranked<Score>, above: string, below: string)
    requires k >= 0.0 && weightLexical >= 0.0 && weightDense >= 0.0
    requires DistinctIds(lexical) && DistinctIds(dense)
    requires Fused(lexical, dense, k, weightLexical, weightDense, fused) && Sorted(fused, HigherFirst)
    requires Weighs(lexical, weightLexical, below) ==> Ahead(lexical, above, below)
    requires Weighs(dense, weightDense, below) ==> Ahead(dense, above, below)
    requires Weighs(lexical, weightLexical, below) || Weighs(dense, weightDense, below)
    ensures Above(Total(lexical, dense, k, weightLexical, weightDense, above),
                  Total(lexical, dense, k, weightLexical, weightDense, below))
    ensures Ahead(fused, above, below)
  {
    AheadScoresMore(lexical, weightLexical, k, above, below);
    AheadScoresMore(dense, weightDense, k, above, below);
    assert above in Ids(lexical) + Ids(dense) by {
      if Weighs(lexical, weightLexical, below) { AheadIsListed(lexical, above, below); }
      if Weighs(dense, weightDense, below) { AheadIsListed(dense, above, below); }
    }
    var i := IdHasPosition(fused, above);
    var j := IdHasPosition(fused, below);
    if j < i {
      assert HigherFirst(fused[j], fused[i]);
    }
  }

  lemma AheadIsListed<T>(list: Ranked<T>, above: string, below: string)
    requires Ahead(list, above, below)
    ensures above in Ids(list)
  {
    var i, j :| 0 <= i < j < |list| && list[i].0 == above && list[j].0 == below;
    assert list[i] in list;
  }
}
