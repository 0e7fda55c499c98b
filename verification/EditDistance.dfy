/** The did-you-mean distance of crates/graphnight-runtime/src/suggest.rs.

    `Distance` is the textbook recurrence on prefixes.  `EditChain` is the independent definition it is
    measured against: any way of turning one text into another by single-character insertions, deletions
    and substitutions, anywhere in the text and in any order.  `EditDistance` is the two-row loop. */
module EditDistance {
  import opened Numbers

  function AsciiLower(c: char): char {
    if 'A' <= c <= 'Z' then (c as int + 32) as char else c
  }

  function Lowered(s: string): (r: string)
    ensures |r| == |s|
  {
    seq(|s|, i requires 0 <= i < |s| => AsciiLower(s[i]))
  }

  const UPPER_CASE := "ABCDEFGHIJKLMNOPQRSTUVWXYZ"
  const LOWER_CASE := "abcdefghijklmnopqrstuvwxyz"

  lemma LetterAt(i: nat)
    requires i < 26
    ensures UPPER_CASE[i] as int == 'A' as int + i && LOWER_CASE[i] as int == 'a' as int + i
  {
  }

  /** Of all characters only the 26 capital letters change, each to its small one. */
  lemma LowersCapitals(c: char)
    ensures if exists i :: 0 <= i < 26 && UPPER_CASE[i] == c
            then exists i :: 0 <= i < 26 && UPPER_CASE[i] == c && LOWER_CASE[i] == AsciiLower(c)
            else AsciiLower(c) == c
  {
    if 'A' <= c <= 'Z' {
      LetterAt(c as int - 'A' as int);
    }
    if i :| 0 <= i < 26 && UPPER_CASE[i] == c {
      LetterAt(i);
    }
  }

  function Init(s: string): string
    requires s != []
  {
    s[..|s| - 1]
  }

  function Last(s: string): char
    requires s != []
  {
    s[|s| - 1]
  }

  function Mismatch(x: char, y: char): nat { if x != y then 1 else 0 }

  function Distance(a: string, b: string): nat
    decreases |a| + |b|
  {
    if a == [] then |b|
    else if b == [] then |a|
    else Min(Min(Distance(Init(a), b) + 1, Distance(a, Init(b)) + 1),
             Distance(Init(a), Init(b)) + Mismatch(Last(a), Last(b)))
  }

  // ---------- one-character edits, anywhere in the text ----------

  ghost predicate Inserts(s: string, t: string, i: nat) {
    i <= |s| && i < |t| && t == s[..i] + [t[i]] + s[i..]
  }

  ghost predicate Substitutes(s: string, t: string, i: nat) {
    i < |s| && |t| == |s| && t == s[i := t[i]]
  }

  ghost predicate OneEdit(s: string, t: string) {
    || (exists i: nat :: Inserts(s, t, i))
    || (exists i: nat :: Inserts(t, s, i))
    || (exists i: nat :: Substitutes(s, t, i))
  }

  /** A chain of texts from `a` to `b`, consecutive texts one edit apart: `|chain| - 1` edits. */
  ghost predicate EditChain(chain: seq<string>, a: string, b: string) {
    && chain != []
    && chain[0] == a
    && chain[|chain| - 1] == b
    && forall k :: 0 <= k < |chain| - 1 ==> OneEdit(chain[k], chain[k + 1])
  }

  // ---------- the recurrence is a metric ----------

  lemma {:induction false} DistanceZeroIffEqual(a: string, b: string)
    ensures Distance(a, b) == 0 <==> a == b
    decreases |a| + |b|
  {
    if a != [] && b != [] {
      DistanceZeroIffEqual(Init(a), Init(b));
      assert a == Init(a) + [Last(a)] && b == Init(b) + [Last(b)];
    }
  }

  lemma {:induction false} DistanceSymmetric(a: string, b: string)
    ensures Distance(a, b) == Distance(b, a)
    decreases |a| + |b|
  {
    if a != [] && b != [] {
      DistanceSymmetric(Init(a), b);
      DistanceSymmetric(a, Init(b));
      DistanceSymmetric(Init(a), Init(b));
    }
  }

  // The distance lies between the difference and the sum of the lengths.
  lemma {:induction false} DistanceLengthBound(a: string, b: string)
    ensures |b| - |a| <= Distance(a, b) <= |a| + |b|
    decreases |a| + |b|
  {
    if a != [] && b != [] {
      DistanceLengthBound(Init(a), b);
      DistanceLengthBound(a, Init(b));
      DistanceLengthBound(Init(a), Init(b));
    }
  }

  lemma {:induction false} DistanceTriangle(a: string, b: string, c: string)
    ensures Distance(a, c) <= Distance(a, b) + Distance(b, c)
    decreases |a| + |b| + |c|
  {
    if a == [] {
      DistanceLengthBound(b, c);
    } else if c == [] {
      DistanceLengthBound(b, a);
      DistanceSymmetric(a, b);
    } else if b == [] {
      DistanceLengthBound(a, c);
    } else {
      if Distance(a, b) == Distance(Init(a), b) + 1 {
        DistanceTriangle(Init(a), b, c);
      } else if Distance(b, c) == Distance(b, Init(c)) + 1 {
        DistanceTriangle(a, b, Init(c));
      } else if Distance(a, b) == Distance(a, Init(b)) + 1 {
        if Distance(b, c) == Distance(Init(b), c) + 1 {
          DistanceTriangle(a, Init(b), c);
        } else {
          DistanceTriangle(a, Init(b), Init(c));
        }
      } else if Distance(b, c) == Distance(Init(b), c) + 1 {
        DistanceTriangle(Init(a), Init(b), c);
      } else {
        DistanceTriangle(Init(a), Init(b), Init(c));
      }
    }
  }

  // ---------- the recurrence is the least number of edits ----------

  // A shared tail never costs anything.
  lemma {:induction false} SharedTail(a: string, b: string, tail: string)
    ensures Distance(a + tail, b + tail) <= Distance(a, b)
    decreases |tail|
  {
    if tail == [] {
      assert a + tail == a && b + tail == b;
    } else {
      var at, bt := a + tail, b + tail;
      assert Init(at) == a + Init(tail) && Init(bt) == b + Init(tail);
      SharedTail(a, b, Init(tail));
    }
  }

  lemma {:induction false} OneEditDistance(s: string, t: string)
    requires OneEdit(s, t)
    ensures Distance(s, t) <= 1
  {
    if i: nat :| Inserts(s, t, i) {
      InsertDistance(s, t, i);
    } else if i: nat :| Inserts(t, s, i) {
      InsertDistance(t, s, i);
      DistanceSymmetric(s, t);
    } else {
      var i: nat :| Substitutes(s, t, i);
      var u, x, y, tail := s[..i], s[i], t[i], s[i + 1..];
      assert s == (u + [x]) + tail && t == (u + [y]) + tail;
      SharedTail(u + [x], u + [y], tail);
      DistanceZeroIffEqual(u, u);
      assert Init(u + [x]) == u && Init(u + [y]) == u;
    }
  }

  lemma {:induction false} InsertDistance(s: string, t: string, i: nat)
    requires Inserts(s, t, i)
    ensures Distance(s, t) <= 1
  {
    var u, tail := s[..i], s[i..];
    assert s == u + tail && t == (u + [t[i]]) + tail;
    SharedTail(u, u + [t[i]], tail);
    DistanceZeroIffEqual(u, u);
    assert Init(u + [t[i]]) == u;
  }

  /** No chain of edits is shorter than the distance. */
  lemma {:induction false} ChainAtLeastDistance(chain: seq<string>, a: string, b: string)
    requires EditChain(chain, a, b)
    ensures Distance(a, b) <= |chain| - 1
    decreases |chain|
  {
    if |chain| == 1 {
      DistanceZeroIffEqual(a, b);
    } else {
      var next := chain[1];
      ChainAtLeastDistance(chain[1..], next, b);
      OneEditDistance(a, next);
      DistanceTriangle(a, next, b);
    }
  }

  lemma InsertsExtended(s: string, t: string, x: char, i: nat)
    requires Inserts(s, t, i)
    ensures Inserts(s + [x], t + [x], i)
  {
    assert (s + [x])[..i] == s[..i] && (s + [x])[i..] == s[i..] + [x];
    assert (t + [x])[i] == t[i];
    assert t + [x] == s[..i] + [t[i]] + (s[i..] + [x]);
  }

  lemma ExtendByLast(s: string, t: string, x: char)
    requires OneEdit(s, t)
    ensures OneEdit(s + [x], t + [x])
  {
    if i: nat :| Inserts(s, t, i) {
      InsertsExtended(s, t, x, i);
    } else if i: nat :| Inserts(t, s, i) {
      InsertsExtended(t, s, x, i);
    } else {
      var i: nat :| Substitutes(s, t, i);
      assert t + [x] == (s + [x])[i := (t + [x])[i]];
      assert Substitutes(s + [x], t + [x], i);
    }
  }

  ghost function Extended(chain: seq<string>, x: char): seq<string> {
    seq(|chain|, k requires 0 <= k < |chain| => chain[k] + [x])
  }

  lemma ExtendedChain(chain: seq<string>, a: string, b: string, x: char)
    requires EditChain(chain, a, b)
    ensures EditChain(Extended(chain, x), a + [x], b + [x])
  {
    forall k | 0 <= k < |chain| - 1
      ensures OneEdit(Extended(chain, x)[k], Extended(chain, x)[k + 1])
    {
      ExtendByLast(chain[k], chain[k + 1], x);
    }
  }

  lemma DeleteFirst(chain: seq<string>, a: string, b: string)
    requires a != [] && EditChain(chain, Init(a), b)
    ensures EditChain([a] + chain, a, b)
  {
    assert Inserts(Init(a), a, |a| - 1);
    assert OneEdit(a, Init(a));
  }

  lemma EditLast(chain: seq<string>, a: string, mid: string, b: string)
    requires EditChain(chain, a, mid) && OneEdit(mid, b)
    ensures EditChain(chain + [b], a, b)
  {
  }

  predicate DeletesLast(a: string, b: string) { a != [] && Distance(a, b) == Distance(Init(a), b) + 1 }

  predicate InsertsLast(a: string, b: string) { b != [] && Distance(a, b) == Distance(a, Init(b)) + 1 }

  lemma SomeChoice(a: string, b: string)
    requires !DeletesLast(a, b) && !InsertsLast(a, b) && (a != [] || b != [])
    ensures a != [] && b != [] && Distance(a, b) == Distance(Init(a), Init(b)) + Mismatch(Last(a), Last(b))
  {
    if a != [] && b == [] {
      DistanceToEmpty(Init(a));
    }
  }

  lemma DistanceToEmpty(a: string)
    ensures Distance(a, []) == |a|
  {
  }

  lemma InsertLast(chain: seq<string>, a: string, b: string)
    requires b != [] && EditChain(chain, a, Init(b))
    ensures EditChain(chain + [b], a, b)
  {
    assert Inserts(Init(b), b, |b| - 1);
    EditLast(chain, a, Init(b), b);
  }

  /** Some chain of edits is exactly as long as the distance. */
  lemma {:induction false} ShortestChain(a: string, b: string) returns (chain: seq<string>)
    ensures EditChain(chain, a, b)
    ensures |chain| == Distance(a, b) + 1
    decreases |a| + |b|
  {
    if a == [] && b == [] {
      chain := [[]];
    } else if DeletesLast(a, b) {
      var rest := ShortestChain(Init(a), b);
      DeleteFirst(rest, a, b);
      chain := [a] + rest;
    } else if InsertsLast(a, b) {
      var rest := ShortestChain(a, Init(b));
      InsertLast(rest, a, b);
      chain := rest + [b];
    } else {
      SomeChoice(a, b);
      chain := ShortestDiagonal(a, b);
    }
  }

  lemma {:induction false} ShortestDiagonal(a: string, b: string) returns (chain: seq<string>)
    requires a != [] && b != []
    requires Distance(a, b) == Distance(Init(a), Init(b)) + Mismatch(Last(a), Last(b))
    ensures EditChain(chain, a, b)
    ensures |chain| == Distance(a, b) + 1
    decreases |a| + |b|, 0
  {
    var short := ShortestChain(Init(a), Init(b));
    assert a == Init(a) + [Last(a)] && b == Init(b) + [Last(b)];
    ExtendedChain(short, Init(a), Init(b), Last(a));
    chain := Extended(short, Last(a));
    if Last(a) != Last(b) {
      var mid := Init(b) + [Last(a)];
      assert Substitutes(mid, b, |b| - 1);
      EditLast(chain, a, mid, b);
      chain := chain + [b];
    }
  }

  // ---------- the two-row loop ----------

  /** Levenshtein distance between the ASCII-lowercased texts, by two rows swapped in place. */
  method EditDistance(a: string, b: string) returns (d: nat)
    ensures d == Distance(Lowered(a), Lowered(b))
    ensures exists chain :: EditChain(chain, Lowered(a), Lowered(b)) && |chain| == d + 1
    ensures forall chain :: EditChain(chain, Lowered(a), Lowered(b)) ==> d + 1 <= |chain|
  {
    d := TwoRows(Lowered(a), Lowered(b));
    var shortest := ShortestChain(Lowered(a), Lowered(b));
    forall chain | EditChain(chain, Lowered(a), Lowered(b))
      ensures d + 1 <= |chain|
    {
      ChainAtLeastDistance(chain, Lowered(a), Lowered(b));
    }
  }

  ghost predicate IsRow(row: seq<nat>, a: string, b: string) {
    && |row| <= |b| + 1
    && forall j :: 0 <= j < |row| ==> row[j] == Distance(a, b[..j])
  }

  method FillRow(prev: array<nat>, curr: array<nat>, a: string, b: string)
    requires prev != curr && prev.Length == curr.Length == |b| + 1
    requires a != [] && IsRow(prev[..], Init(a), b)
    modifies curr
    ensures IsRow(curr[..], a, b)
  {
    curr[0] := |a|;
    for j := 1 to |b| + 1
      invariant IsRow(prev[..], Init(a), b)
      invariant IsRow(curr[..j], a, b)
    {
      var cost := if a[|a| - 1] != b[j - 1] then 1 else 0;
      assert prev[..][j] == prev[j] && prev[..][j - 1] == prev[j - 1] && curr[..j][j - 1] == curr[j - 1];
      assert Init(b[..j]) == b[..j - 1];
      curr[j] := Min(Min(prev[j] + 1, curr[j - 1] + 1), prev[j - 1] + cost);
      assert curr[..j + 1] == curr[..j] + [curr[j]];
    }
    assert curr[..] == curr[..|b| + 1];
  }

  method TwoRows(a: string, b: string) returns (d: nat)
    ensures d == Distance(a, b)
  {
    if a == [] {
      return |b|;
    }
    if b == [] {
      return |a|;
    }
    var prev := new nat[|b| + 1](j => j);
    var curr := new nat[|b| + 1](_ => 0);
    for i := 1 to |a| + 1
      invariant fresh(prev) && fresh(curr) && prev != curr
      invariant prev.Length == curr.Length == |b| + 1
      invariant IsRow(prev[..], a[..i - 1], b)
    {
      assert Init(a[..i]) == a[..i - 1];
      FillRow(prev, curr, a[..i], b);
      prev, curr := curr, prev;
    }
    assert a[..|a|] == a && b[..|b|] == b && prev[..][|b|] == prev[|b|];
    d := prev[|b|];
  }

  /** The distance the loop computes is a metric on texts up to ASCII case. */
  lemma DistanceIsMetric(a: string, b: string, c: string)
    ensures Distance(Lowered(a), Lowered(b)) == 0 <==> Lowered(a) == Lowered(b)
    ensures Distance(Lowered(a), Lowered(b)) == Distance(Lowered(b), Lowered(a))
    ensures Distance(Lowered(a), Lowered(c)) <= Distance(Lowered(a), Lowered(b)) + Distance(Lowered(b), Lowered(c))
  {
    DistanceZeroIffEqual(Lowered(a), Lowered(b));
    DistanceSymmetric(Lowered(a), Lowered(b));
    DistanceTriangle(Lowered(a), Lowered(b), Lowered(c));
  }
}
