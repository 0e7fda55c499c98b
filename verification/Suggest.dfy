/** Did-you-mean suggestions: `closest_matches` of crates/graphnight-runtime/src/suggest.rs. */
module Suggest {
  import opened EditDistance
  import opened Numbers
  import opened Sorting

  // Thresholds use byte lengths (UTF-8), distances use characters.
  function Utf8Bytes(c: char): nat {
    if c as int < 0x80 then 1 else if c as int < 0x800 then 2 else if c as int < 0x10000 then 3 else 4
  }

  function Utf8Length(s: string): nat {
    if s == [] then 0 else Utf8Bytes(s[0]) + Utf8Length(s[1..])
  }

  predicate OccursAt(hay: string, needle: string, i: nat) {
    i + |needle| <= |hay| && hay[i..i + |needle|] == needle
  }

  predicate Contains(hay: string, needle: string) {
    exists i | 0 <= i <= |hay| :: OccursAt(hay, needle, i)
  }

  predicate Accepts(field: string, name: string) {
    || Distance(Lowered(field), Lowered(name)) <= Max(Max(Utf8Length(field), Utf8Length(name)) / 2, 1)
    || Contains(Lowered(name), Lowered(field))
    || Contains(Lowered(field), Lowered(name))
  }

  /** So many edits are few for two names: one, or at most half the bytes of either. */
  predicate FewEdits(n: nat, field: string, name: string) {
    n <= 1 || 2 * n <= Utf8Length(field) || 2 * n <= Utf8Length(name)
  }

  ghost predicate OccursIn(part: string, whole: string) {
    exists before, after :: whole == before + part + after
  }

  ghost predicate NearMiss(field: string, name: string) {
    exists chain :: EditChain(chain, Lowered(field), Lowered(name)) && FewEdits(|chain| - 1, field, name)
  }

  lemma ContainsIff(hay: string, needle: string)
    ensures Contains(hay, needle) <==> OccursIn(needle, hay)
  {
    if Contains(hay, needle) {
      var i :| 0 <= i <= |hay| && OccursAt(hay, needle, i);
      assert hay == hay[..i] + needle + hay[i + |needle|..];
    }
    if before, after :| hay == before + needle + after {
      assert OccursAt(hay, needle, |before|);
    }
  }

  /** Up to case, a name is accepted exactly when a few edits lead from the field to it, or one of the two occurs
      in the other. */
  lemma AcceptsIff(field: string, name: string)
    ensures Accepts(field, name) <==>
      NearMiss(field, name) || OccursIn(Lowered(field), Lowered(name)) || OccursIn(Lowered(name), Lowered(field))
  {
    var a, b := Lowered(field), Lowered(name);
    ContainsIff(b, a);
    ContainsIff(a, b);
    var shortest := ShortestChain(a, b);
    if chain :| EditChain(chain, a, b) && FewEdits(|chain| - 1, field, name) {
      ChainAtLeastDistance(chain, a, b);
    }
  }

  /** How many code points `n` bytes of UTF-8 reach (section 3 of RFC 3629): seven bits for one byte, else the
      bits the first byte leaves and six for each byte more. */
  function Reach(n: nat): nat
    requires 1 <= n <= 4
  {
    match n
    case 1 => 128
    case 2 => 32 * 64
    case 3 => 16 * 64 * 64
    case 4 => 8 * 64 * 64 * 64
  }

  /** A character takes as many bytes as it needs, and no more. */
  lemma Utf8BytesAreLeast(c: char, n: nat)
    requires 1 <= n <= 4
    ensures 1 <= Utf8Bytes(c) <= 4
    ensures Utf8Bytes(c) <= n <==> (c as int) < Reach(n)
  {
  }

  /** Only ASCII characters are one byte. */
  lemma {:induction false} Utf8LengthBounds(s: string)
    ensures |s| <= Utf8Length(s) <= 4 * |s|
    ensures Utf8Length(s) == |s| <==> forall i :: 0 <= i < |s| ==> s[i] as int < 0x80
  {
    if s != [] {
      Utf8LengthBounds(s[1..]);
      assert (forall i :: 0 <= i < |s| ==> s[i] as int < 0x80) <==>
        s[0] as int < 0x80 && forall i :: 0 <= i < |s[1..]| ==> s[1..][i] as int < 0x80 by {
        assert forall i :: 1 <= i < |s| ==> s[i] == s[1..][i - 1];
      }
    }
  }

  function Accepted(field: string, known: seq<string>): (r: seq<string>)
    ensures forall k :: k in r <==> k in known && Accepts(field, k)
  {
    if known == [] then []
    else (if Accepts(field, known[0]) then [known[0]] else []) + Accepted(field, known[1..])
  }

  predicate NameLeq(a: string, b: string) {
    a == [] || (b != [] && (a[0] < b[0] || (a[0] == b[0] && NameLeq(a[1..], b[1..]))))
  }

  // Distance first, then the name.
  predicate Closer(field: string, a: string, b: string) {
    var da, db := Distance(Lowered(field), Lowered(a)), Distance(Lowered(field), Lowered(b));
    da < db || (da == db && NameLeq(a, b))
  }

  function ClosestMatches(field: string, known: seq<string>, limit: nat): seq<string> {
    var scored := SortBy(Accepted(field, known), (a, b) => Closer(field, a, b));
    if |scored| <= limit then scored else scored[..limit]
  }

  lemma {:induction false} NameLeqTotal(a: string, b: string)
    ensures NameLeq(a, b) || NameLeq(b, a)
  {
    if a != [] && b != [] && a[0] == b[0] {
      NameLeqTotal(a[1..], b[1..]);
    }
  }

  lemma {:induction false} NameLeqTransitive(a: string, b: string, c: string)
    requires NameLeq(a, b) && NameLeq(b, c)
    ensures NameLeq(a, c)
  {
    if a != [] && a[0] == b[0] == c[0] {
      NameLeqTransitive(a[1..], b[1..], c[1..]);
    }
  }

  lemma CloserIsTotalPreorder(field: string)
    ensures TotalPreorder((a: string, b: string) => Closer(field, a, b))
  {
    forall a: string, b: string ensures Closer(field, a, b) || Closer(field, b, a) {
      NameLeqTotal(a, b);
    }
    forall a: string, b: string, c: string | Closer(field, a, b) && Closer(field, b, c)
      ensures Closer(field, a, c)
    {
      if NameLeq(a, b) && NameLeq(b, c) {
        NameLeqTransitive(a, b, c);
      }
    }
  }

  /** `a` is a beginning of `b`, or smaller where they first differ. */
  ghost predicate Alphabetical(a: string, b: string) {
    exists k :: AlphabeticalAt(a, b, k)
  }

  ghost predicate AlphabeticalAt(a: string, b: string, k: int) {
    0 <= k <= |a| && k <= |b| && a[..k] == b[..k] && (k == |a| || (k < |b| && a[k] < b[k]))
  }

  lemma {:induction false} NameLeqIff(a: string, b: string)
    ensures NameLeq(a, b) <==> Alphabetical(a, b)
  {
    if a == [] {
      assert AlphabeticalAt(a, b, 0);
    } else if b != [] {
      NameLeqIff(a[1..], b[1..]);
      if a[0] < b[0] {
        assert AlphabeticalAt(a, b, 0);
      }
      if k :| AlphabeticalAt(a[1..], b[1..], k) && a[0] == b[0] {
        assert a[..k + 1] == [a[0]] + a[1..][..k] && b[..k + 1] == [b[0]] + b[1..][..k];
        assert AlphabeticalAt(a, b, k + 1);
      }
      if k :| AlphabeticalAt(a, b, k) && k > 0 {
        TailIsAlphabetical(a, b, k);
      }
    }
  }

  lemma TailIsAlphabetical(a: string, b: string, k: nat)
    requires AlphabeticalAt(a, b, k) && k > 0
    ensures a[0] == b[0] && AlphabeticalAt(a[1..], b[1..], k - 1)
  {
    assert a[0] == a[..k][0] && b[0] == b[..k][0];
    assert a[1..][..k - 1] == a[..k][1..] && b[1..][..k - 1] == b[..k][1..];
  }

  /** Nearer to the field, or as near and not later in the alphabet. */
  ghost predicate ComesFirst(field: string, a: string, b: string) {
    var da, db := Distance(Lowered(field), Lowered(a)), Distance(Lowered(field), Lowered(b));
    da <= db && (da == db ==> Alphabetical(a, b))
  }

  lemma CloserIff(field: string, a: string, b: string)
    ensures Closer(field, a, b) <==> ComesFirst(field, a, b)
  {
    NameLeqIff(a, b);
  }

  /** The suggestions are the best `limit` accepted names: as many as there are, best first, and every
      accepted name left out is no better than any name returned. */
  lemma ClosestMatchesAreBest(field: string, known: seq<string>, limit: nat)
    ensures var r := ClosestMatches(field, known, limit);
      var accepted := Accepted(field, known);
      && |r| == Min(limit, |accepted|)
      && multiset(r) <= multiset(accepted)
      && (forall i, j :: 0 <= i < j < |r| ==> ComesFirst(field, r[i], r[j]))
      && (forall i, k :: 0 <= i < |r| && k in multiset(accepted) - multiset(r) ==> ComesFirst(field, r[i], k))
  {
    var leq := (a, b) => Closer(field, a, b);
    CloserIsTotalPreorder(field);
    SortByCorrect(Accepted(field, known), leq);
    PrefixIsBest(Accepted(field, known), leq, Min(limit, |Accepted(field, known)|));
    var r := ClosestMatches(field, known, limit);
    assert r == SortBy(Accepted(field, known), leq)[..Min(limit, |Accepted(field, known)|)];
    forall a, b | leq(a, b) ensures ComesFirst(field, a, b) {
      CloserIff(field, a, b);
    }
  }

  // ---------- the order of the known names ----------

  lemma {:induction false} NameLeqAntisymmetric(a: string, b: string)
    requires NameLeq(a, b) && NameLeq(b, a)
    ensures a == b
  {
    if a != [] {
      NameLeqAntisymmetric(a[1..], b[1..]);
      assert a == [a[0]] + a[1..] && b == [b[0]] + b[1..];
    }
  }

  lemma CloserIsAntisymmetric(field: string)
    ensures Antisymmetric((a: string, b: string) => Closer(field, a, b))
  {
    forall a: string, b: string | Closer(field, a, b) && Closer(field, b, a) ensures a == b {
      NameLeqAntisymmetric(a, b);
    }
  }

  lemma {:induction false} AcceptedCounts(field: string, known: seq<string>, name: string)
    ensures multiset(Accepted(field, known))[name] == if Accepts(field, name) then multiset(known)[name] else 0
  {
    if known != [] {
      AcceptedCounts(field, known[1..], name);
      assert known == [known[0]] + known[1..];
    }
  }

  /** The suggestions do not depend on the order in which the known names are listed. */
  lemma ClosestMatchesIgnoreOrder(field: string, known: seq<string>, other: seq<string>, limit: nat)
    requires multiset(known) == multiset(other)
    ensures ClosestMatches(field, known, limit) == ClosestMatches(field, other, limit)
  {
    var leq := (a, b) => Closer(field, a, b);
    forall name ensures multiset(Accepted(field, known))[name] == multiset(Accepted(field, other))[name] {
      AcceptedCounts(field, known, name);
      AcceptedCounts(field, other, name);
    }
    CloserIsTotalPreorder(field);
    CloserIsAntisymmetric(field);
    SortByCorrect(Accepted(field, known), leq);
    SortByCorrect(Accepted(field, other), leq);
    SortedIsUnique(SortBy(Accepted(field, known), leq), SortBy(Accepted(field, other), leq), leq);
  }
}
