/** `ToolCatalog::embed_or_cached` of crates/graphnight-runtime/src/tools.rs: vectors of model documents
    are kept while the fingerprint of the text is unchanged. */
module EmbedCache {
  import opened Results

  type Vector = seq<real>

  type Cache = map<string, (nat, Vector)>

  type Fingerprint = string -> nat

  type Embedder = seq<string> -> Result<seq<Vector>, string>

  datatype EmbedError = EmbeddingFailed(message: string) | WrongCount(got: nat, expected: nat)

  /** One call: the model names, their texts, and how the embedder behaves this time. */
  datatype Call = Call(models: seq<string>, texts: seq<string>, embedder: Embedder)

  // Names and texts are walked in step, to the end of the shorter list.
  function Paired(call: Call): (n: nat)
    ensures n <= |call.models| && n <= |call.texts| && (n == |call.models| || n == |call.texts|)
  {
    if |call.models| <= |call.texts| then |call.models| else |call.texts|
  }

  predicate IsCurrent(fp: Fingerprint, cache: Cache, name: string, text: string) {
    name in cache && cache[name].0 == fp(text)
  }

  predicate SlotsWithin(call: Call, slots: seq<nat>) {
    forall k :: 0 <= k < |slots| ==> slots[k] < |call.models| && slots[k] < |call.texts|
  }

  /** The first `n` positions without a current cache entry, in order. */
  function Missing(fp: Fingerprint, cache: Cache, call: Call, n: nat): (r: seq<nat>)
    requires n <= Paired(call)
    ensures |r| <= n
    ensures forall k :: 0 <= k < |r| ==> r[k] < n
  {
    if n == 0 then []
    else Missing(fp, cache, call, n - 1)
         + (if IsCurrent(fp, cache, call.models[n - 1], call.texts[n - 1]) then [] else [n - 1])
  }

  function Batch(texts: seq<string>, slots: seq<nat>): (r: seq<string>)
    requires forall k :: 0 <= k < |slots| ==> slots[k] < |texts|
    ensures |r| == |slots|
  {
    seq(|slots|, k requires 0 <= k < |slots| => texts[slots[k]])
  }

  /** What is sent to the embedder; nothing is sent when nothing is missing. */
  function Sent(fp: Fingerprint, cache: Cache, call: Call): seq<string> {
    Batch(call.texts, Missing(fp, cache, call, Paired(call)))
  }

  function Fresh(fp: Fingerprint, cache: Cache, call: Call): Result<seq<Vector>, EmbedError> {
    var sent := Sent(fp, cache, call);
    if sent == [] then Ok([])
    else
      match call.embedder(sent)
      case Err(e) => Err(EmbeddingFailed(e))
      case Ok(vectors) => if |vectors| != |sent| then Err(WrongCount(|vectors|, |sent|)) else Ok(vectors)
  }

  /** The cache once the first `n` missing slots have their new vector. */
  function Written(fp: Fingerprint, cache: Cache, call: Call, slots: seq<nat>, vectors: seq<Vector>, n: nat): Cache
    requires n <= |slots| == |vectors|
    requires SlotsWithin(call, slots)
  {
    if n == 0 then cache
    else
      var slot := slots[n - 1];
      Written(fp, cache, call, slots, vectors, n - 1)[call.models[slot] := (fp(call.texts[slot]), vectors[n - 1])]
  }

  /** The cache after a call; a failed call changes nothing. */
  function After(fp: Fingerprint, cache: Cache, call: Call): Cache {
    match Fresh(fp, cache, call)
    case Err(_) => cache
    case Ok(vectors) =>
      var slots := Missing(fp, cache, call, Paired(call));
      Written(fp, cache, call, slots, vectors, |slots|)
  }

  /** The vector at position `i` of a successful answer. */
  function VectorAt(fp: Fingerprint, cache: Cache, call: Call, vectors: seq<Vector>, i: nat): Vector
    requires |vectors| == |Missing(fp, cache, call, Paired(call))|
  {
    if i >= Paired(call) then []
    else if IsCurrent(fp, cache, call.models[i], call.texts[i]) then cache[call.models[i]].1
    else
      MissingRank(fp, cache, call, i, Paired(call));
      vectors[|Missing(fp, cache, call, i)|]
  }

  lemma {:induction false} MissingRank(fp: Fingerprint, cache: Cache, call: Call, i: nat, n: nat)
    requires i < n <= Paired(call) && !IsCurrent(fp, cache, call.models[i], call.texts[i])
    ensures var k := |Missing(fp, cache, call, i)|;
      k < |Missing(fp, cache, call, n)| && Missing(fp, cache, call, n)[k] == i
    decreases n
  {
    if i < n - 1 {
      MissingRank(fp, cache, call, i, n - 1);
    }
  }

  ghost predicate Increasing(slots: seq<nat>) {
    forall j, k :: 0 <= j < k < |slots| ==> slots[j] < slots[k]
  }

  lemma {:induction false} MissingIncreases(fp: Fingerprint, cache: Cache, call: Call, n: nat)
    requires n <= Paired(call)
    ensures Increasing(Missing(fp, cache, call, n))
  {
    if n > 0 {
      MissingIncreases(fp, cache, call, n - 1);
    }
  }

  lemma {:induction false} MissingOnly(fp: Fingerprint, cache: Cache, call: Call, i: nat, n: nat)
    requires i < n <= Paired(call)
    ensures i in Missing(fp, cache, call, n) <==> !IsCurrent(fp, cache, call.models[i], call.texts[i])
    decreases n
  {
    if i < n - 1 {
      MissingOnly(fp, cache, call, i, n - 1);
    } else {
      assert i !in Missing(fp, cache, call, n - 1);
    }
  }

  class ToolCatalog {
    const fp: Fingerprint
    var embedCache: Cache

    constructor (fp: Fingerprint)
      ensures this.fp == fp && embedCache == map[]
    {
      this.fp := fp;
      this.embedCache := map[];
    }

    /** What the cache has already, and the positions it cannot answer. */
    method ReadCache(call: Call) returns (out: seq<Option<Vector>>, missing: seq<nat>)
      ensures missing == Missing(fp, embedCache, call, Paired(call))
      ensures |out| == |call.texts|
      ensures forall i :: 0 <= i < |out| ==> out[i] == CachedAt(fp, embedCache, call, i)
    {
      out := seq(|call.texts|, _ => None);
      missing := [];
      for i := 0 to Paired(call)
        invariant missing == Missing(fp, embedCache, call, i)
        invariant |out| == |call.texts|
        invariant forall j :: 0 <= j < i ==> out[j] == CachedAt(fp, embedCache, call, j)
        invariant forall j :: i <= j < |out| ==> out[j].None?
      {
        if call.models[i] in embedCache && embedCache[call.models[i]].0 == fp(call.texts[i]) {
          out := out[i := Some(embedCache[call.models[i]].1)];
        } else {
          missing := missing + [i];
        }
      }
    }

    /** Puts the new vectors into their slots and into the cache. */
    method WriteCache(call: Call, cached: seq<Option<Vector>>, missing: seq<nat>, vectors: seq<Vector>)
      returns (out: seq<Option<Vector>>)
      requires |missing| == |vectors| && SlotsWithin(call, missing) && |cached| == |call.texts|
      requires Increasing(missing)
      modifies this
      ensures embedCache == Written(fp, old(embedCache), call, missing, vectors, |missing|)
      ensures |out| == |cached|
      ensures forall k :: 0 <= k < |missing| ==> out[missing[k]] == Some(vectors[k])
      ensures forall i :: 0 <= i < |out| && i !in missing ==> out[i] == cached[i]
    {
      out := cached;
      for k := 0 to |missing|
        invariant embedCache == Written(fp, old(embedCache), call, missing, vectors, k)
        invariant |out| == |cached|
        invariant forall j :: 0 <= j < k ==> out[missing[j]] == Some(vectors[j])
        invariant forall i :: 0 <= i < |out| && i !in missing ==> out[i] == cached[i]
      {
        var slot := missing[k];
        out := out[slot := Some(vectors[k])];
        embedCache := embedCache[call.models[slot] := (fp(call.texts[slot]), vectors[k])];
      }
    }

    /** Embeds the texts, asking the embedder only for those without a current cache entry. */
    method EmbedOrCached(call: Call) returns (r: Result<seq<Vector>, EmbedError>, sent: seq<string>)
      modifies this
      ensures sent == Sent(fp, old(embedCache), call)
      ensures embedCache == After(fp, old(embedCache), call)
      ensures Answers(fp, old(embedCache), call, r)
      ensures r.Err? ==> embedCache == old(embedCache)
      ensures Explained(call, sent, r)
      ensures r.Ok? ==> forall i :: |call.models| <= i < |call.texts| ==> r.value[i] == []
    {
      ghost var before := embedCache;
      var out, missing := ReadCache(call);
      sent := Batch(call.texts, missing);
      MissingIncreases(fp, before, call, Paired(call));
      var vectors: seq<Vector> := [];
      if missing != [] {
        match call.embedder(sent) {
          case Err(e) => return Err(EmbeddingFailed(e)), sent;
          case Ok(answer) => vectors := answer;
        }
        if |vectors| != |missing| {
          return Err(WrongCount(|vectors|, |missing|)), sent;
        }
        out := WriteCache(call, out, missing, vectors);
      }
      SlotsAnswer(fp, before, call, vectors, out);
      r := Ok(Filled(out));
    }
  }

  /** The embedder is asked only for what is missing, and only its failure or a wrong count fails the call. */
  predicate Explained(call: Call, sent: seq<string>, r: Result<seq<Vector>, EmbedError>) {
    if sent == [] then r.Ok?
    else
      match call.embedder(sent)
      case Err(e) => r == Err(EmbeddingFailed(e))
      case Ok(vectors) => if |vectors| == |sent| then r.Ok? else r == Err(WrongCount(|vectors|, |sent|))
  }

  function Filled(out: seq<Option<Vector>>): (r: seq<Vector>)
    ensures |r| == |out|
    ensures forall i :: 0 <= i < |out| ==> r[i] == OrDefault(out[i])
  {
    seq(|out|, i requires 0 <= i < |out| => OrDefault(out[i]))
  }

  function OrDefault(slot: Option<Vector>): Vector {
    if slot.Some? then slot.value else []
  }

  ghost predicate Answers(fp: Fingerprint, cache: Cache, call: Call, r: Result<seq<Vector>, EmbedError>) {
    match Fresh(fp, cache, call)
    case Err(e) => r == Err(e)
    case Ok(vectors) =>
      && r.Ok? && |r.value| == |call.texts|
      && forall i :: 0 <= i < |call.texts| ==> r.value[i] == VectorAt(fp, cache, call, vectors, i)
  }

  lemma SlotsAnswer(fp: Fingerprint, cache: Cache, call: Call, vectors: seq<Vector>, out: seq<Option<Vector>>)
    requires |out| == |call.texts| && Fresh(fp, cache, call) == Ok(vectors)
    requires var missing := Missing(fp, cache, call, Paired(call));
      && |vectors| == |missing|
      && (forall k :: 0 <= k < |missing| ==> out[missing[k]] == Some(vectors[k]))
      && (forall i :: 0 <= i < |out| && i !in missing ==> out[i] == CachedAt(fp, cache, call, i))
    ensures Answers(fp, cache, call, Ok(Filled(out)))
    ensures forall i :: |call.models| <= i < |call.texts| ==> Filled(out)[i] == []
  {
    forall i | 0 <= i < |out| ensures OrDefault(out[i]) == VectorAt(fp, cache, call, vectors, i) {
      if i < Paired(call) {
        MissingOnly(fp, cache, call, i, Paired(call));
        if !IsCurrent(fp, cache, call.models[i], call.texts[i]) {
          MissingRank(fp, cache, call, i, Paired(call));
        }
      }
    }
  }

  function CachedAt(fp: Fingerprint, cache: Cache, call: Call, i: nat): Option<Vector> {
    if i < Paired(call) && IsCurrent(fp, cache, call.models[i], call.texts[i]) then Some(cache[call.models[i]].1)
    else None
  }

  // ---------- the cache never shows ----------

  /** Every entry is the direct embedding of some text seen before, under that text's fingerprint. */
  ghost predicate Coherent(fp: Fingerprint, cache: Cache, embed: string -> Vector, seen: set<string>) {
    forall name {:trigger EntryCoherent(fp, cache, embed, seen, name)} :: name in cache ==>
      EntryCoherent(fp, cache, embed, seen, name)
  }

  ghost predicate EntryCoherent(fp: Fingerprint, cache: Cache, embed: string -> Vector, seen: set<string>, name: string)
    requires name in cache
  {
    exists text :: text in seen && cache[name] == (fp(text), embed(text))
  }

  /** Whenever the embedder answers with as many vectors as it got texts, they are the direct embeddings. */
  ghost predicate Deterministic(embedder: Embedder, embed: string -> Vector) {
    forall batch :: embedder(batch).Ok? && |embedder(batch).value| == |batch| ==>
      forall i :: 0 <= i < |batch| ==> embedder(batch).value[i] == embed(batch[i])
  }

  ghost predicate InjectiveOn(fp: Fingerprint, texts: set<string>) {
    forall s, t :: s in texts && t in texts && fp(s) == fp(t) ==> s == t
  }

  function TextsOf(call: Call): set<string> {
    set text | text in call.texts
  }

  lemma FreshAreDirect(fp: Fingerprint, cache: Cache, call: Call, embed: string -> Vector)
    requires Deterministic(call.embedder, embed) && Fresh(fp, cache, call).Ok?
    ensures var slots := Missing(fp, cache, call, Paired(call));
      forall k :: 0 <= k < |slots| ==> Fresh(fp, cache, call).value[k] == embed(call.texts[slots[k]])
  {
    var sent := Sent(fp, cache, call);
    if sent != [] {
      var vectors := Fresh(fp, cache, call).value;
      forall k | 0 <= k < |sent| ensures vectors[k] == embed(sent[k]) {
      }
    }
  }

  /** A successful answer is the direct embedding of every text. */
  lemma AnswersDirectly(fp: Fingerprint, cache: Cache, call: Call, embed: string -> Vector, seen: set<string>, i: nat)
    requires Coherent(fp, cache, embed, seen) && InjectiveOn(fp, seen + TextsOf(call))
    requires Deterministic(call.embedder, embed) && Fresh(fp, cache, call).Ok? && i < Paired(call)
    ensures VectorAt(fp, cache, call, Fresh(fp, cache, call).value, i) == embed(call.texts[i])
  {
    if IsCurrent(fp, cache, call.models[i], call.texts[i]) {
      assert EntryCoherent(fp, cache, embed, seen, call.models[i]);
      assert call.texts[i] in TextsOf(call);
    } else {
      FreshAreDirect(fp, cache, call, embed);
      MissingRank(fp, cache, call, i, Paired(call));
    }
  }

  lemma {:induction false} WrittenKeepsCoherent(fp: Fingerprint, cache: Cache, call: Call, slots: seq<nat>,
                                                vectors: seq<Vector>, n: nat,
                                                embed: string -> Vector, seen: set<string>)
    requires n <= |slots| == |vectors| && SlotsWithin(call, slots)
    requires forall k :: 0 <= k < |slots| ==> vectors[k] == embed(call.texts[slots[k]])
    requires Coherent(fp, cache, embed, seen)
    ensures Coherent(fp, Written(fp, cache, call, slots, vectors, n), embed, seen + TextsOf(call))
  {
    var written := Written(fp, cache, call, slots, vectors, n);
    if n == 0 {
      forall name | name in cache ensures EntryCoherent(fp, cache, embed, seen + TextsOf(call), name) {
        assert EntryCoherent(fp, cache, embed, seen, name);
      }
    } else {
      var before := Written(fp, cache, call, slots, vectors, n - 1);
      WrittenKeepsCoherent(fp, cache, call, slots, vectors, n - 1, embed, seen);
      var text := call.texts[slots[n - 1]];
      assert text in seen + TextsOf(call);
      forall name | name in written ensures EntryCoherent(fp, written, embed, seen + TextsOf(call), name) {
        if name != call.models[slots[n - 1]] {
          assert EntryCoherent(fp, before, embed, seen + TextsOf(call), name);
        }
      }
    }
  }

  lemma CallKeepsCoherent(fp: Fingerprint, cache: Cache, call: Call, embed: string -> Vector, seen: set<string>)
    requires Coherent(fp, cache, embed, seen) && Deterministic(call.embedder, embed)
    ensures Coherent(fp, After(fp, cache, call), embed, seen + TextsOf(call))
  {
    if Fresh(fp, cache, call).Ok? {
      var slots := Missing(fp, cache, call, Paired(call));
      FreshAreDirect(fp, cache, call, embed);
      WrittenKeepsCoherent(fp, cache, call, slots, Fresh(fp, cache, call).value, |slots|, embed, seen);
    } else {
      forall name | name in cache ensures EntryCoherent(fp, cache, embed, seen + TextsOf(call), name) {
        assert EntryCoherent(fp, cache, embed, seen, name);
      }
    }
  }

  // ---------- any history of calls ----------

  function AfterAll(fp: Fingerprint, history: seq<Call>): Cache {
    if history == [] then map[] else After(fp, AfterAll(fp, history[..|history| - 1]), history[|history| - 1])
  }

  function Seen(history: seq<Call>): set<string> {
    if history == [] then {} else Seen(history[..|history| - 1]) + TextsOf(history[|history| - 1])
  }

  lemma {:induction false} HistoryIsCoherent(fp: Fingerprint, history: seq<Call>, embed: string -> Vector)
    requires forall k :: 0 <= k < |history| ==> Deterministic(history[k].embedder, embed)
    ensures Coherent(fp, AfterAll(fp, history), embed, Seen(history))
  {
    if history != [] {
      var n := |history| - 1;
      HistoryIsCoherent(fp, history[..n], embed);
      CallKeepsCoherent(fp, AfterAll(fp, history[..n]), history[n], embed, Seen(history[..n]));
    }
  }

  /** Whatever was asked before, and whichever calls failed, a successful call answers with the direct
      embedding of each text, and has sent exactly the texts without a current entry. */
  lemma CacheNeverShows(fp: Fingerprint, history: seq<Call>, call: Call, embed: string -> Vector, i: nat)
    requires forall k :: 0 <= k < |history| ==> Deterministic(history[k].embedder, embed)
    requires Deterministic(call.embedder, embed)
    requires InjectiveOn(fp, Seen(history) + TextsOf(call))
    requires Fresh(fp, AfterAll(fp, history), call).Ok? && i < Paired(call)
    ensures var cache := AfterAll(fp, history);
      VectorAt(fp, cache, call, Fresh(fp, cache, call).value, i) == embed(call.texts[i])
      && (i in Missing(fp, cache, call, Paired(call)) <==> !IsCurrent(fp, cache, call.models[i], call.texts[i]))
  {
    HistoryIsCoherent(fp, history, embed);
    AnswersDirectly(fp, AfterAll(fp, history), call, embed, Seen(history), i);
    MissingOnly(fp, AfterAll(fp, history), call, i, Paired(call));
  }

  // ---------- asking again costs nothing ----------

  ghost predicate DistinctModels(call: Call) {
    forall i, j :: 0 <= i < j < |call.models| ==> call.models[i] != call.models[j]
  }

  lemma {:induction false} WrittenHolds(fp: Fingerprint, cache: Cache, call: Call, slots: seq<nat>,
                                        vectors: seq<Vector>, n: nat, i: nat)
    requires n <= |slots| == |vectors| && SlotsWithin(call, slots)
    requires DistinctModels(call) && i < Paired(call)
    requires IsCurrent(fp, cache, call.models[i], call.texts[i]) || i in slots[..n]
    ensures IsCurrent(fp, Written(fp, cache, call, slots, vectors, n), call.models[i], call.texts[i])
  {
    if n > 0 && slots[n - 1] != i {
      assert slots[..n] == slots[..n - 1] + [slots[n - 1]];
      WrittenHolds(fp, cache, call, slots, vectors, n - 1, i);
    }
  }

  lemma {:induction false} NothingMissing(fp: Fingerprint, cache: Cache, call: Call, n: nat)
    requires n <= Paired(call)
    requires forall i :: 0 <= i < n ==> IsCurrent(fp, cache, call.models[i], call.texts[i])
    ensures Missing(fp, cache, call, n) == []
  {
    if n > 0 {
      NothingMissing(fp, cache, call, n - 1);
    }
  }

  /** After a successful call with distinct models, the same question sends nothing to the embedder. */
  lemma AskingAgainSendsNothing(fp: Fingerprint, cache: Cache, call: Call)
    requires DistinctModels(call) && Fresh(fp, cache, call).Ok?
    ensures Sent(fp, After(fp, cache, call), call) == []
  {
    var slots := Missing(fp, cache, call, Paired(call));
    forall i | 0 <= i < Paired(call)
      ensures IsCurrent(fp, After(fp, cache, call), call.models[i], call.texts[i])
    {
      MissingOnly(fp, cache, call, i, Paired(call));
      assert slots[..|slots|] == slots;
      WrittenHolds(fp, cache, call, slots, Fresh(fp, cache, call).value, |slots|, i);
    }
    NothingMissing(fp, After(fp, cache, call), call, Paired(call));
  }
}
