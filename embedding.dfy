/**
 * The in-memory embedding cache of src/services/embedding_service.py: a memo table keyed
 * by a fingerprint of the text, in front of a sentence-transformer model that is loaded
 * the first time it is needed.
 */
module Embedding {
  import opened Wrappers

  type Vector = seq<real>

  /** The cache key: the first 12 hex digits of the text's md5, an opaque function here. */
  type Key = string

  /** One call into the model, as the cache observes it. */
  datatype ModelCall = Single(text: string) | Batch(texts: seq<string>)

  /**
   * The positions of `texts`, in order, whose key is not in `cache`: the
   * `uncached_indices` of `embed_batch`. Duplicated texts that miss are all listed.
   */
  function MissIndices(cache: map<Key, Vector>, key: string -> Key, texts: seq<string>): seq<nat>
    decreases |texts|
  {
    if texts == [] then []
    else
      var n := |texts| - 1;
      MissIndices(cache, key, texts[..n]) + (if key(texts[n]) in cache then [] else [n])
  }

  /** The texts at the missing positions, in order: the `uncached_texts` of `embed_batch`. */
  function Misses(cache: map<Key, Vector>, key: string -> Key, texts: seq<string>): seq<string>
    decreases |texts|
  {
    if texts == [] then []
    else
      var n := |texts| - 1;
      Misses(cache, key, texts[..n]) + (if key(texts[n]) in cache then [] else [texts[n]])
  }

  /** The cache after writing `vectors[j]` under the key of `texts[j]`, for each `j` in order. */
  function Store(cache: map<Key, Vector>, key: string -> Key, texts: seq<string>, vectors: seq<Vector>): map<Key, Vector>
    requires |texts| == |vectors|
    decreases |texts|
  {
    if texts == [] then cache
    else
      var n := |texts| - 1;
      Store(cache, key, texts[..n], vectors[..n])[key(texts[n]) := vectors[n]]
  }

  /**
   * The missing positions are exactly the positions whose key is not cached, listed in
   * increasing order, and `Misses` holds the text of each of them.
   */
  lemma MissIndicesMeaning(cache: map<Key, Vector>, key: string -> Key, texts: seq<string>)
    ensures var mi := MissIndices(cache, key, texts);
            |Misses(cache, key, texts)| == |mi| &&
            (forall j :: 0 <= j < |mi| ==> mi[j] < |texts| && key(texts[mi[j]]) !in cache) &&
            (forall j :: 0 <= j < |mi| ==> Misses(cache, key, texts)[j] == texts[mi[j]]) &&
            (forall j, k :: 0 <= j < k < |mi| ==> mi[j] < mi[k]) &&
            (forall i :: 0 <= i < |texts| && key(texts[i]) !in cache ==> i in mi)
  {
    MissPositions(cache, key, texts);
    MissTexts(cache, key, texts);
  }

  /** The missing positions are the uncached ones, in increasing order. */
  lemma MissPositions(cache: map<Key, Vector>, key: string -> Key, texts: seq<string>)
    ensures var mi := MissIndices(cache, key, texts);
            (forall j :: 0 <= j < |mi| ==> mi[j] < |texts| && key(texts[mi[j]]) !in cache) &&
            (forall j, k :: 0 <= j < k < |mi| ==> mi[j] < mi[k]) &&
            (forall i :: 0 <= i < |texts| && key(texts[i]) !in cache ==> i in mi)
  {
    MissUncached(cache, key, texts);
    MissIncreasing(cache, key, texts);
    MissComplete(cache, key, texts);
  }

  /** Every missing position is a position of `texts` whose key is not cached. */
  lemma {:induction false} MissUncached(cache: map<Key, Vector>, key: string -> Key, texts: seq<string>)
    ensures forall j :: 0 <= j < |MissIndices(cache, key, texts)| ==>
              MissIndices(cache, key, texts)[j] < |texts| && key(texts[MissIndices(cache, key, texts)[j]]) !in cache
    decreases |texts|
  {
    if texts != [] {
      var n := |texts| - 1;
      var prefix := texts[..n];
      MissUncached(cache, key, prefix);
      var pi := MissIndices(cache, key, prefix);
      var mi := MissIndices(cache, key, texts);
      assert mi == pi + (if key(texts[n]) in cache then [] else [n]);
      forall j | 0 <= j < |mi|
        ensures mi[j] < |texts| && key(texts[mi[j]]) !in cache
      {
        if j < |pi| {
          assert mi[j] == pi[j] && texts[pi[j]] == prefix[pi[j]];
        }
      }
    }
  }

  /** The missing positions are listed in increasing order. */
  lemma {:induction false} MissIncreasing(cache: map<Key, Vector>, key: string -> Key, texts: seq<string>)
    ensures forall j, k :: 0 <= j < k < |MissIndices(cache, key, texts)| ==>
              MissIndices(cache, key, texts)[j] < MissIndices(cache, key, texts)[k]
    decreases |texts|
  {
    if texts != [] {
      var n := |texts| - 1;
      var prefix := texts[..n];
      MissIncreasing(cache, key, prefix);
      MissUncached(cache, key, prefix);
      var pi := MissIndices(cache, key, prefix);
      var mi := MissIndices(cache, key, texts);
      assert mi == pi + (if key(texts[n]) in cache then [] else [n]);
      forall j, k | 0 <= j < k < |mi|
        ensures mi[j] < mi[k]
      {
        assert mi[j] == pi[j];
        if k < |pi| {
          assert mi[k] == pi[k];
        }
      }
    }
  }

  /** Every position whose key is not cached is listed. */
  lemma {:induction false} MissComplete(cache: map<Key, Vector>, key: string -> Key, texts: seq<string>)
    ensures forall i :: 0 <= i < |texts| && key(texts[i]) !in cache ==> i in MissIndices(cache, key, texts)
    decreases |texts|
  {
    if texts != [] {
      var n := |texts| - 1;
      var prefix := texts[..n];
      MissComplete(cache, key, prefix);
      var pi := MissIndices(cache, key, prefix);
      var mi := MissIndices(cache, key, texts);
      assert mi == pi + (if key(texts[n]) in cache then [] else [n]);
      forall i | 0 <= i < |texts| && key(texts[i]) !in cache
        ensures i in mi
      {
        if i < n {
          assert prefix[i] == texts[i];
          assert i in pi;
        } else {
          assert mi[|mi| - 1] == n;
        }
      }
    }
  }

  /** `Misses` lists the text at each missing position. */
  lemma {:induction false} MissTexts(cache: map<Key, Vector>, key: string -> Key, texts: seq<string>)
    ensures |Misses(cache, key, texts)| == |MissIndices(cache, key, texts)|
    ensures forall j :: 0 <= j < |MissIndices(cache, key, texts)| ==>
              MissIndices(cache, key, texts)[j] < |texts| &&
              Misses(cache, key, texts)[j] == texts[MissIndices(cache, key, texts)[j]]
    decreases |texts|
  {
    if texts != [] {
      var n := |texts| - 1;
      var prefix := texts[..n];
      MissTexts(cache, key, prefix);
      assert forall i :: 0 <= i < n ==> prefix[i] == texts[i];
      if key(texts[n]) !in cache {
        assert MissIndices(cache, key, texts) == MissIndices(cache, key, prefix) + [n];
        assert Misses(cache, key, texts) == Misses(cache, key, prefix) + [texts[n]];
      } else {
        assert MissIndices(cache, key, texts) == MissIndices(cache, key, prefix);
      }
    }
  }

  /** The two lists of a batch's misses run in step, and every listed position is a position of `texts`. */
  lemma MissBounds(cache: map<Key, Vector>, key: string -> Key, texts: seq<string>)
    ensures var mi := MissIndices(cache, key, texts);
            |Misses(cache, key, texts)| == |mi| && forall j :: 0 <= j < |mi| ==> mi[j] < |texts|
  {
    MissIndicesMeaning(cache, key, texts);
  }

  /** A batch reaches the model exactly when some text's key is not cached. */
  lemma MissesEmptyIffAllCached(cache: map<Key, Vector>, key: string -> Key, texts: seq<string>)
    ensures Misses(cache, key, texts) == [] <==> forall i :: 0 <= i < |texts| ==> key(texts[i]) in cache
  {
    MissIndicesMeaning(cache, key, texts);
    var mi := MissIndices(cache, key, texts);
    if Misses(cache, key, texts) != [] {
      assert key(texts[mi[0]]) !in cache;
    }
  }

  /** A text whose key is not cached reaches the model as often as it occurs: there is no de-duplication. */
  lemma MissesKeepDuplicates(cache: map<Key, Vector>, key: string -> Key, t: string)
    requires key(t) !in cache
    ensures Misses(cache, key, [t, t]) == [t, t]
  {
    assert [t, t][..1] == [t];
    assert [t][..0] == [];
    assert Misses(cache, key, [t]) == [t];
  }

  /** Writing only under keys that were not cached leaves every cached entry as it was. */
  lemma {:induction false} StoreKeepsCached(cache: map<Key, Vector>, key: string -> Key, texts: seq<string>, vectors: seq<Vector>)
    requires |texts| == |vectors|
    requires forall j :: 0 <= j < |texts| ==> key(texts[j]) !in cache
    ensures forall k :: k in cache ==> k in Store(cache, key, texts, vectors) && Store(cache, key, texts, vectors)[k] == cache[k]
    decreases |texts|
  {
    if texts != [] {
      var n := |texts| - 1;
      assert forall j :: 0 <= j < n ==> texts[..n][j] == texts[j];
      StoreKeepsCached(cache, key, texts[..n], vectors[..n]);
    }
  }

  /** After the writes, the key of every written text is present, and nothing but the keys written was added. */
  lemma {:induction false} StoreCovers(cache: map<Key, Vector>, key: string -> Key, texts: seq<string>, vectors: seq<Vector>)
    requires |texts| == |vectors|
    ensures forall j :: 0 <= j < |texts| ==> key(texts[j]) in Store(cache, key, texts, vectors)
    ensures forall k :: k in Store(cache, key, texts, vectors) ==>
              k in cache || exists j :: 0 <= j < |texts| && key(texts[j]) == k
    decreases |texts|
  {
    if texts != [] {
      var n := |texts| - 1;
      var prefix := texts[..n];
      assert forall j :: 0 <= j < n ==> prefix[j] == texts[j];
      StoreCovers(cache, key, prefix, vectors[..n]);
    }
  }

  /** `results` after placing `vectors[j]` at position `indices[j]`, for each `j` in order. */
  function Fill(results: seq<Option<Vector>>, indices: seq<nat>, vectors: seq<Vector>): (r: seq<Option<Vector>>)
    requires |indices| == |vectors|
    requires forall j :: 0 <= j < |indices| ==> indices[j] < |results|
    ensures |r| == |results|
    decreases |indices|
  {
    if indices == [] then results
    else
      var n := |indices| - 1;
      Fill(results, indices[..n], vectors[..n])[indices[n] := Some(vectors[n])]
  }

  /**
   * With strictly increasing positions, each listed position ends up holding its own
   * vector and every other position is left as it was.
   */
  lemma {:induction false} FillMeaning(results: seq<Option<Vector>>, indices: seq<nat>, vectors: seq<Vector>)
    requires |indices| == |vectors|
    requires forall j :: 0 <= j < |indices| ==> indices[j] < |results|
    requires forall j, k :: 0 <= j < k < |indices| ==> indices[j] < indices[k]
    ensures forall j :: 0 <= j < |indices| ==> Fill(results, indices, vectors)[indices[j]] == Some(vectors[j])
    ensures forall i :: 0 <= i < |results| && i !in indices ==> Fill(results, indices, vectors)[i] == results[i]
    decreases |indices|
  {
    if indices != [] {
      var n := |indices| - 1;
      var prefix := indices[..n];
      assert forall j :: 0 <= j < n ==> prefix[j] == indices[j];
      FillMeaning(results, prefix, vectors[..n]);
      forall i | 0 <= i < |results| && i !in indices
        ensures Fill(results, indices, vectors)[i] == results[i]
      {
        assert i !in prefix;
      }
    }
  }

  /** The first pass of a batch: each position holds its cached vector, or nothing on a miss. */
  function LookedUp(cache: map<Key, Vector>, key: string -> Key, texts: seq<string>): seq<Option<Vector>> {
    seq(|texts|, i requires 0 <= i < |texts| =>
      if key(texts[i]) in cache then Some(cache[key(texts[i])]) else None)
  }

  /** The output of a batch, given the model's answer `vectors` for the missing texts. */
  function BatchResult(cache: map<Key, Vector>, key: string -> Key, texts: seq<string>, vectors: seq<Vector>): seq<Option<Vector>>
    requires |vectors| == |Misses(cache, key, texts)|
  {
    MissBounds(cache, key, texts);
    Fill(LookedUp(cache, key, texts), MissIndices(cache, key, texts), vectors)
  }

  /**
   * What a batch yields: every position is filled, hits with their cached vector and the
   * j-th miss with the j-th vector of the model's answer; afterwards every key of the
   * batch is cached and the entries cached before keep their vectors.
   */
  lemma BatchOutcome(before: map<Key, Vector>, key: string -> Key, texts: seq<string>, vectors: seq<Vector>)
    requires |vectors| == |Misses(before, key, texts)|
    ensures var mi := MissIndices(before, key, texts);
            var ms := Misses(before, key, texts);
            var r := BatchResult(before, key, texts, vectors);
            var after := Store(before, key, ms, vectors);
            |mi| == |ms| && |r| == |texts| && (forall i :: 0 <= i < |texts| ==> r[i].Some?) &&
            (forall i :: 0 <= i < |texts| && key(texts[i]) in before ==> r[i] == Some(before[key(texts[i])])) &&
            (forall j :: 0 <= j < |mi| ==> mi[j] < |texts| && r[mi[j]] == Some(vectors[j])) &&
            (forall i :: 0 <= i < |texts| ==> key(texts[i]) in after) &&
            (forall k :: k in before ==> k in after && after[k] == before[k])
  {
    BatchResultOutcome(before, key, texts, vectors);
    BatchStoreOutcome(before, key, texts, vectors);
  }

  /** Every position of a batch's output is filled: hits from the cache, the j-th miss with the j-th vector. */
  lemma BatchResultOutcome(before: map<Key, Vector>, key: string -> Key, texts: seq<string>, vectors: seq<Vector>)
    requires |vectors| == |Misses(before, key, texts)|
    ensures var mi := MissIndices(before, key, texts);
            var r := BatchResult(before, key, texts, vectors);
            |mi| == |Misses(before, key, texts)| && |r| == |texts| && (forall i :: 0 <= i < |texts| ==> r[i].Some?) &&
            (forall i :: 0 <= i < |texts| && key(texts[i]) in before ==> r[i] == Some(before[key(texts[i])])) &&
            (forall j :: 0 <= j < |mi| ==> mi[j] < |texts| && r[mi[j]] == Some(vectors[j]))
  {
    var mi := MissIndices(before, key, texts);
    var looked := LookedUp(before, key, texts);
    MissIndicesMeaning(before, key, texts);
    FillMeaning(looked, mi, vectors);
    var r := Fill(looked, mi, vectors);
    forall i | 0 <= i < |texts|
      ensures r[i].Some?
    {
      if key(texts[i]) !in before {
        var j :| 0 <= j < |mi| && mi[j] == i;
      } else {
        assert i !in mi;
      }
    }
    forall i | 0 <= i < |texts| && key(texts[i]) in before
      ensures r[i] == Some(before[key(texts[i])])
    {
      assert i !in mi;
    }
  }

  /** After storing a batch's misses every key of the batch is cached, and earlier entries are kept. */
  lemma BatchStoreOutcome(before: map<Key, Vector>, key: string -> Key, texts: seq<string>, vectors: seq<Vector>)
    requires |vectors| == |Misses(before, key, texts)|
    ensures var after := Store(before, key, Misses(before, key, texts), vectors);
            (forall i :: 0 <= i < |texts| ==> key(texts[i]) in after) &&
            (forall k :: k in before ==> k in after && after[k] == before[k])
  {
    var mi := MissIndices(before, key, texts);
    var ms := Misses(before, key, texts);
    MissIndicesMeaning(before, key, texts);
    StoreKeepsCached(before, key, ms, vectors);
    StoreCovers(before, key, ms, vectors);
    forall i | 0 <= i < |texts| && key(texts[i]) !in before
      ensures key(texts[i]) in Store(before, key, ms, vectors)
    {
      var j :| 0 <= j < |mi| && mi[j] == i;
      assert ms[j] == texts[i];
    }
  }

  /**
   * `SentenceTransformerEmbedding` with its memory cache. `key` stands for the md5 prefix,
   * `encodeOne` and `encodeMany` for the model's `encode` on a text and on a list of texts.
   * `loaded` is whether the model has been created; the ghost fields count the loads and
   * record every call made into the model.
   */
  class EmbeddingCache {
    const key: string -> Key
    const encodeOne: string -> Vector
    const encodeMany: seq<string> -> seq<Vector>
    var cache: map<Key, Vector>
    var loaded: bool
    ghost var loads: nat
    ghost var calls: seq<ModelCall>

    /** The model is loaded at most once, and the batch encoder answers one vector per text. */
    ghost predicate Valid()
      reads this
    {
      loads == (if loaded then 1 else 0) &&
      forall ts: seq<string> :: |encodeMany(ts)| == |ts|
    }

    constructor (key: string -> Key, encodeOne: string -> Vector, encodeMany: seq<string> -> seq<Vector>)
      requires forall ts: seq<string> :: |encodeMany(ts)| == |ts|
      ensures Valid()
      ensures this.key == key && this.encodeOne == encodeOne && this.encodeMany == encodeMany
      ensures cache == map[] && !loaded && calls == []
    {
      this.key := key;
      this.encodeOne := encodeOne;
      this.encodeMany := encodeMany;
      cache := map[];
      loaded := false;
      loads := 0;
      calls := [];
    }

    /** The lazy `model` property: creates the model on first access and never again. */
    method LoadModel()
      requires Valid()
      modifies this
      ensures Valid() && loaded
      ensures loads == (if old(loaded) then old(loads) else old(loads) + 1)
      ensures cache == old(cache) && calls == old(calls)
    {
      if !loaded {
        loaded := true;
        loads := loads + 1;
      }
    }

    /**
     * `embed`: a cached key answers from the cache without touching the model; otherwise
     * the model encodes the text once and the vector is stored under its key.
     */
    method Embed(text: string) returns (v: Vector)
      requires Valid()
      modifies this
      ensures Valid()
      ensures key(text) in old(cache) ==>
                v == old(cache)[key(text)] && cache == old(cache) && loaded == old(loaded) &&
                loads == old(loads) && calls == old(calls)
      ensures key(text) !in old(cache) ==>
                v == encodeOne(text) && cache == old(cache)[key(text) := v] && loaded &&
                calls == old(calls) + [Single(text)]
      ensures key(text) in cache && cache[key(text)] == v
    {
      var textHash := key(text);
      if textHash in cache {
        return cache[textHash];
      }
      LoadModel();
      v := encodeOne(text);
      calls := calls + [Single(text)];
      cache := cache[textHash := v];
    }

    /**
     * The first loop of `embed_batch`: cached positions take their cached vector, the
     * others stay empty and are listed, with their texts, in input order.
     */
    method LookUp(texts: seq<string>) returns (r: seq<Option<Vector>>, uncachedIndices: seq<nat>, uncachedTexts: seq<string>)
      ensures r == LookedUp(cache, key, texts)
      ensures uncachedIndices == MissIndices(cache, key, texts) && uncachedTexts == Misses(cache, key, texts)
    {
      uncachedIndices := [];
      uncachedTexts := [];
      r := seq(|texts|, _ => None);
      for i := 0 to |texts|
        invariant |r| == |texts|
        invariant uncachedIndices == MissIndices(cache, key, texts[..i])
        invariant uncachedTexts == Misses(cache, key, texts[..i])
        invariant forall k :: 0 <= k < i ==>
                    r[k] == if key(texts[k]) in cache then Some(cache[key(texts[k])]) else None
        invariant forall k :: i <= k < |texts| ==> r[k] == None
      {
        assert texts[..i + 1][..i] == texts[..i];
        var textHash := key(texts[i]);
        if textHash in cache {
          r := r[i := Some(cache[textHash])];
        } else {
          uncachedIndices := uncachedIndices + [i];
          uncachedTexts := uncachedTexts + [texts[i]];
        }
      }
      assert texts[..|texts|] == texts;
    }

    /**
     * The second loop of `embed_batch`: the j-th vector is stored under the key of the j-th
     * missing text and placed at the j-th missing position. The writes go to a copy of the
     * cache that replaces it once the loop is done.
     */
    method StoreMisses(r: seq<Option<Vector>>, indices: seq<nat>, texts: seq<string>, vectors: seq<Vector>)
      returns (filled: seq<Option<Vector>>)
      requires |indices| == |texts| == |vectors|
      requires forall j :: 0 <= j < |indices| ==> indices[j] < |r|
      modifies this
      ensures filled == Fill(r, indices, vectors)
      ensures cache == Store(old(cache), key, texts, vectors)
      ensures loaded == old(loaded) && loads == old(loads) && calls == old(calls)
    {
      filled := r;
      var stored := cache;
      for j := 0 to |indices|
        invariant stored == Store(cache, key, texts[..j], vectors[..j])
        invariant filled == Fill(r, indices[..j], vectors[..j]) && |filled| == |r|
      {
        assert texts[..j + 1][..j] == texts[..j];
        assert vectors[..j + 1][..j] == vectors[..j];
        assert indices[..j + 1][..j] == indices[..j];
        var textHash := key(texts[j]);
        stored := stored[textHash := vectors[j]];
        filled := filled[indices[j] := Some(vectors[j])];
      }
      assert texts[..|texts|] == texts;
      assert vectors[..|vectors|] == vectors;
      assert indices[..|indices|] == indices;
      cache := stored;
    }

    /**
     * `embed_batch`: every position whose key is cached is answered from the cache; the
     * missing texts (duplicates included) go to the model in one call, in input order, and
     * the j-th vector returned fills the j-th missing position and is stored under that
     * text's key. With no miss the model is neither loaded nor called. `BatchOutcome` spells
     * out what the result and the new cache hold.
     */
    method EmbedBatch(texts: seq<string>) returns (r: seq<Option<Vector>>)
      requires Valid()
      modifies this
      ensures Valid()
      ensures texts == [] ==> r == [] && cache == old(cache) && loaded == old(loaded) && calls == old(calls)
      ensures var ms := Misses(old(cache), key, texts);
              |encodeMany(ms)| == |ms| &&
              r == BatchResult(old(cache), key, texts, encodeMany(ms)) &&
              cache == Store(old(cache), key, ms, encodeMany(ms)) &&
              calls == old(calls) + (if ms == [] then [] else [Batch(ms)]) &&
              loaded == (old(loaded) || ms != [])
    {
      if texts == [] {
        return [];
      }
      r := EmbedNonEmpty(texts);
    }

    /** The part of `embed_batch` after the empty-input guard. */
    method EmbedNonEmpty(texts: seq<string>) returns (r: seq<Option<Vector>>)
      requires Valid()
      modifies this
      ensures Valid()
      ensures var ms := Misses(old(cache), key, texts);
              |encodeMany(ms)| == |ms| &&
              r == BatchResult(old(cache), key, texts, encodeMany(ms)) &&
              cache == Store(old(cache), key, ms, encodeMany(ms)) &&
              calls == old(calls) + (if ms == [] then [] else [Batch(ms)]) &&
              loaded == (old(loaded) || ms != [])
    {
      var uncachedIndices, uncachedTexts;
      r, uncachedIndices, uncachedTexts := LookUp(texts);
      MissBounds(cache, key, texts);
      if uncachedTexts != [] {
        LoadModel();
        var embeddings := encodeMany(uncachedTexts);
        calls := calls + [Batch(uncachedTexts)];
        r := StoreMisses(r, uncachedIndices, uncachedTexts, embeddings);
      } else {
        assert encodeMany(uncachedTexts) == [];
      }
    }

    /** Embedding the same text twice gives the same vector, and the second call never reaches the model. */
    method EmbedTwice(text: string) returns (first: Vector, second: Vector)
      requires Valid()
      modifies this
      ensures Valid() && first == second
      ensures calls == old(calls) + (if key(text) in old(cache) then [] else [Single(text)])
    {
      first := Embed(text);
      second := Embed(text);
    }
  }
}
