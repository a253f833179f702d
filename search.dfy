/**
 * The text-query path (src/search.rs): search the store's embeddings with
 * an already computed query embedding and turn the `(index, score)` hits
 * into result records by reading the store's parallel columns.
 *
 * `dot` and `search_similarity` in src/search.rs are the same code as in
 * src/vec_ops.rs and are taken from `VecOps`.
 */
module Search {
  import opened Types
  import opened VecOps

  /** `query_anime` always asks for the 20 best matches. */
  const QUERY_K: nat := 20

  /**
   * The `map`/`collect` of `query_anime`: hit `j` becomes the record with
   * the name and picture URL stored at the hit's index, and the hit's score.
   */
  function ToResults(store: AnimeEmbeddings, top: seq<Scored>): (results: seq<AnimeResult>)
    requires forall j :: 0 <= j < |top| ==> top[j].0 < |store.names| && top[j].0 < |store.pictureUrls|
    ensures |results| == |top|
    ensures forall j :: 0 <= j < |top| ==>
      results[j] == AnimeResult(store.names[top[j].0], top[j].1, store.pictureUrls[top[j].0])
  {
    if top == [] then []
    else
      var (idx, score) := top[0];
      [AnimeResult(store.names[idx], score, store.pictureUrls[idx])] + ToResults(store, top[1..])
  }

  /**
   * The name and picture columns cover every embedding, so that any hit
   * can be looked up; `Valid()` stores satisfy this.
   */
  predicate CoversEmbeddings(store: AnimeEmbeddings) {
    |store.embeddings| <= |store.names| && |store.embeddings| <= |store.pictureUrls|
  }

  /**
   * Answers a query whose embedding is `queryEmb`: the top-20 hits of the
   * store, best first, as result records. `top` is the search's own output.
   * Indexing a name or picture column past its end would panic.
   */
  method QueryAnime(store: AnimeEmbeddings, queryEmb: seq<real>) returns (results: seq<AnimeResult>, ghost top: seq<Scored>)
    requires CoversEmbeddings(store)
    ensures IsTopK(Scores(queryEmb, store.embeddings), QUERY_K, top)
    ensures |results| == |top| == Min(QUERY_K, |store.embeddings|)
    ensures forall j :: 0 <= j < |results| ==>
      top[j].0 < |store.embeddings| &&
      results[j].title == store.names[top[j].0] &&
      results[j].imageUrl == store.pictureUrls[top[j].0] &&
      results[j].score == Dot(queryEmb, store.embeddings[top[j].0])
  {
    var hits := SearchSimilarity(queryEmb, store.embeddings, QUERY_K);
    results := ToResults(store, hits);
    top := hits;
  }

  /** At most 20 results, best first, and nothing left out scores higher than the last one. */
  lemma QueryAnimeRanked(store: AnimeEmbeddings, queryEmb: seq<real>, results: seq<AnimeResult>, top: seq<Scored>)
    requires CoversEmbeddings(store)
    requires IsTopK(Scores(queryEmb, store.embeddings), QUERY_K, top)
    requires results == ToResults(store, top)
    ensures |results| <= QUERY_K
    ensures forall j, l :: 0 <= j < l < |results| ==> results[j].score >= results[l].score
    ensures 0 < |results| ==> forall i :: 0 <= i < |store.embeddings| && i !in Indices(top) ==>
      Dot(queryEmb, store.embeddings[i]) <= results[|results| - 1].score
  {
    TopKProperties(Scores(queryEmb, store.embeddings), QUERY_K, top);
  }
}
