# animood ranking kernel in Dafny

This project models the algorithmic core of animood, an anime recommender. The core is in three Rust files:

- **src/vec_ops.rs** holds the vector kernel:
  - the dot product;
  - min-max and log normalisation;
  - in-place clipping;
  - brute-force top-k similarity search;
  - the weighted centroid of rated embeddings;
  - the four-way taste-query policy that combines a "liked" and a "disliked" centroid.
- **src/search.rs** holds the text-query path. It searches the embedding store with a query embedding and turns the `(index, score)` hits into result records by reading the store's parallel columns. Its `dot` and `search_similarity` are identical copies of the ones in src/vec_ops.rs, so they are modelled once, in `VecOps`.
- **src/load_dataset.rs** handles catalog ingestion. It keeps records with a non-blank synopsis and a complete picture-URL chain, appends the generated description to the synopsis, and splits the survivors into the title, synopsis and picture-URL columns.

Modules and files:

| file | module | models |
|---|---|---|
| wrappers.dfy | `Wrappers` | Rust's `Option` |
| types.dfy | `Types` | the record and store shapes of src/types.rs |
| vec_ops.dfy | `VecOps` | src/vec_ops.rs, and the duplicated search of src/search.rs |
| search.dfy | `Search` | the result mapping of `query_anime` |
| load_dataset.dfy | `LoadDataset` | the filter/enrich pipeline and the three-way split |
| scenarios.dfy | `Scenarios` | concrete end-to-end cases derived from the general lemmas |

The model keeps the source's form:

- Pure expressions (`dot`, `norm`, the `filter_map` closure, the `flat_map`) are functions.
- Code that mutates in place is imperative:
  - `clip` is a method on an `array<real>`;
  - `sort_by` is a stable insertion sort on an array of `(index, score)` pairs;
  - `weighted_centroid` accumulates into an array and a running sum;
  - `build_taste_query` negates or combines arrays in loops;
  - `build_bin_struct_from_json` pushes into three growing sequences.
- Each method is proved against a specification function (`Clipped`, `IsTopK`, `Centroid`, `TasteQuery`, `ExtractSynopsesAndPic`). The properties are lemmas about those functions.

Scores are mathematical reals. The model has no `f32` rounding and no NaN, so `partial_cmp(..).unwrap()` never panics.

Where the code and the design description of the system differ, the model follows the code:

- The sort is stable, so equal scores come out in ascending index order. The design description calls the order of ties arbitrary. `TopKUnique` shows that the result is fully determined, and `Scenarios.TopTwoOfThree` shows that the tie goes to the smaller index.
- `weighted_centroid` takes the dimension from `pairs[0]`, even when that pair's weight is 0. The design description says "the first valid pair". `Scenarios.FirstPairFixesDimension` shows the difference.
- `dot` accepts vectors of different lengths and sums over the shorter one, because `zip` truncates. It does not reject a length mismatch.

## Model

| member | source | states |
|---|---|---|
| `VecOps.DotIsProductSum` | src/vec_ops.rs:8-10 | the dot product is the sum of `a[i] * b[i]` over the first `min(|a|, |b|)` positions (`zip` truncates) |
| `VecOps.DotSymmetric` | src/vec_ops.rs:8-10 | `dot(a, b) == dot(b, a)`, whichever input is longer |
| `VecOps.Clamp` | src/vec_ops.rs:31 | `f32::clamp` (which panics unless `lo <= hi`): the result lies in `[lo, hi]`, equals `x` inside the range and the nearer bound outside it |
| `VecOps.Norm` | src/vec_ops.rs:13-19 | result in [0, 1]; 0 when `max <= min`; 0 at or below `min`, 1 at or above `max`, `(value - min) / (max - min)` in between |
| `VecOps.NormMonotone` | src/vec_ops.rs:13-19 | for fixed bounds, normalisation never decreases as the value grows |
| `VecOps.LogNorm` | src/vec_ops.rs:22-25 | result in [0, 1], and 0 when `maxLog <= minLog`, for any logarithm |
| `VecOps.LogNormOfZero` | src/vec_ops.rs:22-25 | when `ln(1) = 0`, a zero count normalises like the value 0 |
| `VecOps.Clipped` | src/vec_ops.rs:28-33 | clipping keeps the length, puts every component in `[-c, c]`, keeps in-range components and moves the others to the nearer bound |
| `VecOps.ClippedInRange` | src/vec_ops.rs:28-33 | a vector already inside `[-c, c]` is unchanged by clipping |
| `VecOps.ClippedIdempotent` | src/vec_ops.rs:28-33 | clipping twice equals clipping once |
| `VecOps.Clip` | src/vec_ops.rs:28-33 | the in-place loop leaves the array equal to `Clipped` of its old contents; requires `c >= 0`, because `clamp(-c, c)` panics otherwise |
| `VecOps.Scores` | src/vec_ops.rs:41-45 | the indexed parallel map yields, at position `i`, the dot product of the query with embedding `i` |
| `VecOps.InsertLast` | src/vec_ops.rs:47 | one step of the stable sort: the last pair moves left only past pairs with a strictly lower score; the prefix becomes ranked and the array is a permutation of the old one |
| `VecOps.SortByScoreDescending` | src/vec_ops.rs:47 | on index-ordered pairs the stable descending sort yields score-descending order, equal scores by ascending index, and a permutation of the input |
| `VecOps.RankedPrefixIsTopK` | src/vec_ops.rs:41-48 | sorting the enumerated scores into ranked order and keeping the first `min(k, n)` pairs yields a top-k result |
| `VecOps.SearchSimilarity` | src/vec_ops.rs:36-50 | the result is the top-k (`IsTopK`): `min(k, n)` pairs, each a valid index with its own dot product, ranked, and no omitted item ranks ahead of the last one returned; identical code at src/search.rs:10-24 |
| `VecOps.TopKProperties` | src/vec_ops.rs:36-50 | a top-k result has length at most `k` and `n`, is empty for `k = 0`, has pairwise distinct indices and non-increasing scores, breaks ties by ascending index, and scores every omitted item no higher than its last entry |
| `VecOps.TopKUnique` | src/vec_ops.rs:47-48 | two results that both meet the top-k contract are equal: the stable sort plus truncation is deterministic |
| `VecOps.WeightSumZeroIff` | src/vec_ops.rs:62-81 | the accumulated weight is non-negative, and it is zero exactly when every pair is skipped |
| `VecOps.CentroidNoneIff` | src/vec_ops.rs:53-81 | no centroid exactly when there are no pairs, or every pair has a length other than `|pairs[0].0|` or a zero weight |
| `VecOps.CentroidShape` | src/vec_ops.rs:58-90 | a centroid has the length of `pairs[0]`'s embedding and every component in [-10, 10] |
| `VecOps.CentroidSignInvariant` | src/vec_ops.rs:68 | only weight magnitudes matter: negating any of the weights leaves the centroid unchanged |
| `VecOps.CentroidScaleInvariant` | src/vec_ops.rs:62-85 | scaling every weight by the same `c > 0` leaves the centroid unchanged |
| `VecOps.Accumulate` | src/vec_ops.rs:58-77 | the loop over the pairs returns a fresh accumulator of length `dim` holding, per component, the weighted sum of the kept embeddings, together with the sum of the kept weights' magnitudes; a pair is kept when its length is `dim` and its weight is non-zero |
| `VecOps.WeightedCentroid` | src/vec_ops.rs:53-91 | the accumulate, divide and clip loops return exactly `Centroid(pairs)`: the clipped weighted mean of the kept pairs, or nothing |
| `VecOps.TasteQuery` | src/vec_ops.rs:94-133 | no query exactly when both inputs are absent; the length is that of the positive vector when present, else of the negative one; every component lies in [-10, 10] |
| `VecOps.BuildTasteQuery` | src/vec_ops.rs:94-133 | the negate/combine/clip loops return exactly the four-way policy `TasteQuery`: `clip(p)`, `clip(-n)`, `clip(p - n)` for equal lengths, `clip(p)` for unequal ones |
| `Search.ToResults` | src/search.rs:32-39 | one record per hit, in hit order; record `j` carries the name and picture URL stored at hit `j`'s index and hit `j`'s score |
| `Search.QueryAnime` | src/search.rs:26-41 | the hits are the top 20 of the store; results match them in length and order, and result `j` has the name, picture URL and dot-product score of its item |
| `Search.QueryAnimeRanked` | src/search.rs:30 | at most 20 results, scores non-increasing, and no item left out scores higher than the last result |
| `LoadDataset.BlankIff` | src/load_dataset.rs:21 | `s.trim().is_empty()` holds exactly when every character of `s` is Unicode whitespace |
| `LoadDataset.ExtractRow` | src/load_dataset.rs:19-39 | a pair yields a row exactly when the synopsis is present and non-blank and `images`, `webp` and `large_image_url` are all present; the row holds the key, the synopsis (followed by a blank line and the description when there is one) and the large image URL |
| `LoadDataset.EnrichNotBlank` | src/load_dataset.rs:28-33 | appending the description to a non-blank synopsis keeps it non-blank |
| `LoadDataset.ExtractRowNotBlank` | src/load_dataset.rs:21-35 | every emitted synopsis is non-blank |
| `LoadDataset.ExtractEntry` | src/load_dataset.rs:18-40 | an entry yields at most one row per pair |
| `LoadDataset.ExtractEntryMembers` | src/load_dataset.rs:18-40 | a row comes out of an entry exactly when some pair of that entry yields it |
| `LoadDataset.ExtractSynopsesAndPic` | src/load_dataset.rs:15-42 | there are never more rows than `(title, record)` pairs across all entries |
| `LoadDataset.ExtractAppend` | src/load_dataset.rs:15-17 | `flat_map` keeps entry order: the rows of `a + b` are the rows of `a` followed by those of `b` |
| `LoadDataset.ExtractedNotBlank` | src/load_dataset.rs:15-42 | every synopsis in the output is non-blank |
| `LoadDataset.BuildBinColumns` | src/load_dataset.rs:47-58 | the three columns each have one entry per surviving row, and position `i` holds the title, synopsis and picture URL of row `i` |
| `Scenarios.TopTwoOfThree` | src/vec_ops.rs:36-50 | items [1,0], [0,1], [1,1] queried with [1,0] and k = 2 give exactly `[(0, 1.0), (2, 1.0)]`: the tie goes to the lower index and item 1 is excluded |
| `Scenarios.SinglePairCentroid` | src/vec_ops.rs:53-91 | one pair with positive weight and in-range components has its own embedding as centroid |
| `Scenarios.OneLikedOneDisliked` | src/vec_ops.rs:118-131 | liked `[1,0]` (weight 2) and disliked `[0,1]` (weight 1) give the taste query `[1,-1]` |
| `Scenarios.FirstPairFixesDimension` | src/vec_ops.rs:58-71 | a zero-weight first pair of length 3 still fixes the dimension, so a valid pair of length 2 is skipped and there is no centroid |

## Left out

- f32 arithmetic: the model has no rounding in sums, products or divisions, no overflow to infinity and no NaN. The NaN panic of `partial_cmp(..).unwrap()` in the sort, and a NaN reaching `clamp`, are therefore not modelled.
- `VecOps.LogNorm`: `ln` is a parameter, and only `ln(1) = 0` is ever assumed about it. The `u32` to `f32` conversion is exact here.
- Rayon's `par_iter`: modelled as a sequential map that keeps index order, which is what the indexed `collect` guarantees.
- `usize` and `u32` widths: `k` and the indices are unbounded naturals. `u32` appears only as a bounded type in the record shapes.
- `Search.QueryAnime`: loading `embeddings.bin` and the `embed` call are not modelled. The query embedding is a parameter. The model requires only that the name and picture columns are at least as long as the embedding column, because indexing past their end would panic.
- `query_anime` builds its result records without the `llm_description` field that `AnimeResult` declares in src/types.rs:78-83, so `AnimeResult` here has only the three fields that are filled in.
- `LoadDataset.BuildBinColumns`: opening the file and `serde_json::from_reader` are not modelled; the decoded entries are a parameter. The `embed` call, the construction of `AnimeEmbeddings` (which names only three of its seven fields) and `save_bin` are not modelled either. The method stops at the three columns.
- HashMap iteration order is unspecified. Each entry is a sequence of `(title, record)` pairs in whatever order the map yields them.
- `save_bin`, `load_bin` (file I/O and bincode) and the `Display` formatting of src/types.rs are not modelled.
- The popularity-blended re-ranking and the watched/dropped exclusion are not part of this model. `query_anime_with_user_mal`, called in src/main.rs, is not defined in any file that is part of this model.
- src/embedder.rs, src/model.rs (model inference and tokenizer), src/mal_functions.rs (paginated HTTP), src/mal_types.rs (serde declarations), src/api.rs, src/main.rs, src/state.rs and src/lib.rs (wiring) are not part of this model.
