/**
 * Shapes of the records the core reads and writes (src/types.rs).
 * Only the field layout is modelled; persistence (bincode) and display
 * formatting are not part of this model.
 */
module Types {
  import opened Wrappers

  /** Rust's `u32`. */
  type U32 = x: int | 0 <= x < 0x1_0000_0000

  /** One picture format of a catalog entry; only the large URL is read. */
  datatype ImageFormat = ImageFormat(largeImageUrl: Option<string>)

  /** The picture formats of a catalog entry; only `webp` is read. */
  datatype Images = Images(webp: Option<ImageFormat>)

  /** One raw catalog record, as decoded from the JSON dump. */
  datatype AnimeData = AnimeData(
    synopsis: Option<string>,
    llmDescription: Option<string>,
    images: Option<Images>,
    score: real,
    members: U32,
    favorites: U32)

  /**
   * The persisted embedding store: one column per field, row `i` of every
   * column describing the same catalog item.
   */
  datatype AnimeEmbeddings = AnimeEmbeddings(
    names: seq<string>,
    embeddings: seq<seq<real>>,
    pictureUrls: seq<string>,
    scores: seq<real>,
    members: seq<U32>,
    favorites: seq<U32>,
    llmDescription: seq<string>)
  {
    /** Every column has one entry per catalog item. */
    predicate Valid() {
      |names| == |embeddings| && |pictureUrls| == |embeddings| &&
      |scores| == |embeddings| && |members| == |embeddings| &&
      |favorites| == |embeddings| && |llmDescription| == |embeddings|
    }
  }

  /** One search hit handed to the front end. */
  datatype AnimeResult = AnimeResult(title: string, score: real, imageUrl: string)
}
