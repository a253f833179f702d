/**
 * Catalog ingestion (src/load_dataset.rs): keep the records that have a
 * non-blank synopsis and a complete picture-URL chain, enrich the synopsis
 * with the generated description, and split the survivors into the
 * title, synopsis and picture-URL columns of the store.
 *
 * The JSON decoding is an input here: a sequence of entries, each a
 * sequence of `(title, record)` pairs in the order the entry's map yields
 * them.
 */
module LoadDataset {
  import opened Wrappers
  import opened Types

  /** A surviving record: title, enriched synopsis, picture URL. */
  type Row = (string, string, string)

  /** One decoded JSON object: its `(title, record)` pairs. */
  type Entry = seq<(string, AnimeData)>

  /** Rust's `char::is_whitespace`: the Unicode `White_Space` property. */
  predicate IsWhitespace(c: char) {
    ('\U{0009}' <= c <= '\U{000D}') || c == '\U{0020}' || c == '\U{0085}' ||
    c == '\U{00A0}' || c == '\U{1680}' || ('\U{2000}' <= c <= '\U{200A}') ||
    c == '\U{2028}' || c == '\U{2029}' || c == '\U{202F}' || c == '\U{205F}' ||
    c == '\U{3000}'
  }

  function TrimStart(s: string): string {
    if s != [] && IsWhitespace(s[0]) then TrimStart(s[1..]) else s
  }

  function TrimEnd(s: string): string {
    if s != [] && IsWhitespace(s[|s| - 1]) then TrimEnd(s[..|s| - 1]) else s
  }

  /** `str::trim`: strip leading and trailing whitespace. */
  function Trim(s: string): string {
    TrimEnd(TrimStart(s))
  }

  /** `s.trim().is_empty()`. */
  predicate IsBlank(s: string) {
    Trim(s) == []
  }

  lemma {:induction false} TrimStartEmptyIff(s: string)
    ensures TrimStart(s) == [] <==> forall i :: 0 <= i < |s| ==> IsWhitespace(s[i])
  {
    if s != [] && IsWhitespace(s[0]) {
      TrimStartEmptyIff(s[1..]);
      assert forall i :: 1 <= i < |s| ==> s[i] == s[1..][i - 1];
    }
  }

  lemma {:induction false} TrimEndEmptyIff(s: string)
    ensures TrimEnd(s) == [] <==> forall i :: 0 <= i < |s| ==> IsWhitespace(s[i])
  {
    if s != [] && IsWhitespace(s[|s| - 1]) {
      TrimEndEmptyIff(s[..|s| - 1]);
      assert forall i :: 0 <= i < |s| - 1 ==> s[i] == s[..|s| - 1][i];
    }
  }

  /** `TrimStart` only drops a prefix of whitespace. */
  lemma {:induction false} TrimStartSuffix(s: string)
    ensures |TrimStart(s)| <= |s| && TrimStart(s) == s[|s| - |TrimStart(s)|..]
    ensures forall i :: 0 <= i < |s| - |TrimStart(s)| ==> IsWhitespace(s[i])
  {
    if s != [] && IsWhitespace(s[0]) {
      TrimStartSuffix(s[1..]);
      assert forall i :: 1 <= i < |s| ==> s[i] == s[1..][i - 1];
    }
  }

  /** A string is blank exactly when every character is whitespace. */
  lemma BlankIff(s: string)
    ensures IsBlank(s) <==> forall i :: 0 <= i < |s| ==> IsWhitespace(s[i])
  {
    var t := TrimStart(s);
    TrimStartSuffix(s);
    TrimStartEmptyIff(s);
    TrimEndEmptyIff(t);
    var k := |s| - |t|;
    assert forall i :: k <= i < |s| ==> s[i] == t[i - k];
  }

  /** `images?.webp?.large_image_url?`. */
  function PictureUrl(anime: AnimeData): Option<string> {
    match anime.images
    case None => None
    case Some(images) =>
      match images.webp
      case None => None
      case Some(format) => format.largeImageUrl
  }

  /** The synopsis, followed by a blank line and the generated description if there is one. */
  function Enrich(synopsis: string, llmDescription: Option<string>): string {
    match llmDescription
    case None => synopsis
    case Some(enriched) => synopsis + "\n\n" + enriched
  }

  /**
   * The `filter_map` closure: a record survives when its synopsis is
   * present and not blank and its picture chain is complete.
   */
  function ExtractRow(title: string, anime: AnimeData): (r: Option<Row>)
    ensures r.Some? <==>
      anime.synopsis.Some? && !IsBlank(anime.synopsis.value) &&
      anime.images.Some? && anime.images.value.webp.Some? &&
      anime.images.value.webp.value.largeImageUrl.Some?
    ensures r.Some? ==>
      r.value.0 == title &&
      r.value.2 == anime.images.value.webp.value.largeImageUrl.value &&
      r.value.1 == if anime.llmDescription.None? then anime.synopsis.value
                   else anime.synopsis.value + "\n\n" + anime.llmDescription.value
  {
    match anime.synopsis
    case None => None
    case Some(s) =>
      if !IsBlank(s) then
        match PictureUrl(anime)
        case None => None
        case Some(picture) => Some((title, Enrich(s, anime.llmDescription), picture))
      else None
  }

  /** Appending text to a non-blank synopsis leaves it non-blank. */
  lemma EnrichNotBlank(synopsis: string, llmDescription: Option<string>)
    requires !IsBlank(synopsis)
    ensures !IsBlank(Enrich(synopsis, llmDescription))
  {
    BlankIff(synopsis);
    var i :| 0 <= i < |synopsis| && !IsWhitespace(synopsis[i]);
    var e := Enrich(synopsis, llmDescription);
    assert e[i] == synopsis[i];
    BlankIff(e);
  }

  /** Every row the closure emits has a non-blank synopsis. */
  lemma ExtractRowNotBlank(title: string, anime: AnimeData)
    requires ExtractRow(title, anime).Some?
    ensures !IsBlank(ExtractRow(title, anime).value.1)
  {
    EnrichNotBlank(anime.synopsis.value, anime.llmDescription);
  }

  /** The rows of one entry, in the entry's order. */
  function ExtractEntry(entry: Entry): (rows: seq<Row>)
    ensures |rows| <= |entry|
  {
    if entry == [] then []
    else
      var rest := ExtractEntry(entry[1..]);
      match ExtractRow(entry[0].0, entry[0].1)
      case None => rest
      case Some(row) => [row] + rest
  }

  /** The number of `(title, record)` pairs over all entries. */
  function TotalPairs(entries: seq<Entry>): nat {
    if entries == [] then 0 else |entries[0]| + TotalPairs(entries[1..])
  }

  /** `extract_synopses_and_pic_from_json` after decoding: the `flat_map` over the entries. */
  function ExtractSynopsesAndPic(entries: seq<Entry>): (rows: seq<Row>)
    ensures |rows| <= TotalPairs(entries)
  {
    if entries == [] then [] else ExtractEntry(entries[0]) + ExtractSynopsesAndPic(entries[1..])
  }

  /** A row comes out of an entry exactly when some pair of the entry yields it. */
  lemma {:induction false} ExtractEntryMembers(entry: Entry, row: Row)
    ensures row in ExtractEntry(entry) <==>
      exists i :: 0 <= i < |entry| && ExtractRow(entry[i].0, entry[i].1) == Some(row)
  {
    if entry != [] {
      ExtractEntryMembers(entry[1..], row);
      assert forall i :: 1 <= i < |entry| ==> entry[i] == entry[1..][i - 1];
      if exists i :: 0 <= i < |entry| && ExtractRow(entry[i].0, entry[i].1) == Some(row) {
        var i :| 0 <= i < |entry| && ExtractRow(entry[i].0, entry[i].1) == Some(row);
        if i > 0 {
          assert entry[1..][i - 1] == entry[i];
        }
      }
    }
  }

  /** Entries are processed in order: the rows of `a + b` are those of `a`, then those of `b`. */
  lemma {:induction false} ExtractAppend(a: seq<Entry>, b: seq<Entry>)
    ensures ExtractSynopsesAndPic(a + b) == ExtractSynopsesAndPic(a) + ExtractSynopsesAndPic(b)
  {
    if a != [] {
      assert (a + b)[1..] == a[1..] + b;
      ExtractAppend(a[1..], b);
    } else {
      assert a + b == b;
    }
  }

  /** Every emitted synopsis is non-blank. */
  lemma {:induction false} ExtractedNotBlank(entries: seq<Entry>)
    ensures forall row :: row in ExtractSynopsesAndPic(entries) ==> !IsBlank(row.1)
  {
    if entries != [] {
      ExtractedNotBlank(entries[1..]);
      forall row | row in ExtractEntry(entries[0])
        ensures !IsBlank(row.1)
      {
        ExtractEntryMembers(entries[0], row);
        var i :| 0 <= i < |entries[0]| && ExtractRow(entries[0][i].0, entries[0][i].1) == Some(row);
        ExtractRowNotBlank(entries[0][i].0, entries[0][i].1);
      }
    }
  }

  /**
   * `build_bin_struct_from_json` up to the embedding step: the surviving
   * rows split into the three columns the store is built from.
   */
  method BuildBinColumns(entries: seq<Entry>) returns (titles: seq<string>, synopses: seq<string>, pictureUrls: seq<string>)
    ensures |titles| == |synopses| == |pictureUrls| == |ExtractSynopsesAndPic(entries)|
    ensures forall i :: 0 <= i < |titles| ==>
      ExtractSynopsesAndPic(entries)[i] == (titles[i], synopses[i], pictureUrls[i])
  {
    var animeData := ExtractSynopsesAndPic(entries);
    titles, synopses, pictureUrls := [], [], [];
    for i := 0 to |animeData|
      invariant |titles| == i && |synopses| == i && |pictureUrls| == i
      invariant forall j :: 0 <= j < i ==> animeData[j] == (titles[j], synopses[j], pictureUrls[j])
    {
      var (title, synopsis, pictureUrl) := animeData[i];
      titles := titles + [title];
      synopses := synopses + [synopsis];
      pictureUrls := pictureUrls + [pictureUrl];
    }
  }
}
