/**
 The values the corpus manager works with: corpus entries, the metadata
 records that join an index position back to its entry, the abstract vector
 index, the hits the nearest-neighbour search returns and the annotated
 search results.
 */
module CorpusTypes {

  datatype Option<T> = None | Some(value: T)

  /** A language code such as "en" or "es"; codes are free-form keys. */
  type LanguageCode = string

  /** One phrase in several languages: language code to text. */
  type Entry = map<LanguageCode, string>

  /** The JSON document a corpus is saved as; `data` may be missing from a
      file written by someone else, which `load_corpus` reads as no data. */
  datatype CorpusFile = CorpusFile(name: string, data: Option<seq<Entry>>, count: int)

  /** The per-vector record: owning corpus, position of the entry in the
      corpus, and the whole multi-language entry. */
  datatype MetadataRecord = MetadataRecord(corpus: string, index: int, translations: Entry)

  /** An inner-product index of a fixed dimensionality, seen through the
      texts whose embeddings were added to it, in insertion order. */
  datatype Index = Index(dimension: nat, texts: seq<string>)
  {
    function NTotal(): nat { |texts| }
  }

  /** One (score, position) pair of a nearest-neighbour search. Positions are
      integers: the search library fills slots it cannot fill with -1. */
  datatype Hit = Hit(score: int, position: int)

  /** A copy of a metadata record annotated with the hit's score and the
      corpus it came from. */
  datatype SearchResult = SearchResult(record: MetadataRecord, similarityScore: int, corpusName: string)

  /** The files under the corpus directory, by corpus name. */
  datatype Disk = Disk(
    corpusFiles: map<string, CorpusFile>,
    indexFiles: map<string, Index>,
    metadataFiles: map<string, seq<MetadataRecord>>)

  /** Embedding the query and searching one index for its `k` nearest
      neighbours, as one function of the query, the index and `k`. */
  type AnnSearch = (string, Index, int) -> seq<Hit>

  function Min(a: int, b: int): int { if a <= b then a else b }
  function Max(a: int, b: int): int { if a >= b then a else b }
}
