/**
 The corpus manager object: its registry of loaded indexes and metadata
 (two dictionaries keyed by corpus name), the files under its corpus
 directory, and the operations that build, load, search and assemble
 context from them.
 */
module Manager {
  import opened CorpusTypes
  import opened IndexBuilder
  import opened Ranking
  import opened Retrieval
  import opened ContextAssembly

  /** Python truthiness of the optional corpus name: `None` and `""` both
      mean "search every registered corpus". */
  function Named(corpusName: Option<string>): (b: bool)
    ensures corpusName == None || corpusName == Some("") ==> !b
    ensures corpusName.Some? && |corpusName.value| > 0 ==> b
  {
    corpusName.Some? && corpusName.value != ""
  }

  class CorpusManager {
    const vectorDim: nat
    /** The corpus directory. */
    var disk: Disk
    /** `self.indexes` and `self.metadata`. */
    var indexes: map<string, Index>
    var metadata: map<string, seq<MetadataRecord>>
    /** The keys of `self.indexes` in insertion order, which is the order
        `list(self.indexes.keys())` visits them. */
    var indexOrder: seq<string>

    /** Both dictionaries are always assigned together, so they have the same
        keys, and the insertion order lists each key once. */
    ghost predicate Valid()
      reads this
    {
      && indexes.Keys == metadata.Keys
      && (forall i, j :: 0 <= i < j < |indexOrder| ==> indexOrder[i] != indexOrder[j])
      && (forall c :: c in indexOrder <==> c in indexes)
    }

    /** A manager over a corpus directory whose files already exist, with an
        empty registry. */
    constructor (existing: Disk, vectorDim: nat)
      ensures Valid()
      ensures disk == existing && this.vectorDim == vectorDim
      ensures indexes == map[] && metadata == map[] && indexOrder == []
    {
      this.vectorDim := vectorDim;
      disk := existing;
      indexes := map[];
      metadata := map[];
      indexOrder := [];
    }

    /** The entries of a saved corpus; a missing file, or a file without a
        `data` field, reads as no entries rather than an error. */
    function LoadCorpus(corpusName: string): (data: seq<Entry>)
      reads this
      ensures corpusName !in disk.corpusFiles ==> data == []
      ensures corpusName in disk.corpusFiles && disk.corpusFiles[corpusName].data.None? ==> data == []
    {
      if corpusName in disk.corpusFiles then
        match disk.corpusFiles[corpusName].data
        case Some(entries) => entries
        case None => []
      else []
    }

    /** Writes the corpus file, replacing any earlier one; loading it back
        gives the saved entries and no other corpus changes. */
    method SaveCorpus(corpusName: string, data: seq<Entry>)
      modifies this`disk
      ensures disk == old(disk).(corpusFiles := old(disk.corpusFiles)[corpusName := CorpusFile(corpusName, Some(data), |data|)])
      ensures LoadCorpus(corpusName) == data
      ensures forall n :: n != corpusName ==> LoadCorpus(n) == old(LoadCorpus(n))
    {
      disk := disk.(corpusFiles := disk.corpusFiles[corpusName := CorpusFile(corpusName, Some(data), |data|)]);
    }

    /** `self.indexes[name] = index` then `self.metadata[name] = records`. */
    method Register(corpusName: string, index: Index, records: seq<MetadataRecord>)
      requires Valid()
      modifies this`indexes, this`metadata, this`indexOrder
      ensures Valid()
      ensures indexes == old(indexes)[corpusName := index]
      ensures metadata == old(metadata)[corpusName := records]
      ensures indexOrder == old(indexOrder) + (if corpusName in old(indexes) then [] else [corpusName])
    {
      if corpusName !in indexes {
        indexOrder := indexOrder + [corpusName];
      }
      indexes := indexes[corpusName := index];
      metadata := metadata[corpusName := records];
    }

    /** Builds the index of one corpus over its `sourceLang` texts. When no
        entry has the source language (in particular for an empty or missing
        corpus) nothing changes; otherwise only `corpusName` is (re)assigned,
        in the registry and in the index and metadata files, and the index
        holds exactly as many vectors as there are records. */
    method BuildVectorIndex(corpusName: string, sourceLang: LanguageCode)
      requires Valid()
      modifies this`indexes, this`metadata, this`indexOrder, this`disk
      ensures Valid()
      ensures IndexRecords(corpusName, old(LoadCorpus(corpusName)), sourceLang) == [] ==>
        indexes == old(indexes) && metadata == old(metadata) && indexOrder == old(indexOrder) && disk == old(disk)
      ensures IndexRecords(corpusName, old(LoadCorpus(corpusName)), sourceLang) != [] ==>
        && indexes == old(indexes)[corpusName := Index(vectorDim, SourceTexts(old(LoadCorpus(corpusName)), sourceLang))]
        && metadata == old(metadata)[corpusName := IndexRecords(corpusName, old(LoadCorpus(corpusName)), sourceLang)]
        && indexOrder == old(indexOrder) + (if corpusName in old(indexes) then [] else [corpusName])
        && disk == old(disk).(indexFiles := old(disk.indexFiles)[corpusName := indexes[corpusName]],
                              metadataFiles := old(disk.metadataFiles)[corpusName := metadata[corpusName]])
        && indexes[corpusName].NTotal() == |metadata[corpusName]|
    {
      var data := LoadCorpus(corpusName);
      if |data| == 0 {
        return;
      }
      var texts: seq<string> := [];
      var records: seq<MetadataRecord> := [];
      var idx := 0;
      while idx < |data|
        invariant 0 <= idx <= |data|
        invariant texts == SourceTexts(data[..idx], sourceLang)
        invariant records == IndexRecords(corpusName, data[..idx], sourceLang)
      {
        var entry := data[idx];
        assert data[..idx + 1][..idx] == data[..idx];
        if sourceLang in entry {
          texts := texts + [entry[sourceLang]];
          records := records + [MetadataRecord(corpusName, idx, entry)];
        }
        idx := idx + 1;
      }
      assert data[..idx] == data;
      TextsAlignWithRecords(corpusName, data, sourceLang);
      if |texts| == 0 {
        return;
      }
      var index := Index(vectorDim, texts);
      Register(corpusName, index, records);
      disk := disk.(indexFiles := disk.indexFiles[corpusName := index],
                    metadataFiles := disk.metadataFiles[corpusName := records]);
    }

    /** Loads a corpus's index and metadata files into the registry when both
        exist; otherwise reports false and changes nothing. */
    method LoadVectorIndex(corpusName: string) returns (loaded: bool)
      requires Valid()
      modifies this`indexes, this`metadata, this`indexOrder
      ensures Valid()
      ensures loaded == (corpusName in disk.indexFiles && corpusName in disk.metadataFiles)
      ensures loaded ==>
        && indexes == old(indexes)[corpusName := disk.indexFiles[corpusName]]
        && metadata == old(metadata)[corpusName := disk.metadataFiles[corpusName]]
        && indexOrder == old(indexOrder) + (if corpusName in old(indexes) then [] else [corpusName])
      ensures !loaded ==> indexes == old(indexes) && metadata == old(metadata) && indexOrder == old(indexOrder)
    {
      if corpusName in disk.indexFiles && corpusName in disk.metadataFiles {
        Register(corpusName, disk.indexFiles[corpusName], disk.metadataFiles[corpusName]);
        return true;
      }
      return false;
    }

    /** The search over an already resolved list of corpora: query each
        registered one, join its hits against its metadata, then rank the
        merged list and cut it to `k`. */
    method SearchRegistered(query: string, corpora: seq<string>, k: int, ann: AnnSearch)
      returns (results: seq<SearchResult>)
      requires Valid()
      ensures results == SearchSpec(query, corpora, indexes, metadata, k, ann)
    {
      results := [];
      var i := 0;
      while i < |corpora|
        invariant 0 <= i <= |corpora|
        invariant results == Candidates(query, corpora[..i], indexes, metadata, k, ann)
      {
        var corpus := corpora[i];
        assert corpora[..i + 1][..i] == corpora[..i];
        if corpus in indexes {
          var hits := ann(query, indexes[corpus], k);
          var md := metadata[corpus];
          var j := 0;
          while j < |hits|
            invariant 0 <= j <= |hits|
            invariant results == Candidates(query, corpora[..i], indexes, metadata, k, ann)
                                 + CorpusResults(corpus, md, hits[..j])
          {
            var hit := hits[j];
            assert hits[..j + 1][..j] == hits[..j];
            if 0 <= hit.position < |md| {
              results := results + [SearchResult(md[hit.position], hit.score, corpus)];
            }
            j := j + 1;
          }
          assert hits[..j] == hits;
        }
        i := i + 1;
      }
      assert corpora[..i] == corpora;
      results := SortByScore(results);
      results := SliceTo(results, k);
    }

    /** Searches the named corpus, loading it from disk on first use, or
        every registered corpus when no name is given. A named corpus that is
        neither registered nor loadable gives no results; without a name the
        registry is left as it is. */
    method SearchSimilarTexts(query: string, corpusName: Option<string>, k: int, ann: AnnSearch)
      returns (results: seq<SearchResult>)
      requires Valid()
      modifies this`indexes, this`metadata, this`indexOrder
      ensures Valid()
      ensures !Named(corpusName) ==>
        && indexes == old(indexes) && metadata == old(metadata) && indexOrder == old(indexOrder)
        && results == SearchSpec(query, indexOrder, indexes, metadata, k, ann)
      ensures Named(corpusName) && corpusName.value in old(indexes) ==>
        && indexes == old(indexes) && metadata == old(metadata) && indexOrder == old(indexOrder)
        && results == SearchSpec(query, [corpusName.value], indexes, metadata, k, ann)
      ensures Named(corpusName) && corpusName.value !in old(indexes) &&
              !(corpusName.value in disk.indexFiles && corpusName.value in disk.metadataFiles) ==>
        && indexes == old(indexes) && metadata == old(metadata) && indexOrder == old(indexOrder)
        && results == []
      ensures Named(corpusName) && corpusName.value !in old(indexes) &&
              corpusName.value in disk.indexFiles && corpusName.value in disk.metadataFiles ==>
        && indexes == old(indexes)[corpusName.value := disk.indexFiles[corpusName.value]]
        && metadata == old(metadata)[corpusName.value := disk.metadataFiles[corpusName.value]]
        && indexOrder == old(indexOrder) + [corpusName.value]
        && results == SearchSpec(query, [corpusName.value], indexes, metadata, k, ann)
    {
      if Named(corpusName) && corpusName.value !in indexes {
        var loaded := LoadVectorIndex(corpusName.value);
        if !loaded {
          return [];
        }
      }
      var corporaToSearch := if Named(corpusName) then [corpusName.value] else indexOrder;
      results := SearchRegistered(query, corporaToSearch, k, ann);
    }

    /** Over-fetches `2 * max_examples` results from every registered corpus
        and renders the examples that have both English and the target
        language. */
    method GetContextExamples(query: string, targetLanguage: LanguageCode, maxExamples: int, ann: AnnSearch)
      returns (context: string)
      requires Valid()
      modifies this`indexes, this`metadata, this`indexOrder
      ensures Valid()
      ensures indexes == old(indexes) && metadata == old(metadata) && indexOrder == old(indexOrder)
      ensures context == RenderContext(SelectedExamples(
        SearchSpec(query, indexOrder, indexes, metadata, maxExamples * 2, ann), targetLanguage, maxExamples))
    {
      var similarTexts := SearchSimilarTexts(query, None, maxExamples * 2, ann);
      var contextExamples := CollectExamples(similarTexts, targetLanguage, maxExamples);
      context := RenderContext(contextExamples);
    }
  }
}
