# Corpus manager retrieval engine, modelled in Dafny

This project models the `CorpusManager` class of GeoSpeak's `corpus_manager.py`. That class is the engine that finds, for a translation request, the most similar phrase pairs among per-domain corpora. It covers:

- the corpus store (`save_corpus`, `load_corpus`);
- the index builder (`build_vector_index`). It keeps the entries that have the source language and builds one metadata record per kept entry. It then registers the index and the records under the corpus name, and writes both to disk;
- lazy loading of a persisted index and its metadata (`load_vector_index`);
- the search (`search_similar_texts`). It resolves the corpora to search, joins each (score, position) hit against that corpus's metadata records, merges the lists in corpus order, sorts them stably by descending score and cuts the list to `k`;
- the context assembly (`get_context_examples`). It over-fetches `2 * max_examples` results, keeps those with both English and the target language, stops at `max_examples`, and renders the text block;
- the language-name lookup (`get_language_name`).

The sentence-embedding model and the FAISS index are one function parameter, `ann : (query, index, k) -> seq<Hit>`. It stands for embedding and normalising the query, then searching that index for `k` neighbours. Scores are integers, because only their order matters. An index is seen through the texts that were embedded into it, in order. The corpus directory is a `Disk` value with three maps: corpus files, index files and metadata files. The registry is the two maps `indexes` and `metadata`, plus `indexOrder`. `indexOrder` holds the keys of `indexes` in Python dict insertion order, which is the order a search with no corpus name visits the corpora.

Files: `types.dfy` (values), `language_names.dfy`, `index_builder.dfy` (what a build extracts), `ranking.dfy` (stable sort and slice), `retrieval.dfy` (join and merge), `context.dfy` (context assembly), `manager.dfy` (the `CorpusManager` class).

Where the code's behaviour is easy to misread, the model follows the code:
- A search with no corpus name covers only the corpora already in `self.indexes`. The code does not lazily load any corpus in that case.
- The context assembly tests for `'en'` specifically, not for a configurable source language.
- The collecting loop (`CollectExamples`) appends before it compares, so given `max_examples <= 0` and any eligible result it still keeps one example.
- `results[:k]` follows Python slicing in `SliceTo`, so a negative `k` drops elements from the end.
- An empty corpus name behaves like no name, because of Python truthiness.

## Model

| member | source | states |
|---|---|---|
| `LanguageNames.GetLanguageName` | corpus_manager.py:660-685 | a tabled code gets its table name; the result equals the code exactly when the code is not in the table |
| `LanguageNames.EnglishFallsBack` | corpus_manager.py:662-685 | `'en'` is not tabled and comes back as `'en'`; `'es'` gives `Spanish` |
| `Manager.CorpusManager.constructor` | corpus_manager.py:21-27 | a new manager starts with empty `indexes` and `metadata` over an existing corpus directory |
| `Manager.CorpusManager.LoadCorpus` | corpus_manager.py:535-543 | a missing corpus file, or one without `data`, loads as the empty sequence, not an error |
| `Manager.CorpusManager.SaveCorpus` | corpus_manager.py:524-533 | after saving, loading the same name gives back the saved entries, and every other corpus loads as before |
| `IndexBuilder.IndexRecordsSound` | corpus_manager.py:558-565 | every metadata record names the corpus, points at a position in the corpus whose entry has the source language, and carries that whole entry |
| `IndexBuilder.IndexRecordsOrdered` | corpus_manager.py:558-565 | record positions lie within the corpus and strictly increase (corpus order, no entry twice) |
| `IndexBuilder.IndexRecordsComplete` | corpus_manager.py:558-565 | every entry that has the source language gets a record |
| `IndexBuilder.TextsAlignWithRecords` | corpus_manager.py:558-565 | as many texts are embedded as records are built, and text `j` is the source-language text of record `j` |
| `IndexBuilder.NoRecordsIffNoSourceText` | corpus_manager.py:558-569 | nothing is indexed exactly when no entry has the source language |
| `Manager.CorpusManager.Register` | corpus_manager.py:583-584 | both dictionaries are assigned under the name together; a new name goes to the end of the key order, a known name keeps its place |
| `Manager.CorpusManager.BuildVectorIndex` | corpus_manager.py:545-594 | with no entry in the source language the registry and disk are unchanged. Otherwise only the corpus's key is (re)assigned, to the extracted texts and records, in the registry and in the index and metadata files. The index then holds as many vectors as there are records |
| `Manager.CorpusManager.LoadVectorIndex` | corpus_manager.py:596-606 | returns true exactly when both files exist, and then registers both; otherwise nothing changes |
| `Ranking.InsertByScore` | corpus_manager.py:639 | inserting into a descending list keeps it descending and adds exactly the one element |
| `Ranking.SortByScore` | corpus_manager.py:639 | the sort returns a permutation of its input ordered by non-increasing score |
| `Ranking.SortByScoreStable` | corpus_manager.py:639 | the sort is stable: results with equal scores keep their input order |
| `Ranking.SliceTo` | corpus_manager.py:640 | `xs[:k]` is a prefix of length `min(k, len)` for `k >= 0` and `max(0, len + k)` for negative `k` |
| `Ranking.TopK` | corpus_manager.py:638-640 | the cut ranked list is sorted and a sub-multiset of the input, with `min(k, n)` elements. No left-out element outscores a kept one, and equal scores keep input order |
| `Retrieval.CorpusResultsExact` | corpus_manager.py:631-636 | a corpus contributes exactly its hits at real record positions, each as a copy of that record annotated with the hit's score and the corpus name, and at most one result per hit |
| `Retrieval.CandidatesConcat` | corpus_manager.py:621-636 | the merged list is the concatenation of the per-corpus lists in the order the corpora are searched |
| `Retrieval.CandidatesExact` | corpus_manager.py:621-636 | a merged candidate is exactly a tagged record for a kept hit of a registered corpus among those searched |
| `Retrieval.SearchResultsRanked` | corpus_manager.py:618-640 | the search result is sorted by non-increasing score and has `min(k, candidates)` elements. Each element is an annotated record at a real hit position. No candidate that was left out outscores one that was kept, and ties keep merge order |
| `Retrieval.AsWrittenAgreesOnRealPositions` | corpus_manager.py:631-633 | when no hit has a negative position, the guard as written and the corrected guard give the same results |
| `Retrieval.PaddingSlotsBecomeResults` | corpus_manager.py:628-636 | a three-record corpus searched with `k = 5` gives five results as written (two copies of the last record from the `-1` padding) and three with the corrected guard |
| `Manager.CorpusManager.SearchRegistered` | corpus_manager.py:618-640 | the nested loops followed by the sort and the slice compute exactly the ranked, cut candidates of the given corpora |
| `Manager.CorpusManager.SearchSimilarTexts` | corpus_manager.py:608-640 | a named corpus that is neither registered nor loadable gives `[]` and changes nothing. A named one is searched alone, after loading it if needed. With no name, exactly the registered corpora are searched, in registry order, with no loading |
| `Manager.Named` | corpus_manager.py:610-621 | `None` and the empty name are falsy and select every registered corpus; any non-empty name selects that corpus |
| `ContextAssembly.FormatExample` | corpus_manager.py:650 | an example starts with the English line `English: "<en>"` and ends with the target line `<Language>: "<text>"` |
| `ContextAssembly.JoinWith` | corpus_manager.py:657 | joining nothing gives `""`; otherwise the result starts with the first part, ends with the last, and its length is the parts' total plus one separator between each neighbouring pair |
| `ContextAssembly.RenderContext` | corpus_manager.py:656-658 | the rendered block is `""` exactly when there are no examples; otherwise it starts with the header and ends with a blank line |
| `ContextAssembly.EligibleExamplesExact` | corpus_manager.py:647-651 | each example is formatted from a result that has both English and the target language. There are none exactly when no result has both |
| `ContextAssembly.ContextExamplesBound` | corpus_manager.py:644-658 | the context is `""` exactly when no retrieved result has both languages. Otherwise it holds exactly `min(max(1, max_examples), eligible)` examples, which are the first eligible ones in rank order |
| `ContextAssembly.CollectExamples` | corpus_manager.py:646-654 | the loop with its early `break` collects exactly the first `max(1, max_examples)` eligible examples in rank order |
| `Manager.CorpusManager.GetContextExamples` | corpus_manager.py:642-658 | the context is rendered from the selected examples of a search over every registered corpus with `k = 2 * max_examples`. The registry is left unchanged |

## Findings

| source | as written | input that shows it | evidently intended | confidence | as-written member | corrected member |
|---|---|---|---|---|---|---|
| corpus_manager.py:632 | `if idx < len(self.metadata[corpus])` checks only the upper bound, and `self.metadata[corpus][idx]` then indexes from the end for a negative `idx` | a corpus with 3 records searched with `k = 5`: FAISS fills the two slots it cannot fill with position `-1`. Both pass the guard and come back as copies of the last record, so 5 results come back instead of 3. Through `get_context_examples` (`k = 2 * max_examples`) the context can repeat the last record's example. Padding slots carry FAISS's lowest score and sort below every real hit, so this happens only when the registered corpora hold fewer than `2 * max_examples` records, fewer than `max_examples` results have both languages, and the padded corpus's last record has both | `0 <= idx < len(...)`, so padding slots are dropped and a small corpus returns only its real neighbours | medium (relies on FAISS's documented `-1` padding); not executed | `Retrieval.CorpusResultsAsWritten`, `Retrieval.PaddingSlotsBecomeResults` | `Retrieval.CorpusResults`, `Retrieval.CorpusResultsExact` |

`CorpusResultsAsWritten` also models the `IndexError` the guard lets through when the metadata is empty and a position is negative. The search methods use the corrected guard.

## Left out

- The sentence-embedding model, `faiss.normalize_L2` and the FAISS index (`IndexFlatIP`, `add`, `search`). They are a foreign model, a foreign library and floating-point arithmetic. They are replaced by the function parameter `ann` and integer scores. Statements that depend on what the embedding computes are not modelled: that a text's own entry ranks first when searched, and that a search over several corpora ranks first the corpus holding the most similar phrase.
- File formats and file-system calls (`json`, `pickle`, `faiss.write_index` / `read_index`, `os.path.exists`, `os.makedirs`, `os.path.join`). The disk is a map per kind of file, keyed by corpus name. Names that alias the same path, such as names containing `/`, are not modelled. Neither are unreadable or malformed files.
- The `created_at` timestamp of a saved corpus, because it reads the clock. The `count` field is kept.
- Exceptions raised by the embedding model or by FAISS, which would propagate from build and search. Logging is left out too.
- `create_sample_corpora`, the `corpus_sources` table, `initialize_all_corpora`, `get_corpus_stats` and the unused `corpora` dictionary: static data and orchestration over I/O.
- A mismatch between `vector_dim` and the dimension of a loaded index, which FAISS would report at search time.
- translation_accuracy_test.py and test_accuracy_final.py are not part of this model. They are evaluation scripts built on floating-point metrics.
- Language codes stay free-form strings, as in the code, and are not an enumeration.
- Manager.CorpusManager.SearchSimilarTexts: uses the corrected join guard `0 <= idx < len(...)` (see Findings) instead of the code's `idx < len(...)`.
- Manager.CorpusManager.SearchRegistered: uses the same corrected join guard, for the same reason.
- Manager.CorpusManager.GetContextExamples: searches through `SearchSimilarTexts`, so it also uses the corrected join guard. The code can repeat the last record's example for the `-1` padding slots, and the model does not. This happens when the registered corpora hold fewer than `2 * max_examples` records in total, fewer than `max_examples` results have both languages, and the padded corpus's last record has both. Padding slots rank below every real hit, so otherwise the loop stops first.
- Manager.CorpusManager.SearchSimilarTexts and Manager.CorpusManager.GetContextExamples: with `k <= 0` (`max_examples <= 0` in the context assembly) the code's FAISS search raises as soon as a corpus is searched. The model does not model that exception: `ann` is total, and the sliced result (`results[:k]` for negative `k`, the loop's one-example minimum) stands in its place.
