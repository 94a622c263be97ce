/**
 The search side of the corpus manager: joining the (score, position) hits
 of each searched corpus against that corpus's metadata records, merging the
 per-corpus lists in the order the corpora are searched, and ranking the
 merged list.
 */
module Retrieval {
  import opened CorpusTypes
  import opened Ranking

  /** The join guard: a hit is joined only when its position names one of
      the corpus's metadata records. */
  predicate Kept(md: seq<MetadataRecord>, h: Hit) {
    0 <= h.position < |md|
  }

  /** The record at the hit's position, annotated with the hit's score and
      the corpus searched. */
  function Tagged(corpus: string, md: seq<MetadataRecord>, h: Hit): SearchResult
    requires Kept(md, h)
  {
    SearchResult(md[h.position], h.score, corpus)
  }

  /** The results one corpus contributes, in the order of its hits. */
  function CorpusResults(corpus: string, md: seq<MetadataRecord>, hits: seq<Hit>): seq<SearchResult> {
    if hits == [] then []
    else
      var h := hits[|hits| - 1];
      CorpusResults(corpus, md, hits[..|hits| - 1]) + (if Kept(md, h) then [Tagged(corpus, md, h)] else [])
  }

  /** The merged, unranked results of searching `corpora` in order; a corpus
      that is not registered contributes nothing. */
  function Candidates(query: string, corpora: seq<string>, indexes: map<string, Index>,
                      metadata: map<string, seq<MetadataRecord>>, k: int, ann: AnnSearch): seq<SearchResult>
    requires indexes.Keys <= metadata.Keys
  {
    if corpora == [] then []
    else
      var c := corpora[|corpora| - 1];
      Candidates(query, corpora[..|corpora| - 1], indexes, metadata, k, ann)
        + (if c in indexes then CorpusResults(c, metadata[c], ann(query, indexes[c], k)) else [])
  }

  /** What a search over `corpora` returns: the candidates ranked by score
      and cut to `k`. */
  function SearchSpec(query: string, corpora: seq<string>, indexes: map<string, Index>,
                      metadata: map<string, seq<MetadataRecord>>, k: int, ann: AnnSearch): seq<SearchResult>
    requires indexes.Keys <= metadata.Keys
  {
    TopResults(Candidates(query, corpora, indexes, metadata, k, ann), k)
  }

  /** A corpus contributes exactly its hits at real positions, each as a copy
      of the record there annotated with the hit's score and the corpus, and
      never more results than hits. */
  lemma {:induction false} CorpusResultsExact(corpus: string, md: seq<MetadataRecord>, hits: seq<Hit>)
    ensures |CorpusResults(corpus, md, hits)| <= |hits|
    ensures forall r :: r in CorpusResults(corpus, md, hits) <==>
      exists h :: h in hits && Kept(md, h) && r == Tagged(corpus, md, h)
  {
    if hits != [] {
      var init := hits[..|hits| - 1];
      CorpusResultsExact(corpus, md, init);
      assert hits == init + [hits[|hits| - 1]];
    }
  }

  /** Searching corpora one after another concatenates their results: ties
      are later broken by corpus order, then by hit order. */
  lemma {:induction false} CandidatesConcat(query: string, a: seq<string>, b: seq<string>,
                                            indexes: map<string, Index>, metadata: map<string, seq<MetadataRecord>>,
                                            k: int, ann: AnnSearch)
    requires indexes.Keys <= metadata.Keys
    ensures Candidates(query, a + b, indexes, metadata, k, ann)
         == Candidates(query, a, indexes, metadata, k, ann) + Candidates(query, b, indexes, metadata, k, ann)
  {
    if b == [] {
      assert a + b == a;
    } else {
      var init := b[..|b| - 1];
      CandidatesConcat(query, a, init, indexes, metadata, k, ann);
      assert (a + b)[..|a + b| - 1] == a + init;
      assert (a + b)[|a + b| - 1] == b[|b| - 1];
    }
  }

  /** Every candidate comes from a registered corpus among those searched and
      a hit of that corpus at a real position, and every such hit is one. */
  lemma {:induction false} CandidatesExact(query: string, corpora: seq<string>, indexes: map<string, Index>,
                                           metadata: map<string, seq<MetadataRecord>>, k: int, ann: AnnSearch)
    requires indexes.Keys <= metadata.Keys
    ensures forall r :: r in Candidates(query, corpora, indexes, metadata, k, ann) <==>
      exists c, h :: c in corpora && c in indexes && h in ann(query, indexes[c], k) &&
                     Kept(metadata[c], h) && r == Tagged(c, metadata[c], h)
  {
    if corpora != [] {
      var init, c := corpora[..|corpora| - 1], corpora[|corpora| - 1];
      CandidatesExact(query, init, indexes, metadata, k, ann);
      assert corpora == init + [c];
      if c in indexes {
        CorpusResultsExact(c, metadata[c], ann(query, indexes[c], k));
      }
    }
  }

  /** The search result: ranked by score, `min(k, candidates)` long for
      `k >= 0`, made only of annotated records at real hit positions, never
      leaving out a candidate that outscores a kept one, and keeping
      candidate order among equal scores. */
  lemma SearchResultsRanked(query: string, corpora: seq<string>, indexes: map<string, Index>,
                            metadata: map<string, seq<MetadataRecord>>, k: int, ann: AnnSearch)
    requires indexes.Keys <= metadata.Keys
    ensures SortedDesc(SearchSpec(query, corpora, indexes, metadata, k, ann))
    ensures k >= 0 ==> |SearchSpec(query, corpora, indexes, metadata, k, ann)|
                       == Min(k, |Candidates(query, corpora, indexes, metadata, k, ann)|)
    ensures forall r :: r in SearchSpec(query, corpora, indexes, metadata, k, ann) ==>
      exists c, h :: c in corpora && c in indexes && h in ann(query, indexes[c], k) &&
                     Kept(metadata[c], h) && r == Tagged(c, metadata[c], h)
    ensures forall x, y ::
      (x in Candidates(query, corpora, indexes, metadata, k, ann) &&
       x !in SearchSpec(query, corpora, indexes, metadata, k, ann) &&
       y in SearchSpec(query, corpora, indexes, metadata, k, ann)) ==> x.similarityScore <= y.similarityScore
    ensures forall s :: WithScore(SearchSpec(query, corpora, indexes, metadata, k, ann), s)
                        <= WithScore(Candidates(query, corpora, indexes, metadata, k, ann), s)
  {
    var cands := Candidates(query, corpora, indexes, metadata, k, ann);
    TopK(cands, k);
    CandidatesExact(query, corpora, indexes, metadata, k, ann);
    forall r | r in SearchSpec(query, corpora, indexes, metadata, k, ann)
      ensures r in cands
    {
      assert r in multiset(TopResults(cands, k));
    }
  }

  /* The join as the source writes it: the guard tests only the upper bound
     and the record is then fetched with Python's list indexing, where a
     negative position counts from the end. */

  /** Python's `xs[p]`; `None` stands for the IndexError it raises. */
  function PyIndex<T>(xs: seq<T>, p: int): Option<T> {
    if 0 <= p < |xs| then Some(xs[p])
    else if -|xs| <= p < 0 then Some(xs[|xs| + p])
    else None
  }

  /** One corpus's results with the guard `position < len(metadata)`;
      `None` is the IndexError that escapes the search. */
  function CorpusResultsAsWritten(corpus: string, md: seq<MetadataRecord>, hits: seq<Hit>): Option<seq<SearchResult>> {
    if hits == [] then Some([])
    else
      var h := hits[|hits| - 1];
      var prev := CorpusResultsAsWritten(corpus, md, hits[..|hits| - 1]);
      if prev.None? || h.position >= |md| then prev
      else if PyIndex(md, h.position).None? then None
      else Some(prev.value + [SearchResult(PyIndex(md, h.position).value, h.score, corpus)])
  }

  /** On hits with non-negative positions the two guards agree. */
  lemma {:induction false} AsWrittenAgreesOnRealPositions(corpus: string, md: seq<MetadataRecord>, hits: seq<Hit>)
    requires forall h :: h in hits ==> h.position >= 0
    ensures CorpusResultsAsWritten(corpus, md, hits) == Some(CorpusResults(corpus, md, hits))
  {
    if hits != [] {
      var init := hits[..|hits| - 1];
      assert forall h :: h in init ==> h in hits;
      var h := hits[|hits| - 1];
      assert h in hits;
      AsWrittenAgreesOnRealPositions(corpus, md, init);
      var prev := CorpusResultsAsWritten(corpus, md, init);
      assert prev == Some(CorpusResults(corpus, md, init));
      if Kept(md, h) {
        assert PyIndex(md, h.position) == Some(md[h.position]);
        assert CorpusResultsAsWritten(corpus, md, hits) == Some(prev.value + [Tagged(corpus, md, h)]);
        assert CorpusResults(corpus, md, hits) == CorpusResults(corpus, md, init) + [Tagged(corpus, md, h)];
      } else {
        assert h.position >= |md|;
        assert CorpusResultsAsWritten(corpus, md, hits) == prev;
        assert CorpusResults(corpus, md, hits) == CorpusResults(corpus, md, init) + [];
        assert CorpusResults(corpus, md, init) + [] == CorpusResults(corpus, md, init);
      }
    }
  }

  /** A corpus of three records searched with k = 5: the search library fills
      the two slots it has no neighbour for with position -1. As written,
      both padding slots pass the guard and come back as copies of the last
      record, so five results are returned for a three-record corpus; the
      corrected guard returns the three found neighbours. */
  lemma PaddingSlotsBecomeResults(corpus: string, md: seq<MetadataRecord>, hits: seq<Hit>)
    requires |md| == 3
    requires hits == [Hit(90, 0), Hit(80, 1), Hit(70, 2), Hit(-100, -1), Hit(-100, -1)]
    ensures CorpusResultsAsWritten(corpus, md, hits) == Some([
      SearchResult(md[0], 90, corpus), SearchResult(md[1], 80, corpus), SearchResult(md[2], 70, corpus),
      SearchResult(md[2], -100, corpus), SearchResult(md[2], -100, corpus)])
    ensures CorpusResults(corpus, md, hits) == [
      SearchResult(md[0], 90, corpus), SearchResult(md[1], 80, corpus), SearchResult(md[2], 70, corpus)]
  {
    var found := [SearchResult(md[0], 90, corpus), SearchResult(md[1], 80, corpus), SearchResult(md[2], 70, corpus)];
    var pad := SearchResult(md[2], -100, corpus);
    assert hits[..1][..0] == [];
    assert hits[..2][..1] == hits[..1];
    assert hits[..3][..2] == hits[..2];
    assert hits[..4][..3] == hits[..3];
    assert hits[..4] == hits[..|hits| - 1];
    assert CorpusResults(corpus, md, hits[..1]) == [] + found[..1];
    assert CorpusResults(corpus, md, hits[..2]) == found[..1] + found[1..2];
    assert CorpusResults(corpus, md, hits[..3]) == found[..2] + found[2..3];
    assert found[..3] == found;
    assert CorpusResults(corpus, md, hits[..4]) == found + [];
    assert found + [] == found;
    AsWrittenAgreesOnRealPositions(corpus, md, hits[..3]);
    assert PyIndex(md, -1) == Some(md[2]);
    assert CorpusResultsAsWritten(corpus, md, hits[..4]) == Some(found + [pad]);
    assert CorpusResultsAsWritten(corpus, md, hits) == Some(found + [pad] + [pad]);
    assert found + [pad] + [pad] == [found[0], found[1], found[2], pad, pad];
  }
}
