/**
 What `build_vector_index` extracts from a corpus before embedding it: the
 source-language texts, and one metadata record per entry that has the
 source language, both in corpus order.
 */
module IndexBuilder {
  import opened CorpusTypes

  /** The source-language text of every entry that has one, in corpus order. */
  function SourceTexts(data: seq<Entry>, lang: LanguageCode): seq<string> {
    if data == [] then []
    else
      var last := data[|data| - 1];
      SourceTexts(data[..|data| - 1], lang) + (if lang in last then [last[lang]] else [])
  }

  /** One record per entry that has the source language, carrying the corpus
      name, the entry's position in the corpus and the whole entry. */
  function IndexRecords(name: string, data: seq<Entry>, lang: LanguageCode): seq<MetadataRecord> {
    if data == [] then []
    else
      var last := data[|data| - 1];
      IndexRecords(name, data[..|data| - 1], lang)
        + (if lang in last then [MetadataRecord(name, |data| - 1, last)] else [])
  }

  /** Each record points at an entry that has the source language and
      carries that entry whole, under the corpus name. */
  lemma {:induction false} IndexRecordsSound(name: string, data: seq<Entry>, lang: LanguageCode)
    ensures forall j :: 0 <= j < |IndexRecords(name, data, lang)| ==>
      && 0 <= IndexRecords(name, data, lang)[j].index < |data|
      && IndexRecords(name, data, lang)[j].corpus == name
      && IndexRecords(name, data, lang)[j].translations == data[IndexRecords(name, data, lang)[j].index]
      && lang in IndexRecords(name, data, lang)[j].translations
  {
    if data != [] {
      var init := data[..|data| - 1];
      IndexRecordsSound(name, init, lang);
      var prev, recs := IndexRecords(name, init, lang), IndexRecords(name, data, lang);
      var last := data[|data| - 1];
      assert recs == prev + (if lang in last then [MetadataRecord(name, |data| - 1, last)] else []);
      forall j | 0 <= j < |recs|
        ensures 0 <= recs[j].index < |data| && recs[j].translations == data[recs[j].index]
      {
        if j < |prev| {
          assert recs[j] == prev[j];
          assert init[prev[j].index] == data[prev[j].index];
        }
      }
    }
  }

  /** Records follow corpus order and no entry is recorded twice: positions
      strictly increase, and all lie below the corpus length. */
  lemma {:induction false} IndexRecordsOrdered(name: string, data: seq<Entry>, lang: LanguageCode)
    ensures forall j :: 0 <= j < |IndexRecords(name, data, lang)| ==>
      0 <= IndexRecords(name, data, lang)[j].index < |data|
    ensures forall i, j :: 0 <= i < j < |IndexRecords(name, data, lang)| ==>
      IndexRecords(name, data, lang)[i].index < IndexRecords(name, data, lang)[j].index
  {
    if data != [] {
      var init := data[..|data| - 1];
      IndexRecordsOrdered(name, init, lang);
      var prev, recs := IndexRecords(name, init, lang), IndexRecords(name, data, lang);
      var last := data[|data| - 1];
      assert recs == prev + (if lang in last then [MetadataRecord(name, |data| - 1, last)] else []);
      assert forall j :: 0 <= j < |prev| ==> recs[j] == prev[j];
    }
  }

  /** No entry that has the source language is left out. */
  lemma {:induction false} IndexRecordsComplete(name: string, data: seq<Entry>, lang: LanguageCode, p: int)
    requires 0 <= p < |data| && lang in data[p]
    ensures exists j ::
      && 0 <= j < |IndexRecords(name, data, lang)|
      && IndexRecords(name, data, lang)[j].index == p
      && IndexRecords(name, data, lang)[j].translations == data[p]
  {
    var init := data[..|data| - 1];
    var prev, recs := IndexRecords(name, init, lang), IndexRecords(name, data, lang);
    var last := data[|data| - 1];
    assert recs == prev + (if lang in last then [MetadataRecord(name, |data| - 1, last)] else []);
    if p < |data| - 1 {
      IndexRecordsComplete(name, init, lang, p);
      var j :| 0 <= j < |prev| && prev[j].index == p && prev[j].translations == init[p];
      assert recs[j] == prev[j];
    } else {
      assert recs[|recs| - 1].index == p;
    }
  }

  /** The index and the metadata stay aligned: as many texts as records, and
      text `j` is the source-language text of record `j`. */
  lemma {:induction false} TextsAlignWithRecords(name: string, data: seq<Entry>, lang: LanguageCode)
    ensures |SourceTexts(data, lang)| == |IndexRecords(name, data, lang)|
    ensures forall j :: 0 <= j < |IndexRecords(name, data, lang)| ==>
      lang in IndexRecords(name, data, lang)[j].translations &&
      SourceTexts(data, lang)[j] == IndexRecords(name, data, lang)[j].translations[lang]
  {
    if data != [] {
      TextsAlignWithRecords(name, data[..|data| - 1], lang);
    }
  }

  /** Nothing is indexed exactly when no entry has the source language. */
  lemma {:induction false} NoRecordsIffNoSourceText(name: string, data: seq<Entry>, lang: LanguageCode)
    ensures IndexRecords(name, data, lang) == [] <==> forall p :: 0 <= p < |data| ==> lang !in data[p]
  {
    if data != [] {
      var init := data[..|data| - 1];
      NoRecordsIffNoSourceText(name, init, lang);
      assert forall p :: 0 <= p < |init| ==> init[p] == data[p];
    }
  }
}
