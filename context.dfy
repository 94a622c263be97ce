/**
 Context assembly: turning ranked search results into the block of
 bilingual examples that is placed in front of a translation request.
 */
module ContextAssembly {
  import opened CorpusTypes
  import opened LanguageNames
  import opened Ranking

  const Header: string := "Translation examples:\n"
  const Separator: string := "\n\n"

  /** A result can serve as an example when its entry has both English and
      the target language. */
  predicate Eligible(r: SearchResult, target: LanguageCode) {
    "en" in r.record.translations && target in r.record.translations
  }

  /** `English: "<en>"` and `<Language>: "<text>"` on two lines. */
  function FormatExample(t: Entry, target: LanguageCode): (r: string)
    requires "en" in t && target in t
    ensures "English: \"" + t["en"] + "\"\n" <= r
    ensures |r| >= |GetLanguageName(target) + ": \"" + t[target] + "\""|
    ensures r[|r| - |GetLanguageName(target) + ": \"" + t[target] + "\""|..]
      == GetLanguageName(target) + ": \"" + t[target] + "\""
  {
    "English: \"" + t["en"] + "\"\n" + GetLanguageName(target) + ": \"" + t[target] + "\""
  }

  /** Every eligible result formatted, in rank order. */
  function EligibleExamples(results: seq<SearchResult>, target: LanguageCode): seq<string> {
    if results == [] then []
    else
      var r := results[|results| - 1];
      EligibleExamples(results[..|results| - 1], target)
        + (if Eligible(r, target) then [FormatExample(r.record.translations, target)] else [])
  }

  /** How many examples the loop collects at most: it appends before it
      compares with `max_examples`, so a limit below one still lets one
      example through. */
  function ExampleLimit(maxExamples: int): nat {
    if maxExamples >= 1 then maxExamples else 1
  }

  /** The examples the assembly keeps: the first eligible ones, up to the limit. */
  function SelectedExamples(results: seq<SearchResult>, target: LanguageCode, maxExamples: int): seq<string> {
    SliceTo(EligibleExamples(results, target), ExampleLimit(maxExamples))
  }

  /** Sum of the lengths of `parts`. */
  function TotalLength(parts: seq<string>): nat {
    if parts == [] then 0 else |parts[0]| + TotalLength(parts[1..])
  }

  /** Python's `sep.join(parts)`. */
  function JoinWith(sep: string, parts: seq<string>): (r: string)
    ensures parts == [] ==> r == ""
    ensures parts != [] ==> parts[0] <= r
    ensures parts != [] ==> |r| == TotalLength(parts) + (|parts| - 1) * |sep|
    ensures parts != [] ==> |parts[|parts| - 1]| <= |r|
    ensures parts != [] ==> r[|r| - |parts[|parts| - 1]|..] == parts[|parts| - 1]
  {
    if parts == [] then ""
    else if |parts| == 1 then parts[0]
    else
      var head, rest := parts[0] + sep, JoinWith(sep, parts[1..]);
      assert parts[1..][|parts[1..]| - 1] == parts[|parts| - 1];
      assert (head + rest)[|head + rest| - |parts[|parts| - 1]|..] == rest[|rest| - |parts[|parts| - 1]|..];
      head + rest
  }

  /** The context block: empty when there is no example, otherwise the
      header, the examples separated by blank lines, and a closing blank
      line. */
  function RenderContext(examples: seq<string>): (s: string)
    ensures s == "" <==> examples == []
    ensures examples != [] ==> Header <= s && s[|s| - |Separator|..] == Separator
  {
    if examples == [] then "" else Header + JoinWith(Separator, examples) + Separator
  }

  lemma {:induction false} EligibleExamplesConcat(a: seq<SearchResult>, b: seq<SearchResult>, target: LanguageCode)
    ensures EligibleExamples(a + b, target) == EligibleExamples(a, target) + EligibleExamples(b, target)
  {
    if b == [] {
      assert a + b == a;
    } else {
      var init := b[..|b| - 1];
      EligibleExamplesConcat(a, init, target);
      assert (a + b)[..|a + b| - 1] == a + init;
      assert (a + b)[|a + b| - 1] == b[|b| - 1];
    }
  }

  /** Each example is the formatted entry of an eligible result, there are
      no more examples than results, and there are none exactly when no
      result is eligible. */
  lemma {:induction false} EligibleExamplesExact(results: seq<SearchResult>, target: LanguageCode)
    ensures |EligibleExamples(results, target)| <= |results|
    ensures forall e :: e in EligibleExamples(results, target) ==>
      exists r :: r in results && Eligible(r, target) && e == FormatExample(r.record.translations, target)
    ensures EligibleExamples(results, target) == [] <==> forall r :: r in results ==> !Eligible(r, target)
  {
    if results != [] {
      var init := results[..|results| - 1];
      EligibleExamplesExact(init, target);
      assert results == init + [results[|results| - 1]];
    }
  }

  /** The assembled context is empty exactly when no retrieved result has
      both English and the target language; otherwise it holds between one
      and `max(1, max_examples)` examples, the first eligible ones in rank
      order, each taken from an eligible result. The two upper bounds on the
      number of examples are corollaries of the exact count, kept because
      they read as the loop's stopping rule. */
  lemma ContextExamplesBound(results: seq<SearchResult>, target: LanguageCode, maxExamples: int)
    ensures RenderContext(SelectedExamples(results, target, maxExamples)) == "" <==>
      forall r :: r in results ==> !Eligible(r, target)
    ensures |SelectedExamples(results, target, maxExamples)| <= ExampleLimit(maxExamples)
    ensures |SelectedExamples(results, target, maxExamples)|
      == Min(ExampleLimit(maxExamples), |EligibleExamples(results, target)|)
    ensures maxExamples >= 1 ==> |SelectedExamples(results, target, maxExamples)| <= maxExamples
    ensures SelectedExamples(results, target, maxExamples) <= EligibleExamples(results, target)
    ensures forall e :: e in SelectedExamples(results, target, maxExamples) ==>
      exists r :: r in results && Eligible(r, target) && e == FormatExample(r.record.translations, target)
  {
    EligibleExamplesExact(results, target);
    var all := EligibleExamples(results, target);
    var picked := SelectedExamples(results, target, maxExamples);
    assert picked == all[..|picked|];
    assert forall e :: e in picked ==> e in all;
  }

  /** The collecting loop of the context assembly: walks the results in rank
      order, appends every eligible one, and stops once `max_examples`
      examples are collected. */
  method CollectExamples(results: seq<SearchResult>, target: LanguageCode, maxExamples: int)
    returns (examples: seq<string>)
    ensures examples == SelectedExamples(results, target, maxExamples)
  {
    examples := [];
    var i := 0;
    while i < |results|
      invariant 0 <= i <= |results|
      invariant examples == EligibleExamples(results[..i], target)
      invariant |examples| < ExampleLimit(maxExamples)
    {
      var translations := results[i].record.translations;
      assert results[..i + 1][..i] == results[..i];
      if "en" in translations && target in translations {
        examples := examples + [FormatExample(translations, target)];
        if |examples| >= maxExamples {
          EligibleExamplesConcat(results[..i + 1], results[i + 1..], target);
          assert results[..i + 1] + results[i + 1..] == results;
          return;
        }
      }
      i := i + 1;
    }
    assert results[..i] == results;
  }
}
