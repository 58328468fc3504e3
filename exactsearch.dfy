/** The exact-match searcher of the earlier revision: the leftmost occurrence
    of the phrase, found with `strings.Index`. */
module ExactSearch {
  import opened Wrappers
  import opened GoStrings
  import opened SearchResult

  /** `localSearcher.Search(content, phrase)`: "pattern not found" when the
      phrase occurs nowhere, otherwise the leftmost occurrence. */
  function Search(content: string, phrase: string): (r: Ret<Result, SearchError>)
    ensures r.err.Some? <==> forall k :: 0 <= k <= |content| ==> !OccursAt(content, phrase, k)
    ensures r.err.Some? ==> r == Ret(NoResult, Some(PatternNotFound))
    ensures r.Ok() ==> Locates(r.value, content) && r.value.phrase == phrase
    ensures r.Ok() ==> r.value.posE == r.value.posS + |phrase|
    ensures r.Ok() ==> forall k :: 0 <= k < r.value.posS ==> !OccursAt(content, phrase, k)
  {
    var idx := Index(content, phrase);
    if idx == -1 then Ret(NoResult, Some(PatternNotFound))
    else
      var idx2 := idx + |phrase|;
      Ret(Result(content[idx..idx2], idx, idx2), None)
  }

  /** Whenever the phrase occurs at `k`, the search succeeds, at `k` or earlier;
      and it reports `k` exactly when no occurrence lies before `k`. */
  lemma SearchIsLeftmost(content: string, phrase: string, k: nat)
    requires OccursAt(content, phrase, k)
    ensures Search(content, phrase).Ok()
    ensures Search(content, phrase).value.posS <= k
    ensures Search(content, phrase).value.posS == k <==> forall k' :: 0 <= k' < k ==> !OccursAt(content, phrase, k')
  {
    var r := Search(content, phrase);
    if r.value.posS < k {
      assert OccursAt(content, phrase, r.value.posS);
    }
  }

  /** The empty phrase occurs at offset 0 of every content. */
  lemma EmptyPhraseAtStart(content: string)
    ensures Search(content, "") == Ret(Result("", 0, 0), None)
  {
    assert OccursAt(content, "", 0);
    SearchIsLeftmost(content, "", 0);
  }

  /** "bc" in "abcd" is found at offsets 1 to 3. */
  lemma SearchExample()
    ensures Search("abcd", "bc") == Ret(Result("bc", 1, 3), None)
  {
    assert OccursAt("abcd", "bc", 1);
    assert "abcd"[0..2] == "ab";
    SearchIsLeftmost("abcd", "bc", 1);
  }
}
