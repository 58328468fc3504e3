/** The match record that both searcher revisions return (Go's `search.Result`). */
module SearchResult {

  /** `phrase` is the matched text and `[posS, posE)` its byte offsets in the content. */
  datatype Result = Result(phrase: string, posS: int, posE: int)

  /** Go's zero value `Result{}`, returned beside every error. */
  const NoResult := Result("", 0, 0)

  /** "pattern not found", and the run-time panic of an out-of-range slice index. */
  datatype SearchError = PatternNotFound | IndexOutOfRange

  /** The result names a slice of `content` and carries that slice's text. */
  predicate Locates(r: Result, content: string) {
    0 <= r.posS <= r.posE <= |content| && r.phrase == content[r.posS..r.posE]
  }
}
