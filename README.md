# fuzyy-search in Dafny

A model of the sequential core of a Go web service that looks for a phrase in
the texts of Project Gutenberg books. A query names a title and a phrase.

1. The service resolves the title to a listing of books.
2. It takes each book's text from a cache or downloads it, trying up to
   three times.
3. It searches each text with a fuzzy phrase matcher.
4. It answers with the paragraph around the match.

The answer, the listing and each book's text are cached.

The project has these modules:

- `FuzzySearch` (fuzzysearch.dfy) is the fuzzy matcher. `BookFields` is a
  two-state whitespace tokenizer that records the byte offsets of every
  token. `Search` keeps the tokens close to the first phrase word as anchors
  and aligns the rest of the phrase token by token. The distance test of the
  fuzzy library is a parameter, `dist`, that returns an optional distance.
- `ExactSearch` (exactsearch.dfy) is the earlier exact-match searcher: the
  leftmost occurrence of the phrase.
- `Context` and `UncappedContext` (context.dfy) are the two revisions of the
  paragraph extractor. The current one stops at a blank line or past offset
  200. The earlier one has no cap and fails without a blank line.
- `Caches` (cache.dfy) is the cache abstraction: a class over a `map`, either
  a memory store or a disabled store that always misses.
- `GutenbergSearch` (gutenbergsearch.dfy) holds the sequential parts of the
  orchestrator:
  - the composite cache key and the random delay;
  - listing resolution through the listing cache;
  - the answer-cache short-circuit;
  - the split of a listing into cached books and books to download;
  - the per-book retry block.
- `Config` (config.dfy) holds the configuration converters: `stringToBool`,
  the hand-written `stringToDuration` parser, the fallback helpers and the
  default settings.
- `Data` (data.dfy) is the book constructor `NewBook` and `Book.ID`.
- The support modules are `GoStrings`, `SearchResult` and `Wrappers`.
  - `GoStrings` (gostrings.dfy) holds the parts of Go's `strings` and
    `strconv` that the core calls: `Fields`, `Index`, `ToLower`, `HasPrefix`
    and `Atoi`.
  - `SearchResult` (searchresult.dfy) is the shared `Result` record.
  - `Wrappers` (wrappers.dfy) holds `Option`, and `Ret`, which stands for a
    Go `(value, error)` pair.

Strings are `seq<char>`, and every character is taken to be one byte (ASCII
text). Under that assumption the byte offsets that Go's `range` and slicing
use are sequence indices. A Go function that returns a value and an error
becomes a `Ret(value, err)`, so the zero value that goes with each error is
part of every contract.

Each imperative source function is a method proved against a reference
function. The lemmas about that function state what the source promises:

- `BookFields` against `Tokens`/`Texts`;
- the fuzzy `Search` loops against `Anchors`/`CandidatesOf`;
- `ProvideContext` against `Excerpt`/`Paragraph`;
- `stringToDuration` against `ParseDuration`;
- the retry loop against `Retry`;
- the partition and feeder loops against `CacheHits`/`Misses`.

## Model

| member | source | states |
|---|---|---|
| FuzzySearch.BookFields | src/internal/pkg/search/search.go:30-64 | the loop reports exactly the reference tokens `Tokens(s)` and their texts `Texts(s)`; an empty text gives no fields and no indexes |
| FuzzySearch.ScanUpToPending | src/internal/pkg/search/search.go:47-62 | after any prefix of the scan, the offsets reported so far followed by those still pending in the current state are the tokens of the text |
| FuzzySearch.ScanReportsTokens | src/internal/pkg/search/search.go:38-62 | the whole two-state scan reports exactly `Tokens(s)` |
| FuzzySearch.TokensInOrder | src/internal/pkg/search/search.go:48-55 | every index pair lies inside the text with `a <= b`, pairs are strictly increasing and disjoint, and only a leading '\r' yields an empty pair |
| FuzzySearch.TextsAt | src/internal/pkg/search/search.go:52-53 | fields and indexes have equal length and field `j` is the text between the offsets of index `j` |
| FuzzySearch.TokensClosed | src/internal/pkg/search/search.go:48-55 | every token ends at the offset of the white space that closed it and holds no white space |
| FuzzySearch.TextsHaveNoSpace | src/internal/pkg/search/search.go:50-53 | no field contains space, tab, '\n' or '\r' |
| FuzzySearch.TokensCover | src/internal/pkg/search/search.go:48-62 | every text character with white space somewhere after it lies inside some token |
| FuzzySearch.UnclosedTailDropped | src/internal/pkg/search/search.go:48-62 | text after the last white space is never reported |
| FuzzySearch.TokensExamples | src/internal/pkg/search/search.go:34-62 | "ab cd" drops "cd"; "ab cd " keeps both; a leading '\r' gives the empty pair (0,0); "" gives nothing |
| FuzzySearch.RanksOf | src/internal/pkg/search/search.go:82 | every rank names a target that matches the source and carries its distance |
| FuzzySearch.RanksOfComplete | src/internal/pkg/search/search.go:82 | every matching target is ranked |
| FuzzySearch.RanksOfIncreasing | src/internal/pkg/search/search.go:82 | ranks come in strictly increasing target order |
| FuzzySearch.RankFindFoldOne | src/internal/pkg/search/search.go:82 | one target is ranked, with its distance at position 0, exactly when it matches |
| FuzzySearch.NewSearcher | src/internal/pkg/search/search.go:133-142 | the searcher keeps `maxDistance` and always has random selection on |
| FuzzySearch.NewSearcherIgnoresFlag | src/internal/pkg/search/search.go:133-142 | the `randomResult` argument has no effect on the searcher built |
| FuzzySearch.KeepClose | src/internal/pkg/search/search.go:85-90 | every kept rank is one of the ranks and within `maxDistance` |
| FuzzySearch.KeepCloseComplete | src/internal/pkg/search/search.go:85-90 | every rank within `maxDistance` is kept |
| FuzzySearch.KeepCloseIncreasing | src/internal/pkg/search/search.go:85-90 | filtering keeps the target order |
| FuzzySearch.FilterRanks | src/internal/pkg/search/search.go:84-90 | the filter loop yields exactly `KeepClose(ranks, maxDistance)` |
| FuzzySearch.AnchorsIncreasing | src/internal/pkg/search/search.go:82-90 | the anchors are in increasing token order |
| FuzzySearch.AnchorIsClose | src/internal/pkg/search/search.go:82-90 | every anchor is a token within `maxDistance` of the first phrase word, with that distance |
| FuzzySearch.CloseIsAnchor | src/internal/pkg/search/search.go:82-90 | every token within `maxDistance` of the first phrase word is an anchor |
| FuzzySearch.AnchorsExactly | src/internal/pkg/search/search.go:82-90 | token `j` is an anchor if and only if it is close to the first phrase word |
| FuzzySearch.MatchSpanCovers | src/internal/pkg/search/search.go:106-111 | a match span lies inside the text and covers every token from the anchor to the last aligned token |
| FuzzySearch.Align | src/internal/pkg/search/search.go:96-112 | the inner loop panics (IndexOutOfRange) exactly when the phrase runs past the last token; otherwise it records the joined span exactly when the phrase has two or more words and the last word is close to its aligned token |
| FuzzySearch.CollectStep | src/internal/pkg/search/search.go:95-113 | one anchor step of the outer loop extends the candidates of the anchors before it |
| FuzzySearch.Collect | src/internal/pkg/search/search.go:95-113 | the outer loop panics exactly when some anchor leaves no room for the phrase; otherwise it records exactly `CandidatesOf` the anchors |
| FuzzySearch.FitsPrefix | src/internal/pkg/search/search.go:96-98 | an anchor that leaves room extends a prefix of anchors that all leave room |
| FuzzySearch.CandidatesOfSnoc | src/internal/pkg/search/search.go:95-113 | the candidates of a list of anchors are those of its prefix, plus the last anchor's span when it is recorded |
| FuzzySearch.CandidateOfIsAligned | src/internal/pkg/search/search.go:95-111 | every recorded span is the joined span of an anchor whose last aligned field is close to the last phrase word |
| FuzzySearch.AlignedIsCandidateOf | src/internal/pkg/search/search.go:95-111 | every anchor whose last aligned field is close to the last phrase word has its span recorded |
| FuzzySearch.CandidateIsAlignedOf | src/internal/pkg/search/search.go:95-111 | every candidate starts at a token close to the first phrase word and ends at a token close to the last |
| FuzzySearch.CandidateIsAligned | src/internal/pkg/search/search.go:95-111 | every candidate is the match span of a token `j` close to the first phrase word whose token `j + n - 1` is close to the last |
| FuzzySearch.AlignedIsCandidate | src/internal/pkg/search/search.go:95-111 | conversely, every such `j` has its match span among the candidates |
| FuzzySearch.JoinMonotone | src/internal/pkg/search/search.go:106-111 | joined spans of equal length over ordered tokens start and end later for a later anchor |
| FuzzySearch.CandidatesOfInside | src/internal/pkg/search/search.go:106-111 | every recorded span lies inside the text |
| FuzzySearch.CandidatesOfInOrder | src/internal/pkg/search/search.go:95-113 | spans recorded for increasing anchors have strictly increasing starts and ends |
| FuzzySearch.CandidatesInOrder | src/internal/pkg/search/search.go:119-124 | the candidates lie inside the text and increase, so the first one is the lowest anchor's |
| FuzzySearch.SingleWordNeverMatches | src/internal/pkg/search/search.go:95-111 | a one-word phrase never panics and never records a candidate |
| FuzzySearch.MiddleWordsIgnoredOf | src/internal/pkg/search/search.go:99-105 | phrases that agree on the last word record the same spans for the same anchors |
| FuzzySearch.MiddleWordsIgnored | src/internal/pkg/search/search.go:99-105 | phrases that agree on their first and last words have the same candidates: middle-word mismatches are ignored |
| FuzzySearch.Search | src/internal/pkg/search/search.go:71-131 | no phrase words, no anchor or no candidate gives "pattern not found"; an anchor too close to the end gives the panic; otherwise the result is a candidate whose phrase is the content between its offsets, and the first candidate when random selection is off |
| ExactSearch.Search | internal/pkg/search/search.go:19-32 | "pattern not found" with the zero result exactly when the phrase never occurs; otherwise the result is the phrase, at its leftmost occurrence, with `PosE == PosS + len(phrase)` |
| ExactSearch.SearchIsLeftmost | internal/pkg/search/search.go:20 | an occurrence at `k` makes the search succeed at `k` or earlier, and at `k` exactly when none comes before |
| ExactSearch.EmptyPhraseAtStart | internal/pkg/search/search.go:19-32 | the empty phrase is found at offset 0 |
| ExactSearch.SearchExample | internal/pkg/search/search_test.go:21-25 | "bc" in "abcd" is `{Phrase:"bc", PosS:1, PosE:3}` |
| Context.FirstBlankFrom | src/internal/pkg/context/context.go:15-18 | the offset found is a blank line with none before it, and none means there is no blank line |
| Context.FirstBlankIs | src/internal/pkg/context/context.go:15-18 | a blank line with none before it is the first blank line |
| Context.ProvideContext | src/internal/pkg/context/context.go:13-26 | the loop selects exactly `Excerpt(content[PosS:])`, and fails with "context selection failed" and "" exactly when there is none; `PosB` is not read |
| Context.ExcerptIsPrefix | src/internal/pkg/context/context.go:15-23 | the excerpt is a prefix of the scanned text, at most 201 bytes long, with no blank line |
| Context.ExcerptFailsIff | src/internal/pkg/context/context.go:15-25 | selection fails exactly when the text has no blank line and ends by offset 201 |
| Context.ExcerptTruncates | src/internal/pkg/context/context.go:21-23 | with no blank line by offset 201, a longer text is cut after 201 bytes |
| Context.ParagraphExcerpt | src/internal/pkg/context/context.go:15-18 | a short paragraph followed by a blank line is selected whole, without either line feed |
| UncappedContext.ProvideContext | src/context/context.go:13-22 | the loop selects exactly `Paragraph(content[PosS:])`, and fails with "context not selected" and "" exactly when there is none; `PosB` is not read |
| UncappedContext.ParagraphIsPrefix | src/context/context.go:15-21 | there is a paragraph exactly when a blank line follows; it is a prefix with no blank line and no trailing line feed |
| UncappedContext.ParagraphSelected | src/context/context.go:15-18 | a paragraph followed by a blank line is selected whole, whatever its length |
| UncappedContext.CappedAgrees | src/internal/pkg/context/context.go:15-23 | both revisions agree whenever the first blank line ends by offset 201 |
| UncappedContext.SecondParagraphExample | src/context/context_test.go:36-52 | a match inside the second paragraph selects the text from the match to the end of that paragraph |
| Caches.Cache.constructor | src/internal/app/gutenbergsearch/cache.go:31-37 | an enabled cache is an empty memory store with the given expiration and cleanup interval; a disabled one is the dummy |
| Caches.Cache.Lookup | src/internal/app/gutenbergsearch/cache.go:18-28 | the dummy always misses; the memory store hits exactly on its keys, with the stored value |
| Caches.Cache.Get | src/internal/app/gutenbergsearch/cache.go:18-28 | `Get` answers `Lookup(key)` and changes nothing |
| Caches.Cache.Set | src/internal/app/gutenbergsearch/cache.go:22-29 | on a memory store `Get(key)` then yields the value; on the dummy it still misses; every other key is unchanged; there is no failure |
| Data.NewBook | src/internal/pkg/data/provider.go:34-48 | an empty link reference is refused with the zero book; otherwise title and author are kept and the ID starts with "/", kept verbatim when present and prepended when not |
| Data.NewBookIdempotent | src/internal/pkg/data/provider.go:39-41 | a book built from another book's ID has that same ID |
| Data.SlashInsensitive | src/internal/pkg/data/provider.go:39-41 | a link reference with or without its leading "/" gives the same ID |
| Config.StringToBool | src/cmd/api/config.go:11-20 | every error comes with `false` |
| Config.StringToBoolAccepts | src/cmd/api/config.go:11-20 | true exactly for "1" and any case of "true"; false exactly for "0" and any case of "false" |
| Config.StringToBoolExamples | src/cmd/api/config_test.go:59-105 | "1", "true", "TrUe", "0", "false" and "FaLsE" convert; "", "-1", "2" and "QWERTY" fail |
| Config.StringToBoolErrorExamples | src/cmd/api/config_test.go:83-105 | "-0", "999" and "asdf" fail with value false |
| Config.StringToBoolFallback | src/cmd/api/config.go:22-28 | the fallback exactly when conversion fails, the converted value otherwise |
| Config.DigitRun | src/cmd/api/config.go:50-57 | the run of leading digits ends at the first non-digit |
| Config.AtoiOneChar | src/cmd/api/config.go:51-55 | converting one character succeeds exactly on a digit |
| Config.LookupUnit | src/cmd/api/config.go:68-73 | the loop over the suffix map finds the suffix's unit, and 0 for an unknown suffix, in any iteration order |
| Config.ParseDuration | src/cmd/api/config.go:38-103 | every error comes with 0 |
| Config.StringToDuration | src/cmd/api/config.go:38-103 | the rune and suffix loops compute exactly `ParseDuration(s)` |
| Config.CompactParts | src/cmd/api/config.go:45-67 | a count written straight before a word not starting with a digit is one field whose digits and word split where they meet |
| Config.DurationRoundTrip | src/cmd/api/config.go:45-73 | "<digits><suffix>" reads back as count × unit for every count in the int64 range |
| Config.SpacedDurationRoundTrip | src/cmd/api/config.go:74-88 | "<int> <suffix>" reads back as count × unit for every signed count in the int64 range |
| Config.SignedCompactFails | src/cmd/api/config.go:50-60 | a sign before a count written straight before its suffix is refused with "no value number provided" |
| Config.SignAsymmetryExample | src/cmd/api/config.go:45-88 | "-5 s" is minus five seconds while "-5s" has no value number |
| Config.UnknownSuffixFails | src/cmd/api/config.go:67-73 | a count written straight before a word that is not a suffix fails with "suffix not supported" and 0 |
| Config.UnknownSpacedSuffixFails | src/cmd/api/config.go:83-101 | a count, a blank and a word that is not a suffix fail with "suffix not supported" and 0 |
| Config.NoValueNumberCases | src/cmd/api/config.go:50-60 | one field with no leading digit, or with digits only, fails with "no value number provided" |
| Config.TooManyFields | src/cmd/api/config.go:90-91 | no fields or more than two fields fail with the format error |
| Config.CompactDurationExample | src/cmd/api/config_test.go:18 | "592ms" is 592 milliseconds |
| Config.SpacedDurationExample | src/cmd/api/config_test.go:25 | "15 h" is 15 hours |
| Config.DayIsOneSecond | src/cmd/api/config.go:30-36 | the suffix "d" is one second, as "s" is |
| Config.EmptyDurationFails | src/cmd/api/config_test.go:44 | "" fails with 0 |
| Config.LetterValueFails | src/cmd/api/config_test.go:45 | "xd s" fails with 0 |
| Config.SuffixFirstFails | src/cmd/api/config_test.go:46 | "ms 254" fails with 0 |
| Config.StringToDurationFallback | src/cmd/api/config.go:112-118 | the fallback exactly when parsing fails, the parsed duration otherwise |
| Config.StringToIntFallback | src/cmd/api/config.go:120-126 | the fallback exactly when `Atoi` fails, the parsed integer otherwise |
| Config.StringFallback | src/cmd/api/config.go:105-110 | the fallback exactly for the empty string |
| Config.EmptyMeansFallback | src/cmd/api/config.go:105-126 | an empty setting leaves every converter at its fallback |
| Config.GetDefaultConfig | src/cmd/api/config.go:156-184 | all caches on, first match rather than random, a non-empty delay range, at least one worker, a non-negative distance, positive timeouts, and for each of the answer, listing and content caches an expiration longer than its positive cleanup interval |
| GoStrings.FieldsEmptyIff | src/internal/pkg/search/search.go:75-79 | a phrase has no words exactly when it is all white space |
| GoStrings.FieldsOfTwoWords | src/cmd/api/config.go:74-88 | two words separated by one blank are two fields |
| GoStrings.IndexFrom | internal/pkg/search/search.go:20 | the offset found is an occurrence with none before it, and -1 means none at all |
| GoStrings.AtoiDecimal | src/cmd/api/config.go:62-65 | `Atoi` reads back the decimal rendering of every count in the int64 range |
| GoStrings.AtoiItoa | src/cmd/api/config.go:78-81 | `Atoi` reads back the rendering of every signed int64, a leading minus included |
| GutenbergSearch.CacheKeyInjectiveWithoutSlash | src/internal/app/gutenbergsearch/gutenbergsearch.go:57-61 | keys of titles without "/" tell their title and phrase apart |
| GutenbergSearch.CacheKeyNotInjective | src/internal/app/gutenbergsearch/gutenbergsearch.go:57-61 | "a/b" with "c" and "a" with "b/c" share a key |
| GutenbergSearch.RandomDurationRange | src/internal/app/gutenbergsearch/gutenbergsearch.go:52-55 | the delay lies in `[a, b)` when `b > a` |
| GutenbergSearch.DataProvider.GetBooks | src/internal/pkg/data/provider.go:51 | the listing for the title, with the request logged |
| GutenbergSearch.DataProvider.DownloadBook | src/internal/pkg/data/provider.go:52 | the next reply in the given sequence of download outcomes, with the download logged |
| GutenbergSearch.CacheHits | src/internal/app/gutenbergsearch/gutenbergsearch.go:166-188 | no more books are queued than listed |
| GutenbergSearch.CacheHitsPrefix | src/internal/app/gutenbergsearch/gutenbergsearch.go:169-188 | the books queued from a prefix of the listing are a prefix of those queued from the whole listing |
| GutenbergSearch.OverflowAt | src/internal/app/gutenbergsearch/gutenbergsearch.go:160-188 | a cached entry met when 25 books are already queued means the listing overflows the channel, and the queued books are its first 25 hits |
| GutenbergSearch.CacheHitsInOrder | src/internal/app/gutenbergsearch/gutenbergsearch.go:166-188 | the queued books are the cached entries at strictly increasing listing positions, each with its cached content |
| GutenbergSearch.CacheHitsMembers | src/internal/app/gutenbergsearch/gutenbergsearch.go:166-188 | a book is queued exactly when it is listed and its ID hits the content cache, and it carries the cached content |
| GutenbergSearch.Misses | src/internal/app/gutenbergsearch/gutenbergsearch.go:212-221 | no more books are scheduled than listed |
| GutenbergSearch.MissesInOrder | src/internal/app/gutenbergsearch/gutenbergsearch.go:212-221 | the scheduled books are the unmarked entries at strictly increasing listing positions |
| GutenbergSearch.MissesMembers | src/internal/app/gutenbergsearch/gutenbergsearch.go:212-221 | a book is scheduled exactly when it is listed and not marked as processed |
| GutenbergSearch.PartitionCounts | src/internal/app/gutenbergsearch/gutenbergsearch.go:166-221 | every listed entry is either queued or scheduled, never both |
| GutenbergSearch.SkipHitIDs | src/internal/app/gutenbergsearch/gutenbergsearch.go:166-221 | skipping the IDs marked by the partition schedules exactly the cache misses |
| GutenbergSearch.SameSkips | src/internal/app/gutenbergsearch/gutenbergsearch.go:212-221 | skip sets that agree on the listed IDs schedule the same books |
| GutenbergSearch.RetrySettlesAt | src/internal/app/gutenbergsearch/gutenbergsearch.go:266-294 | the tries stop at the first reply that is not a network error: the text, or "" for a missing text |
| GutenbergSearch.RetryExhausted | src/internal/app/gutenbergsearch/gutenbergsearch.go:266-299 | when every try fails with a network error, all three calls are made and the book is dropped |
| GutenbergSearch.RetryBounds | src/internal/app/gutenbergsearch/gutenbergsearch.go:266-299 | at most three calls per book and at least one; the book is dropped exactly when every try is a network error |
| GutenbergSearch.Answer | src/internal/app/gutenbergsearch/gutenbergsearch.go:225-237 | a received result is the answer; a closed channel is `ErrPhraseNotFound` and a timeout `ErrTooLong`, both with "" |
| GutenbergSearch.Searcher.constructor | src/internal/app/gutenbergsearch/gutenbergsearch.go:80-109 | the searcher holds the given caches and provider |
| GutenbergSearch.Searcher.GetBookPositions | src/internal/app/gutenbergsearch/gutenbergsearch.go:124-139 | a listing-cache hit is returned without asking the provider; on a miss the provider is asked and only a successful listing is cached under the title |
| GutenbergSearch.Searcher.Partition | src/internal/app/gutenbergsearch/gutenbergsearch.go:160-188 | the send blocks exactly when more than 25 listed books are cached (the `booksToAnalyze` buffer); until then the loop queues exactly `CacheHits`, and without blocking it marks exactly their IDs |
| GutenbergSearch.Searcher.Feed | src/internal/app/gutenbergsearch/gutenbergsearch.go:212-223 | the feeder schedules exactly the unmarked entries, in listing order |
| GutenbergSearch.Searcher.TryDownload | src/internal/app/gutenbergsearch/gutenbergsearch.go:266-295 | the loop makes exactly the calls `Retry` predicts, counts three failures exactly when the book is to be dropped, and otherwise returns the settled content |
| GutenbergSearch.Searcher.DownloadEntry | src/internal/app/gutenbergsearch/gutenbergsearch.go:262-327 | a dropped book leaves the content cache alone and is not pushed; otherwise its content is cached under its ID and the book is pushed with it |
| GutenbergSearch.Searcher.Search | src/internal/app/gutenbergsearch/gutenbergsearch.go:141-238 | a cached answer returns at once; otherwise a failed or empty listing is an error; more than 25 cached books block the call for good (`Blocked`), with the first 25 queued, nothing scheduled and no answer cached; otherwise the cached books are queued and the rest scheduled, and a received answer is cached under the query key and returned; no download happens here |

## Left out

- Goroutines, channels and timing are not modelled: the download and search workers, `select` with `time.After`, the wait groups, `Close` and the 120-second timeout. `Searcher.Search` returns the books it queues and schedules, and takes how the wait ends as an `Event` input.
- The search worker caches an answer under `twoPartCacheKey(book.title, phrase)`: the two-part key with the book's title in place of the query's title. It also stops at the first book whose search fails. Both happen inside the workers, which are not part of this model.
- The download worker sleeps for `randomDurationRange` before each try, the first one included. `TryDownload` leaves the sleep out.
- Expiry and cleanup of the in-memory cache are time-driven library behaviour. A memory store keeps every entry it is given.
- The cache stores `interface{}` values behind type assertions. Here each cache is typed (`Cache<V>`).
- The internals of `fuzzy.RankFindFold` come from an unseen library. The model uses an uninterpreted `dist` parameter, and ranks come in target order.
- The seeding of Go's random source is not modelled. A random choice is any value in its range.
- `time.Duration` is unbounded here: count × unit does not overflow as an int64 would.
- Network I/O is not modelled: `GetBooks` and `DownloadBook` of the HTTP provider, `findTxtLinkRef` and `NewProvider`. `DataProvider` answers from a given listing function and a given sequence of download outcomes.
- The regular-expression scrapers, the HTTP handlers, the server wiring and `GetConfig` are not part of this model. `GetConfig` reads environment variables; `EmptyMeansFallback` covers an unset variable.
- src/search/search.go holds only types and a TODO panic, and the superseded orchestrator in internal/app is not modelled.
- The log output of every function is not modelled.
- `BookFields` takes a capacity hint `cap` that only sizes the slices. The model has no such parameter.
- Context.ProvideContext and UncappedContext.ProvideContext require `PosS <= len(content)`. A larger start panics on the slice in Go.
- Searcher.Search: a send that waits forever on the full `booksToAnalyze` channel is shown as the result `Blocked`, because a call that never returns has no value to model. The HTTP provider reads only the first results page, of at most 25 books, so with it the block cannot occur.
- GutenbergSearch.Searcher.constructor and GutenbergSearch.Searcher.Valid require `answerCache != contentCache`: the answer cache and the content cache are assumed to be different objects, as main.go creates three separate caches. Go's `NewSearcher` does not check this.
- GutenbergSearch.RandomDurationRange requires `b > a`. `rand.Intn` panics otherwise.
- Config.GetDefaultConfig states how the defaults relate to each other, not each constant. The constants are in its body.
- GutenbergSearch.CacheHits and GutenbergSearch.Misses state only a bound on length. Their membership is in the lemmas `CacheHitsMembers` and `MissesMembers`, and their listing order in `CacheHitsInOrder` and `MissesInOrder`.
