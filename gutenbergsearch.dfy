/** The sequential parts of the search orchestrator: the answer cache, the
    listing resolution, the split of a listing into cached books and books to
    download, and the retry policy of one download. The goroutines that
    download and search concurrently are replaced by what they hand over: the
    books queued and scheduled, and the event that ends the wait. */
module GutenbergSearch {
  import opened Wrappers
  import opened Data
  import opened Caches

  /** The attempts made per book before it is dropped. */
  const DownloadTries: nat := 3

  /** `twoPartCacheKey(a, b)`: the two parts joined by "/". */
  function TwoPartCacheKey(a: string, b: string): string {
    a + "/" + b
  }

  /** Keys of parts without "/" tell their parts apart. */
  lemma CacheKeyInjectiveWithoutSlash(a: string, b: string, a': string, b': string)
    requires '/' !in a && '/' !in a'
    requires TwoPartCacheKey(a, b) == TwoPartCacheKey(a', b')
    ensures a == a' && b == b'
  {
    var k := TwoPartCacheKey(a, b);
    FirstSlash(a, b);
    FirstSlash(a', b');
    assert |a| == |a'|;
    assert a == k[..|a|] && a' == k[..|a'|];
    assert b == k[|a| + 1..] && b' == k[|a'| + 1..];
  }

  /** The first "/" of a key ends its first part, when that part has none. */
  lemma FirstSlash(a: string, b: string)
    requires '/' !in a
    ensures TwoPartCacheKey(a, b)[|a|] == '/'
    ensures forall i :: 0 <= i < |a| ==> TwoPartCacheKey(a, b)[i] != '/'
  {
    assert forall i :: 0 <= i < |a| ==> TwoPartCacheKey(a, b)[i] == a[i];
  }

  /** A "/" in a title or phrase makes two different queries share a key. */
  lemma CacheKeyNotInjective()
    ensures TwoPartCacheKey("a/b", "c") == TwoPartCacheKey("a", "b/c")
  {
  }

  /** `randomDurationRange(a, b)`: a delay drawn from `[a, b)`; `rand.Intn`
      panics unless `b > a`. */
  method RandomDurationRange(a: int, b: int) returns (d: int)
    requires b > a
    ensures a <= d < b
  {
    var rawI :| 0 <= rawI < b - a;
    d := a + rawI;
  }

  // ---------------------------------------------------------------------------
  // The data provider

  /** The outcome of one `DownloadBook` call: the text, the error
      `ErrTxtLinkRefNotAvailable`, or any other error. */
  datatype Fetch = Fetched(content: string) | TextUnavailable | NetworkError

  /** The remote source, reduced to the answers it gives: `listings` answers
      `GetBooks` (`None` is an error) and `replies` answers the `n`-th
      `DownloadBook` call. The calls made are recorded. */
  class DataProvider {
    const listings: string -> Option<seq<Book>>
    const replies: nat -> Fetch
    var requests: seq<string>
    var downloads: seq<Book>

    constructor (listings: string -> Option<seq<Book>>, replies: nat -> Fetch)
      ensures this.listings == listings && this.replies == replies
      ensures requests == [] && downloads == []
    {
      this.listings := listings;
      this.replies := replies;
      requests := [];
      downloads := [];
    }

    method GetBooks(title: string) returns (r: Option<seq<Book>>)
      modifies this
      ensures requests == old(requests) + [title] && downloads == old(downloads)
      ensures r == listings(title)
    {
      requests := requests + [title];
      r := listings(title);
    }

    method DownloadBook(b: Book) returns (r: Fetch)
      modifies this
      ensures downloads == old(downloads) + [b] && requests == old(requests)
      ensures r == replies(|old(downloads)|)
    {
      r := replies(|downloads|);
      downloads := downloads + [b];
    }
  }

  // ---------------------------------------------------------------------------
  // Splitting a listing

  /** A book handed to the search workers (Go's `book`). */
  datatype BookText = BookText(title: string, author: string, uniqueID: string, content: string)

  function TextOf(b: Book, content: string): BookText {
    BookText(b.title, b.author, b.ID(), content)
  }

  /** The listing entries whose content is cached, with that content, in
      listing order. */
  function CacheHits(positions: seq<Book>, store: map<string, string>): (q: seq<BookText>)
    ensures |q| <= |positions|
  {
    if positions == [] then []
    else
      var b := positions[|positions| - 1];
      CacheHits(positions[..|positions| - 1], store)
      + if b.ID() in store then [TextOf(b, store[b.ID()])] else []
  }

  /** The IDs of the listing entries whose content is cached. */
  function HitIDs(positions: seq<Book>, store: map<string, string>): set<string> {
    set k | 0 <= k < |positions| && positions[k].ID() in store :: positions[k].ID()
  }

  /** The listing entries whose ID is not in `skip`, in listing order. */
  function Misses(positions: seq<Book>, skip: set<string>): (m: seq<Book>)
    ensures |m| <= |positions|
  {
    if positions == [] then []
    else
      var b := positions[|positions| - 1];
      Misses(positions[..|positions| - 1], skip) + if b.ID() !in skip then [b] else []
  }

  /** An entry is scheduled exactly when it is listed and its ID is not
      skipped. */
  lemma {:induction false} MissesMembers(positions: seq<Book>, skip: set<string>, b: Book)
    ensures b in Misses(positions, skip) <==> b in positions && b.ID() !in skip
  {
    if positions != [] {
      var init := positions[..|positions| - 1];
      MissesMembers(init, skip, b);
      assert positions == init + [positions[|positions| - 1]];
    }
  }

  /** A cached entry is queued with its cached content, and every queued book
      is such an entry. */
  lemma {:induction false} CacheHitsMembers(positions: seq<Book>, store: map<string, string>, q: BookText)
    ensures q in CacheHits(positions, store) <==>
      exists k :: 0 <= k < |positions| && positions[k].ID() in store && q == TextOf(positions[k], store[positions[k].ID()])
  {
    if positions != [] {
      var init := positions[..|positions| - 1];
      var n := |positions| - 1;
      CacheHitsMembers(init, store, q);
      if q in CacheHits(init, store) {
        var k :| 0 <= k < |init| && init[k].ID() in store && q == TextOf(init[k], store[init[k].ID()]);
        assert positions[k] == init[k];
      } else if exists k :: 0 <= k < |positions| && positions[k].ID() in store && q == TextOf(positions[k], store[positions[k].ID()]) {
        var k :| 0 <= k < |positions| && positions[k].ID() in store && q == TextOf(positions[k], store[positions[k].ID()]);
        assert k == n;
      }
    }
  }

  /** `idx` is a strictly increasing list of positions below `n`. */
  predicate Increasing(idx: seq<nat>, n: nat) {
    (forall i :: 0 <= i < |idx| ==> idx[i] < n)
    && (forall i, j :: 0 <= i < j < |idx| ==> idx[i] < idx[j])
  }

  /** Queued book `i` is the cached entry at listing position `idx[i]`. */
  predicate HitsAt(positions: seq<Book>, store: map<string, string>, q: seq<BookText>, idx: seq<nat>) {
    |idx| == |q| && Increasing(idx, |positions|)
    && forall i :: 0 <= i < |idx| ==>
         positions[idx[i]].ID() in store && q[i] == TextOf(positions[idx[i]], store[positions[idx[i]].ID()])
  }

  /** Scheduled book `i` is the unskipped entry at listing position `idx[i]`. */
  predicate MissesAt(positions: seq<Book>, skip: set<string>, m: seq<Book>, idx: seq<nat>) {
    |idx| == |m| && Increasing(idx, |positions|)
    && forall i :: 0 <= i < |idx| ==> positions[idx[i]].ID() !in skip && m[i] == positions[idx[i]]
  }

  /** The queued books keep listing order: they are the cached entries at
      strictly increasing listing positions. */
  lemma {:induction false} CacheHitsInOrder(positions: seq<Book>, store: map<string, string>)
    ensures exists idx :: HitsAt(positions, store, CacheHits(positions, store), idx)
  {
    if positions == [] {
      assert HitsAt(positions, store, CacheHits(positions, store), []);
    } else {
      var n := |positions| - 1;
      var init := positions[..n];
      CacheHitsInOrder(init, store);
      var idx :| HitsAt(init, store, CacheHits(init, store), idx);
      assert forall i :: 0 <= i < |idx| ==> positions[idx[i]] == init[idx[i]];
      if positions[n].ID() in store {
        assert HitsAt(positions, store, CacheHits(positions, store), idx + [n]);
      } else {
        assert HitsAt(positions, store, CacheHits(positions, store), idx);
      }
    }
  }

  /** The scheduled books keep listing order: they are the unskipped entries
      at strictly increasing listing positions. */
  lemma {:induction false} MissesInOrder(positions: seq<Book>, skip: set<string>)
    ensures exists idx :: MissesAt(positions, skip, Misses(positions, skip), idx)
  {
    if positions == [] {
      assert MissesAt(positions, skip, Misses(positions, skip), []);
    } else {
      var n := |positions| - 1;
      var init := positions[..n];
      MissesInOrder(init, skip);
      var idx :| MissesAt(init, skip, Misses(init, skip), idx);
      assert forall i :: 0 <= i < |idx| ==> positions[idx[i]] == init[idx[i]];
      if positions[n].ID() !in skip {
        assert MissesAt(positions, skip, Misses(positions, skip), idx + [n]);
      } else {
        assert MissesAt(positions, skip, Misses(positions, skip), idx);
      }
    }
  }

  /** The books queued from a prefix of the listing are a prefix of those
      queued from the whole listing. */
  lemma {:induction false} CacheHitsPrefix(positions: seq<Book>, store: map<string, string>, x: nat)
    requires x <= |positions|
    ensures CacheHits(positions[..x], store) <= CacheHits(positions, store)
    decreases |positions| - x
  {
    if x < |positions| {
      var init := positions[..|positions| - 1];
      assert init[..x] == positions[..x];
      CacheHitsPrefix(init, store, x);
    } else {
      assert positions[..x] == positions;
    }
  }

  /** When the books queued from the first `x` entries fill the channel and
      entry `x` is cached too, the whole listing overflows it, and the books
      that fit are the first `AnalyzeCapacity` ones. */
  lemma OverflowAt(positions: seq<Book>, store: map<string, string>, x: nat)
    requires x < |positions| && positions[x].ID() in store
    requires |CacheHits(positions[..x], store)| == AnalyzeCapacity
    ensures |CacheHits(positions, store)| > AnalyzeCapacity
    ensures CacheHits(positions, store)[..AnalyzeCapacity] == CacheHits(positions[..x], store)
  {
    assert positions[..x + 1][..x] == positions[..x];
    CacheHitsPrefix(positions, store, x + 1);
  }

  /** Every entry goes exactly one way: queued from the cache or scheduled
      for download. */
  lemma {:induction false} PartitionCounts(positions: seq<Book>, store: map<string, string>)
    ensures |CacheHits(positions, store)| + |Misses(positions, store.Keys)| == |positions|
  {
    if positions != [] {
      PartitionCounts(positions[..|positions| - 1], store);
    }
  }

  /** Skipping the IDs found in the cache schedules the same entries as
      skipping every cached ID. */
  lemma {:induction false} SkipHitIDs(positions: seq<Book>, store: map<string, string>)
    ensures Misses(positions, HitIDs(positions, store)) == Misses(positions, store.Keys)
  {
    forall b | b in positions
      ensures b.ID() in HitIDs(positions, store) <==> b.ID() in store
    {
      var k :| 0 <= k < |positions| && positions[k] == b;
      if b.ID() in store {
        assert positions[k].ID() in HitIDs(positions, store);
      }
    }
    SameSkips(positions, HitIDs(positions, store), store.Keys);
  }

  /** Two skip sets that agree on the listed IDs schedule the same entries. */
  lemma {:induction false} SameSkips(positions: seq<Book>, s1: set<string>, s2: set<string>)
    requires forall b :: b in positions ==> (b.ID() in s1 <==> b.ID() in s2)
    ensures Misses(positions, s1) == Misses(positions, s2)
  {
    if positions != [] {
      var init := positions[..|positions| - 1];
      assert forall b :: b in init ==> b in positions;
      SameSkips(init, s1, s2);
      assert positions[|positions| - 1] in positions;
    }
  }

  // ---------------------------------------------------------------------------
  // Retrying a download

  /** How the tries for one book end: the content to cache and push (`""` when
      no text exists), or `None` when the book is dropped; and the number of
      `DownloadBook` calls made. */
  datatype Attempt = Attempt(content: Option<string>, calls: nat)

  /** The outcome of at most `left` tries whose replies start at call `start`:
      the first reply that is not a network error settles it. */
  function Retry(reply: nat -> Fetch, start: nat, left: nat): Attempt
    decreases left
  {
    if left == 0 then Attempt(None, 0)
    else match reply(start)
      case Fetched(c) => Attempt(Some(c), 1)
      case TextUnavailable => Attempt(Some(""), 1)
      case NetworkError =>
        var rest := Retry(reply, start + 1, left - 1);
        Attempt(rest.content, rest.calls + 1)
  }

  /** Call `n` is answered with a network error. */
  predicate Failed(reply: nat -> Fetch, n: nat) {
    reply(n).NetworkError?
  }

  /** The tries settle at the first reply `i` that is not a network error. */
  lemma {:induction false} RetrySettlesAt(reply: nat -> Fetch, start: nat, left: nat, i: nat)
    requires start <= i < start + left
    requires forall n :: start <= n < i ==> Failed(reply, n)
    requires !Failed(reply, i)
    ensures Retry(reply, start, left)
      == Attempt(Some(if reply(i).Fetched? then reply(i).content else ""), i - start + 1)
    decreases left
  {
    if start < i {
      assert Failed(reply, start);
      RetrySettlesAt(reply, start + 1, left - 1, i);
    }
  }

  /** When every try fails with a network error, all `left` calls are made and
      the book is dropped. */
  lemma {:induction false} RetryExhausted(reply: nat -> Fetch, start: nat, left: nat)
    requires forall n :: start <= n < start + left ==> Failed(reply, n)
    ensures Retry(reply, start, left) == Attempt(None, left)
    decreases left
  {
    if left > 0 {
      assert Failed(reply, start);
      RetryExhausted(reply, start + 1, left - 1);
    }
  }

  /** At most `left` calls are made, at least one when any is allowed; the book
      is dropped exactly when every allowed try is a network error. */
  lemma {:induction false} RetryBounds(reply: nat -> Fetch, start: nat, left: nat)
    ensures Retry(reply, start, left).calls <= left
    ensures left > 0 ==> Retry(reply, start, left).calls >= 1
    ensures Retry(reply, start, left).content.None?
      <==> forall n :: start <= n < start + left ==> Failed(reply, n)
    decreases left
  {
    if left > 0 {
      RetryBounds(reply, start + 1, left - 1);
      if !Failed(reply, start) {
        assert !(forall n :: start <= n < start + left ==> Failed(reply, n));
      }
    }
  }

  // ---------------------------------------------------------------------------
  // The searcher

  /** How the wait for the search workers ends: a result is received, the
      result channel is closed with none, or 120 seconds pass. */
  datatype Event = Received(result: string) | Closed | TimedOut

  /** "getBookPositions failed: …", "no books available for this title",
      `ErrPhraseNotFound` and `ErrTooLong`; `Blocked` is a call that never
      returns. */
  datatype SearchFailure = ListingFailed | NoBooks | PhraseNotFound | TooLong | Blocked

  /** The room in the `booksToAnalyze` channel. Nothing reads that channel
      while `Search` fills it from the content cache, so a send past this many
      books waits forever: `Search` never returns, shown here as `Blocked`. */
  const AnalyzeCapacity: nat := 25

  /** What the wait returns: the received context, `ErrPhraseNotFound` for a
      closed channel, `ErrTooLong` after the timeout. */
  function Answer(event: Event): (r: Ret<string, SearchFailure>)
    ensures r.Ok() <==> event.Received?
    ensures r.Ok() ==> r.value == event.result
    ensures r.err.Some? ==> r.value == ""
    ensures event.Closed? ==> r.err == Some(PhraseNotFound)
    ensures event.TimedOut? ==> r.err == Some(TooLong)
  {
    match event
    case Received(result) => Ret(result, None)
    case Closed => Ret("", Some(PhraseNotFound))
    case TimedOut => Ret("", Some(TooLong))
  }

  /** The listing `getBookPositions` resolves: the cached one, else the
      provider's answer. */
  function Resolved(cached: Option<seq<Book>>, fetched: Option<seq<Book>>): Option<seq<Book>> {
    if cached.Some? then cached else fetched
  }

  class Searcher {
    const answerCache: Cache<string>
    const listingCache: Cache<seq<Book>>
    const contentCache: Cache<string>
    const dataProvider: DataProvider

    ghost predicate Valid()
      reads answerCache, listingCache, contentCache
    {
      answerCache.Valid() && listingCache.Valid() && contentCache.Valid() && answerCache != contentCache
    }

    /** `NewSearcher`, without the background tasks it starts. */
    constructor (answerCache: Cache<string>, listingCache: Cache<seq<Book>>, contentCache: Cache<string>, dataProvider: DataProvider)
      requires answerCache.Valid() && listingCache.Valid() && contentCache.Valid() && answerCache != contentCache
      ensures this.answerCache == answerCache && this.listingCache == listingCache
      ensures this.contentCache == contentCache && this.dataProvider == dataProvider
      ensures Valid()
    {
      this.answerCache := answerCache;
      this.listingCache := listingCache;
      this.contentCache := contentCache;
      this.dataProvider := dataProvider;
    }

    /** `getBookPositions(title)`: the cached listing, without asking the
        provider; otherwise the provider's answer, cached only when it is not
        an error. */
    method GetBookPositions(title: string) returns (r: Option<seq<Book>>)
      requires Valid()
      modifies listingCache, dataProvider
      ensures Valid()
      ensures dataProvider.downloads == old(dataProvider.downloads)
      ensures old(listingCache.Lookup(title)).Some? ==>
        r == old(listingCache.Lookup(title)) && unchanged(listingCache, dataProvider)
      ensures old(listingCache.Lookup(title)).None? ==>
        r == dataProvider.listings(title) && dataProvider.requests == old(dataProvider.requests) + [title]
      ensures old(listingCache.Lookup(title)).None? && r.Some? ==> listingCache.store == old(listingCache.Put(title, r.value))
      ensures old(listingCache.Lookup(title)).None? && r.None? ==> listingCache.store == old(listingCache.store)
    {
      var cached := listingCache.Get(title);
      if cached.Some? {
        return cached;
      }
      r := dataProvider.GetBooks(title);
      if r.None? {
        return;
      }
      listingCache.Set(title, r.value);
    }

    /** The loop that gathers the cached books: each entry whose ID hits the
        content cache is marked as processed and queued with its content. The
        send of a book past `AnalyzeCapacity` never completes (`blocked`). */
    method Partition(positions: seq<Book>) returns (queued: seq<BookText>, processed: map<string, bool>, blocked: bool)
      requires Valid()
      ensures blocked <==> |CacheHits(positions, contentCache.store)| > AnalyzeCapacity
      ensures blocked ==> queued == CacheHits(positions, contentCache.store)[..AnalyzeCapacity]
      ensures !blocked ==> queued == CacheHits(positions, contentCache.store)
      ensures !blocked ==> processed.Keys == HitIDs(positions, contentCache.store)
    {
      queued := [];
      processed := map[];
      blocked := false;
      for x := 0 to |positions|
        invariant queued == CacheHits(positions[..x], contentCache.store)
        invariant processed.Keys == HitIDs(positions[..x], contentCache.store)
        invariant |queued| <= AnalyzeCapacity
      {
        var b := positions[x];
        assert positions[..x + 1][..x] == positions[..x];
        assert HitIDs(positions[..x + 1], contentCache.store)
          == HitIDs(positions[..x], contentCache.store) + if b.ID() in contentCache.store then {b.ID()} else {};
        var cached := contentCache.Get(b.ID());
        if cached.None? {
          continue;
        }
        processed := processed[b.ID() := true];
        if |queued| == AnalyzeCapacity {
          OverflowAt(positions, contentCache.store, x);
          blocked := true;
          return;
        }
        queued := queued + [TextOf(b, cached.value)];
      }
      assert positions[..|positions|] == positions;
    }

    /** The feeder loop: the entries not marked as processed, in listing order. */
    static method Feed(positions: seq<Book>, processed: map<string, bool>) returns (scheduled: seq<Book>)
      ensures scheduled == Misses(positions, processed.Keys)
    {
      scheduled := [];
      for x := 0 to |positions|
        invariant scheduled == Misses(positions[..x], processed.Keys)
      {
        assert positions[..x + 1][..x] == positions[..x];
        if positions[x].ID() in processed {
          continue;
        }
        scheduled := scheduled + [positions[x]];
      }
      assert positions[..|positions|] == positions;
    }

    /** The retry loop of the download worker: up to `DownloadTries` calls,
        stopping at the first reply that is not a network error; a missing
        text stops it with empty content. The sleep before each try is left
        out. */
    method TryDownload(b: Book) returns (content: string, failedTries: nat)
      modifies dataProvider
      ensures var a := Retry(dataProvider.replies, |old(dataProvider.downloads)|, DownloadTries);
        && dataProvider.downloads == old(dataProvider.downloads) + seq(a.calls, _ => b)
        && dataProvider.requests == old(dataProvider.requests)
        && (failedTries == DownloadTries <==> a.content.None?)
        && (a.content.Some? ==> content == a.content.value)
    {
      ghost var start := |dataProvider.downloads|;
      content := "";
      failedTries := 0;
      var i := 0;
      while i < DownloadTries
        invariant i <= DownloadTries && failedTries == i
        invariant dataProvider.downloads == old(dataProvider.downloads) + seq(i, _ => b)
        invariant dataProvider.requests == old(dataProvider.requests)
        invariant forall n :: start <= n < start + i ==> Failed(dataProvider.replies, n)
      {
        var reply := dataProvider.DownloadBook(b);
        if reply.TextUnavailable? {
          content := "";
          RetrySettlesAt(dataProvider.replies, start, DownloadTries, start + i);
          assert dataProvider.downloads == old(dataProvider.downloads) + seq(i + 1, _ => b);
          return;
        }
        if reply.NetworkError? {
          failedTries := failedTries + 1;
          i := i + 1;
          assert dataProvider.downloads == old(dataProvider.downloads) + seq(i, _ => b);
          continue;
        }
        content := reply.content;
        RetrySettlesAt(dataProvider.replies, start, DownloadTries, start + i);
        assert dataProvider.downloads == old(dataProvider.downloads) + seq(i + 1, _ => b);
        return;
      }
      RetryExhausted(dataProvider.replies, start, DownloadTries);
    }

    /** The per-entry block of the download worker: a book whose every try
        failed is dropped; otherwise its content, possibly empty, is cached
        under its ID and the book is pushed. */
    method DownloadEntry(b: Book) returns (pushed: Option<BookText>)
      requires Valid()
      modifies contentCache, dataProvider
      ensures Valid()
      ensures var a := Retry(dataProvider.replies, |old(dataProvider.downloads)|, DownloadTries);
        && dataProvider.downloads == old(dataProvider.downloads) + seq(a.calls, _ => b)
        && dataProvider.requests == old(dataProvider.requests)
        && (a.content.None? ==> pushed == None && contentCache.store == old(contentCache.store))
        && (a.content.Some? ==> pushed == Some(TextOf(b, a.content.value)))
        && (a.content.Some? ==> contentCache.store == old(contentCache.Put(b.ID(), a.content.value)))
    {
      var content, failedTries := TryDownload(b);
      if failedTries == DownloadTries {
        return None;
      }
      contentCache.Set(b.ID(), content);
      return Some(TextOf(b, content));
    }

    /** The sequential part of `Search(title, phrase)`. A cached answer for the
        query is returned before anything else. Otherwise the listing is
        resolved; a failed or empty listing is an error. The cached books are
        queued for the search workers and the others scheduled for download,
        and `event` is how the wait for the workers ends: a received answer is
        cached under the query's key and returned. More cached books than
        `AnalyzeCapacity` block the call for good (`Blocked`). */
    method Search(title: string, phrase: string, event: Event)
      returns (r: Ret<string, SearchFailure>, queued: seq<BookText>, scheduled: seq<Book>)
      requires Valid()
      modifies answerCache, listingCache, dataProvider
      ensures Valid()
      ensures dataProvider.downloads == old(dataProvider.downloads)
      ensures var key := TwoPartCacheKey(title, phrase);
        old(answerCache.Lookup(key)).Some? ==>
          && r == Ret(old(answerCache.Lookup(key)).value, None) && queued == [] && scheduled == []
          && unchanged(answerCache, listingCache, dataProvider)
      ensures var key := TwoPartCacheKey(title, phrase);
        old(answerCache.Lookup(key)).None? && old(listingCache.Lookup(title)).Some? ==>
          unchanged(listingCache, dataProvider)
      ensures var key := TwoPartCacheKey(title, phrase);
        old(answerCache.Lookup(key)).None? && old(listingCache.Lookup(title)).None? ==>
          && dataProvider.requests == old(dataProvider.requests) + [title]
          && listingCache.store == if dataProvider.listings(title).Some?
               then old(listingCache.Put(title, dataProvider.listings(title).value))
               else old(listingCache.store)
      ensures var key := TwoPartCacheKey(title, phrase);
        var listing := Resolved(old(listingCache.Lookup(title)), dataProvider.listings(title));
        old(answerCache.Lookup(key)).None? ==>
          && (listing.None? ==> r == Ret("", Some(ListingFailed)) && queued == [] && scheduled == [])
          && (listing == Some([]) ==> r == Ret("", Some(NoBooks)) && queued == [] && scheduled == [])
          && (listing.None? || listing == Some([]) ==> answerCache.store == old(answerCache.store))
      ensures var key := TwoPartCacheKey(title, phrase);
        var listing := Resolved(old(listingCache.Lookup(title)), dataProvider.listings(title));
        old(answerCache.Lookup(key)).None? && listing.Some? && listing.value != []
          && |CacheHits(listing.value, contentCache.store)| > AnalyzeCapacity ==>
          && r == Ret("", Some(Blocked)) && scheduled == []
          && queued == CacheHits(listing.value, contentCache.store)[..AnalyzeCapacity]
          && answerCache.store == old(answerCache.store)
      ensures var key := TwoPartCacheKey(title, phrase);
        var listing := Resolved(old(listingCache.Lookup(title)), dataProvider.listings(title));
        old(answerCache.Lookup(key)).None? && listing.Some? && listing.value != []
          && |CacheHits(listing.value, contentCache.store)| <= AnalyzeCapacity ==>
          && queued == CacheHits(listing.value, contentCache.store)
          && scheduled == Misses(listing.value, contentCache.store.Keys)
          && r == Answer(event)
          && answerCache.store == if event.Received?
               then old(answerCache.Put(key, event.result))
               else old(answerCache.store)
    {
      var key := TwoPartCacheKey(title, phrase);
      var cachedAnswer := answerCache.Get(key);
      if cachedAnswer.Some? {
        return Ret(cachedAnswer.value, None), [], [];
      }
      var bookPositions := GetBookPositions(title);
      if bookPositions.None? {
        return Ret("", Some(ListingFailed)), [], [];
      }
      if |bookPositions.value| < 1 {
        return Ret("", Some(NoBooks)), [], [];
      }
      var processed, blocked;
      queued, processed, blocked := Partition(bookPositions.value);
      if blocked {
        return Ret("", Some(Blocked)), queued, [];
      }
      scheduled := Feed(bookPositions.value, processed);
      SkipHitIDs(bookPositions.value, contentCache.store);
      match event
      case Received(result) =>
        answerCache.Set(key, result);
        r := Ret(result, None);
      case Closed =>
        r := Ret("", Some(PhraseNotFound));
      case TimedOut =>
        r := Ret("", Some(TooLong));
    }
  }
}
