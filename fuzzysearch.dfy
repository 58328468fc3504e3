/** The fuzzy phrase matcher: a whitespace tokenizer that records byte offsets
    (`BookFields`) and a searcher that anchors on the first phrase word and
    aligns the rest of the phrase token by token (`Search`). */
module FuzzySearch {
  import opened Wrappers
  import opened GoStrings
  import opened SearchResult

  // ===========================================================================
  // Tokenizer

  /** The byte offsets `[a, b)` of one token (Go's `Indexes`). */
  datatype Span = Span(a: int, b: int)

  /** The two states of the tokenizer. */
  datatype State = WhitespaceState | TextState

  /** The white space that closes a token. */
  predicate IsBookSpace(c: char) {
    c == ' ' || c == '\n' || c == '\t' || c == '\r'
  }

  /** The white space of the initial-state test, which does not list '\r'. */
  predicate StartsInWhitespace(c: char) {
    c == ' ' || c == '\n' || c == '\t'
  }

  /** The first white space at or after `p`, or the end of `s`. */
  function RunEnd(s: string, p: nat): (e: nat)
    requires p <= |s|
    ensures p <= e <= |s|
    decreases |s| - p
  {
    if p == |s| || IsBookSpace(s[p]) then p else RunEnd(s, p + 1)
  }

  /** The run from `p` to `RunEnd(s, p)` holds no white space, and white space
      (or the end of `s`) follows it. */
  lemma {:induction false} RunEndStops(s: string, p: nat)
    requires p <= |s|
    ensures RunEnd(s, p) < |s| ==> IsBookSpace(s[RunEnd(s, p)])
    ensures forall k :: p <= k < RunEnd(s, p) ==> !IsBookSpace(s[k])
    decreases |s| - p
  {
    if p < |s| && !IsBookSpace(s[p]) {
      RunEndStops(s, p + 1);
    }
  }

  /** The tokens of `s[p..]` when `p` is not inside a token. A token is a run of
      text together with the white space that closes it, so a run that reaches
      the end of `s` is not a token. */
  function SpansFrom(s: string, p: nat): seq<Span>
    requires p <= |s|
    decreases |s| - p
  {
    if p == |s| then []
    else if IsBookSpace(s[p]) then SpansFrom(s, p + 1)
    else
      var e := RunEnd(s, p);
      if e == |s| then [] else [Span(p, e)] + SpansFrom(s, e + 1)
  }

  /** The tokens `BookFields` reports for `s`. A leading '\r' starts the scan
      in the text state and so yields the empty token `[0, 0)`. */
  function Tokens(s: string): seq<Span> {
    if |s| > 0 && s[0] == '\r' then [Span(0, 0)] + SpansFrom(s, 1) else SpansFrom(s, 0)
  }

  /** The spans lie inside `s`, each ends before the next begins. */
  predicate InOrder(s: string, ts: seq<Span>) {
    && (forall k :: 0 <= k < |ts| ==> 0 <= ts[k].a <= ts[k].b < |s|)
    && (forall k, l :: 0 <= k < l < |ts| ==> ts[k].b < ts[l].a)
  }

  /** The tokens of `s[p..]` lie in order inside `s`, each starting at or
      after `p` and ending after it starts. */
  lemma {:induction false} SpansFromInOrder(s: string, p: nat)
    requires p <= |s|
    ensures InOrder(s, SpansFrom(s, p))
    ensures forall k :: 0 <= k < |SpansFrom(s, p)| ==> p <= SpansFrom(s, p)[k].a < SpansFrom(s, p)[k].b
    decreases |s| - p
  {
    if p < |s| {
      if IsBookSpace(s[p]) {
        SpansFromInOrder(s, p + 1);
      } else {
        var e := RunEnd(s, p);
        if e < |s| {
          SpansFromInOrder(s, e + 1);
        }
      }
    }
  }

  /** The tokens lie inside the text, in increasing order and disjoint, and
      only a leading '\r' yields an empty one. */
  lemma TokensInOrder(s: string)
    ensures InOrder(s, Tokens(s))
    ensures forall k :: 0 <= k < |Tokens(s)| && Tokens(s)[k].a == Tokens(s)[k].b ==> k == 0 && s[0] == '\r'
  {
    if |s| > 0 && s[0] == '\r' {
      SpansFromInOrder(s, 1);
    } else {
      SpansFromInOrder(s, 0);
    }
  }

  /** The text of token `j` of `s`. */
  function TokenText(s: string, j: nat): string
    requires j < |Tokens(s)|
  {
    TokensInOrder(s);
    s[Tokens(s)[j].a..Tokens(s)[j].b]
  }

  /** The text of span `t` of `s` (empty for a span outside `s`, which no
      token is). */
  function SpanText(s: string, t: Span): string {
    if 0 <= t.a <= t.b <= |s| then s[t.a..t.b] else ""
  }

  /** The texts of the spans `ts` of `s`, in order. */
  function TextsOf(s: string, ts: seq<Span>): (fs: seq<string>)
    ensures |fs| == |ts|
  {
    if ts == [] then [] else TextsOf(s, ts[..|ts| - 1]) + [SpanText(s, ts[|ts| - 1])]
  }

  /** Text `k` is the text of span `k`. */
  lemma {:induction false} TextsOfAt(s: string, ts: seq<Span>, k: nat)
    requires k < |ts|
    ensures TextsOf(s, ts)[k] == SpanText(s, ts[k])
  {
    if k < |ts| - 1 {
      TextsOfAt(s, ts[..|ts| - 1], k);
    }
  }

  /** The texts of all tokens of `s`, in order (the `fields` of `BookFields`). */
  function Texts(s: string): (fs: seq<string>)
    ensures |fs| == |Tokens(s)|
  {
    TextsOf(s, Tokens(s))
  }

  /** Field `j` is the text between the offsets of token `j`. */
  lemma TextsAt(s: string, j: nat)
    requires j < |Tokens(s)|
    ensures |Texts(s)| == |Tokens(s)| && Texts(s)[j] == TokenText(s, j)
  {
    TokensInOrder(s);
    TextsOfAt(s, Tokens(s), j);
  }

  /** The tokens still to be reported when the scan is at `i` in state `st`,
      inside a run that began at `tb` if `st` is the text state. */
  ghost function Pending(s: string, st: State, tb: nat, i: nat): seq<Span>
    requires tb <= i <= |s|
  {
    if st == WhitespaceState then SpansFrom(s, i)
    else
      var e := RunEnd(s, i);
      if e == |s| then [] else [Span(tb, e)] + SpansFrom(s, e + 1)
  }

  /** Before the scan, everything is pending. */
  lemma ScanStart(s: string)
    requires |s| > 0
    ensures Pending(s, if StartsInWhitespace(s[0]) then WhitespaceState else TextState, 0, 0) == Tokens(s)
  {
  }

  /** At the end of the text nothing is pending: an unclosed run is dropped. */
  lemma ScanEnd(s: string, st: State, tb: nat)
    requires tb <= |s|
    ensures Pending(s, st, tb, |s|) == []
  {
  }

  /** White space after a run reports that run. */
  lemma ScanCloses(s: string, tb: nat, i: nat)
    requires tb <= i < |s| && IsBookSpace(s[i])
    ensures Pending(s, TextState, tb, i) == [Span(tb, i)] + Pending(s, WhitespaceState, tb, i + 1)
  {
  }

  /** White space after white space reports nothing. */
  lemma ScanSkips(s: string, tb: nat, i: nat)
    requires tb <= i < |s| && IsBookSpace(s[i])
    ensures Pending(s, WhitespaceState, tb, i) == Pending(s, WhitespaceState, tb, i + 1)
  {
  }

  /** Text after white space begins a run. */
  lemma ScanOpens(s: string, tb: nat, i: nat)
    requires tb <= i < |s| && !IsBookSpace(s[i])
    ensures Pending(s, WhitespaceState, tb, i) == Pending(s, TextState, i, i + 1)
  {
  }

  /** Text inside a run reports nothing. */
  lemma ScanExtends(s: string, tb: nat, i: nat)
    requires tb <= i < |s| && !IsBookSpace(s[i])
    ensures Pending(s, TextState, tb, i) == Pending(s, TextState, tb, i + 1)
  {
  }

  /** Reporting span `x` appends its text to the texts. */
  lemma TextsOfSnoc(s: string, ts: seq<Span>, x: Span)
    ensures TextsOf(s, ts + [x]) == TextsOf(s, ts) + [SpanText(s, x)]
  {
    assert (ts + [x])[..|ts|] == ts;
  }

  /** Sequence concatenation is associative. */
  lemma AppendAssoc<T>(x: seq<T>, y: seq<T>, z: seq<T>)
    ensures (x + y) + z == x + (y + z)
  {
  }

  /** The scanner's variables. */
  datatype Scan = Scan(state: State, textBeginning: nat, indexes: seq<Span>)

  /** The scanner's variables after the first `i` characters of a non-empty
      `s`: white space ends a run of text and reports it, text after white
      space begins a run. */
  function ScanUpTo(s: string, i: nat): Scan
    requires 0 < |s| && i <= |s|
  {
    if i == 0 then Scan(if StartsInWhitespace(s[0]) then WhitespaceState else TextState, 0, [])
    else
      var sc := ScanUpTo(s, i - 1);
      if IsBookSpace(s[i - 1]) then
        if sc.state == TextState
        then Scan(WhitespaceState, sc.textBeginning, sc.indexes + [Span(sc.textBeginning, i - 1)])
        else sc
      else if sc.state == WhitespaceState then Scan(TextState, i - 1, sc.indexes)
      else sc
  }

  /** After `i` characters, the spans reported so far followed by the ones
      still pending are the tokens of `s`. */
  lemma {:induction false} ScanUpToPending(s: string, i: nat)
    requires 0 < |s| && i <= |s|
    ensures ScanUpTo(s, i).textBeginning <= i
    ensures ScanUpTo(s, i).indexes + Pending(s, ScanUpTo(s, i).state, ScanUpTo(s, i).textBeginning, i) == Tokens(s)
  {
    if i == 0 {
      ScanStart(s);
    } else {
      ScanUpToPending(s, i - 1);
      var sc := ScanUpTo(s, i - 1);
      if IsBookSpace(s[i - 1]) {
        if sc.state == TextState {
          ScanCloses(s, sc.textBeginning, i - 1);
          AppendAssoc(sc.indexes, [Span(sc.textBeginning, i - 1)], Pending(s, WhitespaceState, sc.textBeginning, i));
        } else {
          ScanSkips(s, sc.textBeginning, i - 1);
        }
      } else if sc.state == WhitespaceState {
        ScanOpens(s, sc.textBeginning, i - 1);
      } else {
        ScanExtends(s, sc.textBeginning, i - 1);
      }
    }
  }

  /** The whole scan reports exactly the tokens. */
  lemma ScanReportsTokens(s: string)
    requires 0 < |s|
    ensures ScanUpTo(s, |s|).indexes == Tokens(s)
  {
    ScanUpToPending(s, |s|);
    ScanEnd(s, ScanUpTo(s, |s|).state, ScanUpTo(s, |s|).textBeginning);
  }

  /** Go's `BookFields(s, cap)`: a two-state scan that reports each run of text
      with its offsets when the white space after it is reached. */
  method BookFields(s: string) returns (fields: seq<string>, indexes: seq<Span>)
    ensures indexes == Tokens(s)
    ensures fields == Texts(s)
    ensures |s| == 0 ==> fields == [] && indexes == []
  {
    fields, indexes := [], [];
    if |s| < 1 {
      return;
    }
    var state := if StartsInWhitespace(s[0]) then WhitespaceState else TextState;
    var textBeginning := 0;
    for i := 0 to |s|
      invariant textBeginning <= i
      invariant ScanUpTo(s, i) == Scan(state, textBeginning, indexes)
      invariant fields == TextsOf(s, indexes)
    {
      if IsBookSpace(s[i]) {
        if state == TextState {
          TextsOfSnoc(s, indexes, Span(textBeginning, i));
          fields := fields + [s[textBeginning..i]];
          indexes := indexes + [Span(textBeginning, i)];
          state := WhitespaceState;
        }
      } else if state == WhitespaceState {
        state := TextState;
        textBeginning := i;
      }
    }
    ScanReportsTokens(s);
  }

  // ---------------------------------------------------------------------------
  // What the tokens are

  /** A token is a run of text with white space right after it and white space
      (or the start of the text) right before it. */
  predicate ClosedRun(s: string, t: Span) {
    && 0 <= t.a <= t.b < |s|
    && IsBookSpace(s[t.b])
    && (t.a == 0 || IsBookSpace(s[t.a - 1]))
    && forall k :: t.a <= k < t.b ==> !IsBookSpace(s[k])
  }

  /** Every token of `s[p..]` is a closed run when `p` starts the text or
      follows white space. */
  lemma {:induction false} SpansFromClosed(s: string, p: nat)
    requires p <= |s| && (p == 0 || IsBookSpace(s[p - 1]))
    ensures forall k :: 0 <= k < |SpansFrom(s, p)| ==> ClosedRun(s, SpansFrom(s, p)[k])
    decreases |s| - p
  {
    if p < |s| {
      if IsBookSpace(s[p]) {
        SpansFromClosed(s, p + 1);
      } else {
        var e := RunEnd(s, p);
        RunEndStops(s, p);
        if e < |s| {
          SpansFromClosed(s, e + 1);
        }
      }
    }
  }

  /** Every token is closed by the white space at its end offset, holds no white
      space, and starts at the beginning of a run of text. */
  lemma TokensClosed(s: string)
    ensures forall k :: 0 <= k < |Tokens(s)| ==> ClosedRun(s, Tokens(s)[k])
  {
    if |s| > 0 && s[0] == '\r' {
      SpansFromClosed(s, 1);
    } else {
      SpansFromClosed(s, 0);
    }
  }

  /** No reported field contains white space. */
  lemma TextsHaveNoSpace(s: string, j: nat)
    requires j < |Tokens(s)|
    ensures forall k :: 0 <= k < |TokenText(s, j)| ==> !IsBookSpace(TokenText(s, j)[k])
  {
    TokensClosed(s);
    assert ClosedRun(s, Tokens(s)[j]);
  }

  /** A text character at or after `p` with white space after it lies inside
      one of the tokens of `s[p..]`. */
  lemma {:induction false} SpansFromCover(s: string, p: nat, j: nat, m: nat)
    requires p <= j < m < |s| && !IsBookSpace(s[j]) && IsBookSpace(s[m])
    ensures exists k :: 0 <= k < |SpansFrom(s, p)| && SpansFrom(s, p)[k].a <= j < SpansFrom(s, p)[k].b
    decreases |s| - p
  {
    var ts := SpansFrom(s, p);
    if IsBookSpace(s[p]) {
      SpansFromCover(s, p + 1, j, m);
    } else {
      var e := RunEnd(s, p);
      RunEndStops(s, p);
      assert e <= m;
      assert ts == [Span(p, e)] + SpansFrom(s, e + 1);
      if j < e {
        assert ts[0].a <= j < ts[0].b;
      } else {
        assert j != e;
        SpansFromCover(s, e + 1, j, m);
        var k :| 0 <= k < |SpansFrom(s, e + 1)| && SpansFrom(s, e + 1)[k].a <= j < SpansFrom(s, e + 1)[k].b;
        assert ts[k + 1] == SpansFrom(s, e + 1)[k];
      }
    }
  }

  /** Every text character that has white space somewhere after it lies inside
      a token: nothing is lost except an unclosed tail. */
  lemma TokensCover(s: string, j: nat, m: nat)
    requires j < m < |s| && !IsBookSpace(s[j]) && IsBookSpace(s[m])
    ensures exists k :: 0 <= k < |Tokens(s)| && Tokens(s)[k].a <= j < Tokens(s)[k].b
  {
    if |s| > 0 && s[0] == '\r' {
      SpansFromCover(s, 1, j, m);
      var k :| 0 <= k < |SpansFrom(s, 1)| && SpansFrom(s, 1)[k].a <= j < SpansFrom(s, 1)[k].b;
      assert Tokens(s)[k + 1] == SpansFrom(s, 1)[k];
    } else {
      SpansFromCover(s, 0, j, m);
      assert Tokens(s) == SpansFrom(s, 0);
    }
  }

  /** Text after the last white space is never reported: when `s[j..]` holds no
      white space, every token ends before `j`. */
  lemma UnclosedTailDropped(s: string, j: nat)
    requires j <= |s|
    requires forall m :: j <= m < |s| ==> !IsBookSpace(s[m])
    ensures forall k :: 0 <= k < |Tokens(s)| ==> Tokens(s)[k].b < j
  {
    TokensClosed(s);
    forall k | 0 <= k < |Tokens(s)|
      ensures Tokens(s)[k].b < j
    {
      assert ClosedRun(s, Tokens(s)[k]);
    }
  }

  /** Examples: the last word of a text with no trailing white space is dropped;
      a leading '\r' yields an empty first token. */
  lemma TokensExamples()
    ensures Tokens("ab cd") == [Span(0, 2)]
    ensures Tokens("ab cd ") == [Span(0, 2), Span(3, 5)]
    ensures Tokens("\rab ") == [Span(0, 0), Span(1, 3)]
    ensures Tokens("") == []
  {
    assert RunEnd("ab cd", 3) == 5;
    assert RunEnd("ab cd", 0) == 2;
    assert RunEnd("ab cd ", 3) == 5;
    assert RunEnd("ab cd ", 0) == 2;
    assert RunEnd("\rab ", 1) == 3;
  }

  // ===========================================================================
  // The distance oracle (fuzzy.RankFindFold)

  /** The test `fuzzy.RankFindFold` applies to one target: `Some(d)` when the
      source matches the target at Levenshtein distance `d`, `None` when it does
      not match. How the library decides either is not part of this model. */
  type Oracle = (string, string) -> Option<nat>

  /** One entry of `fuzzy.Ranks`: a matching target's distance and position. */
  datatype Rank = Rank(distance: nat, originalIndex: nat)

  /** The ranks of the first `m` targets, in target order. */
  function RanksOf(dist: Oracle, source: string, targets: seq<string>, m: nat): (rs: seq<Rank>)
    requires m <= |targets|
    ensures forall k :: 0 <= k < |rs| ==>
      rs[k].originalIndex < m && dist(source, targets[rs[k].originalIndex]) == Some(rs[k].distance)
  {
    if m == 0 then []
    else
      RanksOf(dist, source, targets, m - 1)
      + match dist(source, targets[m - 1]) case Some(d) => [Rank(d, m - 1)] case None => []
  }

  /** `fuzzy.RankFindFold(source, targets)`: one rank per matching target. */
  function RankFindFold(dist: Oracle, source: string, targets: seq<string>): seq<Rank> {
    RanksOf(dist, source, targets, |targets|)
  }

  /** Every matching target is ranked. */
  lemma {:induction false} RanksOfComplete(dist: Oracle, source: string, targets: seq<string>, m: nat, j: nat)
    requires j < m <= |targets| && dist(source, targets[j]).Some?
    ensures exists k :: 0 <= k < |RanksOf(dist, source, targets, m)| && RanksOf(dist, source, targets, m)[k].originalIndex == j
  {
    var rs := RanksOf(dist, source, targets, m);
    var prev := RanksOf(dist, source, targets, m - 1);
    assert rs[..|prev|] == prev;
    if j == m - 1 {
      assert rs[|prev|] == Rank(dist(source, targets[j]).value, j);
    } else {
      RanksOfComplete(dist, source, targets, m - 1, j);
      var k :| 0 <= k < |prev| && prev[k].originalIndex == j;
      assert rs[k] == prev[k];
    }
  }

  /** The ranks come in strictly increasing target order. */
  lemma {:induction false} RanksOfIncreasing(dist: Oracle, source: string, targets: seq<string>, m: nat)
    requires m <= |targets|
    ensures Increasing(RanksOf(dist, source, targets, m))
  {
    if m > 0 {
      RanksOfIncreasing(dist, source, targets, m - 1);
    }
  }

  /** A single target is ranked exactly when it matches. */
  lemma RankFindFoldOne(dist: Oracle, source: string, t: string)
    ensures |RankFindFold(dist, source, [t])| == 0 <==> dist(source, t).None?
    ensures dist(source, t).Some? ==> RankFindFold(dist, source, [t]) == [Rank(dist(source, t).value, 0)]
  {
    assert RanksOf(dist, source, [t], 0) == [];
  }

  /** The ranks name strictly increasing targets. */
  predicate Increasing(rs: seq<Rank>) {
    forall k, l :: 0 <= k < l < |rs| ==> rs[k].originalIndex < rs[l].originalIndex
  }

  // ===========================================================================
  // The matcher

  /** The searcher's settings (Go's `localSearcher`). */
  datatype LocalSearcher = LocalSearcher(maxDistance: int, randomResult: bool)

  /** `NewSearcher(maxDistance, randomResult)`: whatever `randomResult` is
      passed, the searcher picks among its candidates at random. */
  function NewSearcher(maxDistance: int, randomResult: bool): (l: LocalSearcher)
    ensures l.maxDistance == maxDistance && l.randomResult
  {
    LocalSearcher(maxDistance, true)
  }

  /** The random-selection flag passed to `NewSearcher` has no effect. */
  lemma NewSearcherIgnoresFlag(maxDistance: int)
    ensures NewSearcher(maxDistance, false) == NewSearcher(maxDistance, true)
  {
  }

  /** Word `w` is within `max` of token text `t`. */
  predicate Close(dist: Oracle, w: string, t: string, max: int) {
    dist(w, t).Some? && dist(w, t).value <= max
  }

  /** The ranks whose distance is at most `max`, in order (`filteredRanks`). */
  function KeepClose(rs: seq<Rank>, max: int): (fs: seq<Rank>)
    ensures forall k :: 0 <= k < |fs| ==> fs[k] in rs && fs[k].distance <= max
  {
    if rs == [] then []
    else KeepClose(rs[..|rs| - 1], max) + if rs[|rs| - 1].distance <= max then [rs[|rs| - 1]] else []
  }

  /** Every rank within `max` is kept. */
  lemma {:induction false} KeepCloseComplete(rs: seq<Rank>, max: int, x: Rank)
    requires x in rs && x.distance <= max
    ensures x in KeepClose(rs, max)
  {
    if x != rs[|rs| - 1] {
      KeepCloseComplete(rs[..|rs| - 1], max, x);
    }
  }

  /** Filtering keeps the target order. */
  lemma {:induction false} KeepCloseIncreasing(rs: seq<Rank>, max: int)
    requires Increasing(rs)
    ensures Increasing(KeepClose(rs, max))
  {
    if rs != [] {
      var init := rs[..|rs| - 1];
      KeepCloseIncreasing(init, max);
      var fs := KeepClose(rs, max);
      var prev := KeepClose(init, max);
      forall k | 0 <= k < |prev|
        ensures prev[k].originalIndex < rs[|rs| - 1].originalIndex
      {
        var i :| 0 <= i < |init| && init[i] == prev[k];
      }
    }
  }

  /** The anchors: the tokens of the text that are close to the first phrase
      word, as ranks in token order. */
  function Anchors(dist: Oracle, max: int, w: string, texts: seq<string>): seq<Rank> {
    KeepClose(RankFindFold(dist, w, texts), max)
  }

  /** The anchors are in increasing token order. */
  lemma AnchorsIncreasing(dist: Oracle, max: int, w: string, texts: seq<string>)
    ensures Increasing(Anchors(dist, max, w, texts))
  {
    RanksOfIncreasing(dist, w, texts, |texts|);
    KeepCloseIncreasing(RankFindFold(dist, w, texts), max);
  }

  /** Every anchor is a token close to `w`, and carries its distance. */
  lemma AnchorIsClose(dist: Oracle, max: int, w: string, texts: seq<string>, k: nat)
    requires k < |Anchors(dist, max, w, texts)|
    ensures var j := Anchors(dist, max, w, texts)[k].originalIndex;
      j < |texts| && Close(dist, w, texts[j], max)
      && dist(w, texts[j]) == Some(Anchors(dist, max, w, texts)[k].distance)
  {
    assert Anchors(dist, max, w, texts)[k] in RankFindFold(dist, w, texts);
  }

  /** Every token close to `w` is an anchor. */
  lemma CloseIsAnchor(dist: Oracle, max: int, w: string, texts: seq<string>, j: nat)
    requires j < |texts| && Close(dist, w, texts[j], max)
    ensures exists k :: 0 <= k < |Anchors(dist, max, w, texts)| && Anchors(dist, max, w, texts)[k].originalIndex == j
  {
    var rs := RankFindFold(dist, w, texts);
    var anchors := Anchors(dist, max, w, texts);
    RanksOfComplete(dist, w, texts, |texts|, j);
    var k :| 0 <= k < |rs| && rs[k].originalIndex == j;
    KeepCloseComplete(rs, max, rs[k]);
    var i :| 0 <= i < |anchors| && anchors[i] == rs[k];
  }

  /** Token `j` is an anchor exactly when it is close to the first phrase
      word. */
  lemma AnchorsExactly(dist: Oracle, max: int, w: string, texts: seq<string>, j: nat)
    ensures (exists k :: 0 <= k < |Anchors(dist, max, w, texts)| && Anchors(dist, max, w, texts)[k].originalIndex == j)
      <==> j < |texts| && Close(dist, w, texts[j], max)
  {
    if j < |texts| && Close(dist, w, texts[j], max) {
      CloseIsAnchor(dist, max, w, texts, j);
    }
    if exists k :: 0 <= k < |Anchors(dist, max, w, texts)| && Anchors(dist, max, w, texts)[k].originalIndex == j {
      var k :| 0 <= k < |Anchors(dist, max, w, texts)| && Anchors(dist, max, w, texts)[k].originalIndex == j;
      AnchorIsClose(dist, max, w, texts, k);
    }
  }

  /** Every anchor leaves room for all `n` phrase words among `m` tokens. */
  predicate Fits(anchors: seq<Rank>, n: nat, m: nat) {
    forall k :: 0 <= k < |anchors| ==> anchors[k].originalIndex + n <= m
  }

  /** The offsets from the start of span `j` to the end of span `j + n - 1`. */
  function Join(ts: seq<Span>, j: nat, n: nat): Span
    requires 1 <= n && j + n <= |ts|
  {
    Span(ts[j].a, ts[j + n - 1].b)
  }

  /** The match span of `n` words at token `j` of `s`. */
  function MatchSpan(s: string, j: nat, n: nat): Span
    requires 1 <= n && j + n <= |Tokens(s)|
  {
    Join(Tokens(s), j, n)
  }

  /** The match spans recorded for `anchors` over the fields `fs` and their
      spans `ts`, in order: an anchor is recorded when the last phrase word is
      close to the field `|W| - 1` places after it, whatever the words
      between. */
  function CandidatesOf(dist: Oracle, max: int, W: seq<string>, fs: seq<string>, ts: seq<Span>, anchors: seq<Rank>): seq<Span>
    requires |W| >= 1 && |ts| == |fs| && Fits(anchors, |W|, |fs|)
  {
    if anchors == [] then []
    else
      var j := anchors[|anchors| - 1].originalIndex;
      CandidatesOf(dist, max, W, fs, ts, anchors[..|anchors| - 1])
      + if |W| >= 2 && Close(dist, W[|W| - 1], fs[j + |W| - 1], max) then [Join(ts, j, |W|)] else []
  }

  /** One more anchor that fits extends a fitting prefix. */
  lemma FitsPrefix(anchors: seq<Rank>, n: nat, m: nat, x: nat)
    requires x < |anchors| && Fits(anchors[..x], n, m) && anchors[x].originalIndex + n <= m
    ensures Fits(anchors[..x + 1], n, m)
  {
    var longer := anchors[..x + 1];
    forall k | 0 <= k < |longer|
      ensures longer[k].originalIndex + n <= m
    {
      if k < x {
        assert longer[k] == anchors[..x][k];
      }
    }
  }

  /** Dropping the last anchor keeps the rest fitting, and the candidates of
      all anchors extend those of the rest by at most the last anchor's span. */
  lemma CandidatesOfSnoc(dist: Oracle, max: int, W: seq<string>, fs: seq<string>, ts: seq<Span>, anchors: seq<Rank>)
    requires |W| >= 1 && |ts| == |fs| && Fits(anchors, |W|, |fs|) && anchors != []
    ensures Fits(anchors[..|anchors| - 1], |W|, |fs|)
    ensures var j := anchors[|anchors| - 1].originalIndex;
      CandidatesOf(dist, max, W, fs, ts, anchors)
      == CandidatesOf(dist, max, W, fs, ts, anchors[..|anchors| - 1])
         + if |W| >= 2 && Close(dist, W[|W| - 1], fs[j + |W| - 1], max) then [Join(ts, j, |W|)] else []
  {
  }

  /** The candidates for phrase words `W` in `s`. */
  function Candidates(dist: Oracle, max: int, W: seq<string>, s: string): seq<Span>
    requires |W| >= 1 && Fits(Anchors(dist, max, W[0], Texts(s)), |W|, |Tokens(s)|)
  {
    CandidatesOf(dist, max, W, Texts(s), Tokens(s), Anchors(dist, max, W[0], Texts(s)))
  }

  /** A match span lies inside the text and covers tokens `j` to `j + n - 1`. */
  lemma MatchSpanCovers(s: string, j: nat, n: nat)
    requires 1 <= n && j + n <= |Tokens(s)|
    ensures 0 <= MatchSpan(s, j, n).a <= MatchSpan(s, j, n).b < |s|
    ensures forall t :: j <= t < j + n ==>
      MatchSpan(s, j, n).a <= Tokens(s)[t].a && Tokens(s)[t].b <= MatchSpan(s, j, n).b
  {
    TokensInOrder(s);
  }

  /** A span recorded for `anchors` is the joined span of an anchor whose last
      aligned field is close to the last phrase word. */
  lemma {:induction false} CandidateOfIsAligned(dist: Oracle, max: int, W: seq<string>, fs: seq<string>, ts: seq<Span>, anchors: seq<Rank>, sp: Span)
    requires |W| >= 1 && |ts| == |fs| && Fits(anchors, |W|, |fs|)
    requires sp in CandidatesOf(dist, max, W, fs, ts, anchors)
    ensures exists k :: (0 <= k < |anchors| && |W| >= 2
      && Close(dist, W[|W| - 1], fs[anchors[k].originalIndex + |W| - 1], max)
      && sp == Join(ts, anchors[k].originalIndex, |W|))
  {
    var init := anchors[..|anchors| - 1];
    CandidatesOfSnoc(dist, max, W, fs, ts, anchors);
    if sp in CandidatesOf(dist, max, W, fs, ts, init) {
      CandidateOfIsAligned(dist, max, W, fs, ts, init, sp);
      var k :| 0 <= k < |init| && |W| >= 2
        && Close(dist, W[|W| - 1], fs[init[k].originalIndex + |W| - 1], max)
        && sp == Join(ts, init[k].originalIndex, |W|);
      assert init[k] == anchors[k];
    } else {
      var k := |anchors| - 1;
      assert sp == Join(ts, anchors[k].originalIndex, |W|);
    }
  }

  /** The joined span of an anchor whose last aligned field is close to the
      last phrase word is recorded. */
  lemma {:induction false} AlignedIsCandidateOf(dist: Oracle, max: int, W: seq<string>, fs: seq<string>, ts: seq<Span>, anchors: seq<Rank>, k: nat)
    requires |W| >= 2 && |ts| == |fs| && Fits(anchors, |W|, |fs|) && k < |anchors|
    requires Close(dist, W[|W| - 1], fs[anchors[k].originalIndex + |W| - 1], max)
    ensures Join(ts, anchors[k].originalIndex, |W|) in CandidatesOf(dist, max, W, fs, ts, anchors)
  {
    var init := anchors[..|anchors| - 1];
    CandidatesOfSnoc(dist, max, W, fs, ts, anchors);
    if k < |init| {
      assert init[k] == anchors[k];
      AlignedIsCandidateOf(dist, max, W, fs, ts, init, k);
    }
  }

  /** Every candidate over the fields `fs` and spans `ts` is the joined span of
      a field close to the first phrase word whose last aligned field is close
      to the last phrase word. */
  lemma CandidateIsAlignedOf(dist: Oracle, max: int, W: seq<string>, fs: seq<string>, ts: seq<Span>, sp: Span)
    requires |W| >= 1 && |ts| == |fs| && Fits(Anchors(dist, max, W[0], fs), |W|, |fs|)
    requires sp in CandidatesOf(dist, max, W, fs, ts, Anchors(dist, max, W[0], fs))
    ensures exists j: nat :: (j + |W| <= |fs| && |W| >= 2
      && Close(dist, W[0], fs[j], max)
      && Close(dist, W[|W| - 1], fs[j + |W| - 1], max)
      && sp == Join(ts, j, |W|))
  {
    var anchors := Anchors(dist, max, W[0], fs);
    CandidateOfIsAligned(dist, max, W, fs, ts, anchors, sp);
    var k :| 0 <= k < |anchors| && |W| >= 2
      && Close(dist, W[|W| - 1], fs[anchors[k].originalIndex + |W| - 1], max)
      && sp == Join(ts, anchors[k].originalIndex, |W|);
    AnchorIsClose(dist, max, W[0], fs, k);
    var j: nat := anchors[k].originalIndex;
    assert Close(dist, W[0], fs[j], max);
  }

  /** Every candidate is the match span of a token `j` close to the first
      phrase word whose token `j + |W| - 1` is close to the last phrase word. */
  lemma CandidateIsAligned(dist: Oracle, max: int, W: seq<string>, s: string, sp: Span)
    requires |W| >= 1 && Fits(Anchors(dist, max, W[0], Texts(s)), |W|, |Tokens(s)|)
    requires sp in Candidates(dist, max, W, s)
    ensures exists j: nat :: (j + |W| <= |Tokens(s)| && |W| >= 2
      && Close(dist, W[0], Texts(s)[j], max)
      && Close(dist, W[|W| - 1], Texts(s)[j + |W| - 1], max)
      && sp == MatchSpan(s, j, |W|))
  {
    var fs, ts := Texts(s), Tokens(s);
    CandidateIsAlignedOf(dist, max, W, fs, ts, sp);
    var j: nat :| j + |W| <= |fs| && |W| >= 2
      && Close(dist, W[0], fs[j], max)
      && Close(dist, W[|W| - 1], fs[j + |W| - 1], max)
      && sp == Join(ts, j, |W|);
    assert sp == MatchSpan(s, j, |W|);
  }

  /** The match span of every token `j` close to the first phrase word whose
      token `j + |W| - 1` is close to the last phrase word is a candidate. */
  lemma AlignedIsCandidate(dist: Oracle, max: int, W: seq<string>, s: string, j: nat)
    requires |W| >= 2 && Fits(Anchors(dist, max, W[0], Texts(s)), |W|, |Tokens(s)|)
    requires j + |W| <= |Tokens(s)|
    requires Close(dist, W[0], Texts(s)[j], max) && Close(dist, W[|W| - 1], Texts(s)[j + |W| - 1], max)
    ensures MatchSpan(s, j, |W|) in Candidates(dist, max, W, s)
  {
    var anchors := Anchors(dist, max, W[0], Texts(s));
    CloseIsAnchor(dist, max, W[0], Texts(s), j);
    var k :| 0 <= k < |anchors| && anchors[k].originalIndex == j;
    AlignedIsCandidateOf(dist, max, W, Texts(s), Tokens(s), anchors, k);
  }

  /** Of two joined spans of the same length over spans in order, the one that
      starts at the earlier span starts and ends earlier. */
  lemma JoinMonotone(s: string, ts: seq<Span>, j: nat, j': nat, n: nat)
    requires InOrder(s, ts) && 1 <= n && j < j' && j' + n <= |ts|
    ensures Join(ts, j, n).a < Join(ts, j', n).a
    ensures Join(ts, j, n).b < Join(ts, j', n).b
  {
    assert ts[j].a <= ts[j].b < ts[j'].a;
    assert ts[j + n - 1].b < ts[j' + n - 1].a <= ts[j' + n - 1].b;
  }

  /** Over spans in order inside `s`, every recorded span lies inside `s`. */
  lemma {:induction false} CandidatesOfInside(dist: Oracle, max: int, W: seq<string>, s: string, fs: seq<string>, ts: seq<Span>, anchors: seq<Rank>)
    requires |W| >= 1 && |ts| == |fs| && Fits(anchors, |W|, |fs|) && InOrder(s, ts)
    ensures var cs := CandidatesOf(dist, max, W, fs, ts, anchors);
      forall k :: 0 <= k < |cs| ==> 0 <= cs[k].a <= cs[k].b < |s|
  {
    if anchors != [] {
      var init := anchors[..|anchors| - 1];
      var last := anchors[|anchors| - 1].originalIndex;
      CandidatesOfSnoc(dist, max, W, fs, ts, anchors);
      CandidatesOfInside(dist, max, W, s, fs, ts, init);
      if 1 < |W| {
        assert ts[last].b < ts[last + |W| - 1].a;
      }
    }
  }

  /** For increasing anchors over spans in order, the recorded spans have
      strictly increasing starts and ends. */
  lemma {:induction false} CandidatesOfInOrder(dist: Oracle, max: int, W: seq<string>, s: string, fs: seq<string>, ts: seq<Span>, anchors: seq<Rank>)
    requires |W| >= 1 && |ts| == |fs| && Fits(anchors, |W|, |fs|) && InOrder(s, ts) && Increasing(anchors)
    ensures var cs := CandidatesOf(dist, max, W, fs, ts, anchors);
      forall k, l :: 0 <= k < l < |cs| ==> cs[k].a < cs[l].a && cs[k].b < cs[l].b
  {
    if anchors != [] {
      var n := |W|;
      var init := anchors[..|anchors| - 1];
      var last := anchors[|anchors| - 1].originalIndex;
      CandidatesOfSnoc(dist, max, W, fs, ts, anchors);
      assert Increasing(init);
      CandidatesOfInOrder(dist, max, W, s, fs, ts, init);
      var prev := CandidatesOf(dist, max, W, fs, ts, init);
      var cs := CandidatesOf(dist, max, W, fs, ts, anchors);
      if |cs| > |prev| {
        var c := Join(ts, last, n);
        assert cs == prev + [c];
        forall k | 0 <= k < |prev|
          ensures prev[k].a < c.a && prev[k].b < c.b
        {
          assert prev[k] in prev;
          CandidateOfIsAligned(dist, max, W, fs, ts, init, prev[k]);
          var i :| 0 <= i < |init| && prev[k] == Join(ts, init[i].originalIndex, n);
          assert init[i] == anchors[i];
          JoinMonotone(s, ts, init[i].originalIndex, last, n);
        }
      } else {
        assert cs == prev;
      }
    }
  }

  /** The candidates lie inside the text, and both their start and their end
      offsets strictly increase: the first one belongs to the lowest anchor. */
  lemma CandidatesInOrder(dist: Oracle, max: int, W: seq<string>, s: string)
    requires |W| >= 1 && Fits(Anchors(dist, max, W[0], Texts(s)), |W|, |Tokens(s)|)
    ensures var cs := Candidates(dist, max, W, s);
      && (forall k :: 0 <= k < |cs| ==> 0 <= cs[k].a <= cs[k].b < |s|)
      && (forall k, l :: 0 <= k < l < |cs| ==> cs[k].a < cs[l].a && cs[k].b < cs[l].b)
  {
    var anchors := Anchors(dist, max, W[0], Texts(s));
    AnchorsIncreasing(dist, max, W[0], Texts(s));
    TokensInOrder(s);
    CandidatesOfInside(dist, max, W, s, Texts(s), Tokens(s), anchors);
    CandidatesOfInOrder(dist, max, W, s, Texts(s), Tokens(s), anchors);
    assert Candidates(dist, max, W, s) == CandidatesOf(dist, max, W, Texts(s), Tokens(s), anchors);
  }

  /** A one-word phrase leaves room after every anchor and records nothing. */
  lemma SingleWordNeverMatches(dist: Oracle, max: int, W: seq<string>, s: string)
    requires |W| == 1
    ensures Fits(Anchors(dist, max, W[0], Texts(s)), |W|, |Tokens(s)|)
    ensures Candidates(dist, max, W, s) == []
  {
    var anchors := Anchors(dist, max, W[0], Texts(s));
    forall k | 0 <= k < |anchors|
      ensures anchors[k].originalIndex + 1 <= |Tokens(s)|
    {
      AnchorIsClose(dist, max, W[0], Texts(s), k);
    }
    if Candidates(dist, max, W, s) != [] {
      CandidateOfIsAligned(dist, max, W, Texts(s), Tokens(s), anchors, Candidates(dist, max, W, s)[0]);
    }
  }

  /** For the same anchors, phrases that agree on their last word record the
      same spans. */
  lemma {:induction false} MiddleWordsIgnoredOf(dist: Oracle, max: int, W: seq<string>, V: seq<string>, fs: seq<string>, ts: seq<Span>, anchors: seq<Rank>)
    requires |W| >= 1 && |V| == |W| && V[|V| - 1] == W[|W| - 1]
    requires |ts| == |fs| && Fits(anchors, |W|, |fs|)
    ensures CandidatesOf(dist, max, W, fs, ts, anchors) == CandidatesOf(dist, max, V, fs, ts, anchors)
  {
    if anchors != [] {
      CandidatesOfSnoc(dist, max, W, fs, ts, anchors);
      CandidatesOfSnoc(dist, max, V, fs, ts, anchors);
      MiddleWordsIgnoredOf(dist, max, W, V, fs, ts, anchors[..|anchors| - 1]);
    }
  }

  /** Only the first and the last phrase words matter: phrases that agree on
      those and on their length have the same candidates. */
  lemma MiddleWordsIgnored(dist: Oracle, max: int, W: seq<string>, V: seq<string>, s: string)
    requires |W| >= 1 && |V| == |W| && V[0] == W[0] && V[|V| - 1] == W[|W| - 1]
    requires Fits(Anchors(dist, max, W[0], Texts(s)), |W|, |Tokens(s)|)
    ensures Fits(Anchors(dist, max, V[0], Texts(s)), |V|, |Tokens(s)|)
    ensures Candidates(dist, max, W, s) == Candidates(dist, max, V, s)
  {
    MiddleWordsIgnoredOf(dist, max, W, V, Texts(s), Tokens(s), Anchors(dist, max, W[0], Texts(s)));
  }

  // ---------------------------------------------------------------------------
  // The search

  /** The loop that keeps the ranks within `max` (`filteredRanks`). */
  method FilterRanks(ranks: seq<Rank>, max: int) returns (filteredRanks: seq<Rank>)
    ensures filteredRanks == KeepClose(ranks, max)
  {
    filteredRanks := [];
    for x := 0 to |ranks|
      invariant filteredRanks == KeepClose(ranks[..x], max)
    {
      assert ranks[..x + 1][..x] == ranks[..x];
      if ranks[x].distance > max {
        continue;
      }
      filteredRanks := filteredRanks + [ranks[x]];
    }
    assert ranks[..|ranks|] == ranks;
  }

  /** The inner loop for anchor `j`: phrase word `i + 1` is compared with field
      `j + 1 + i`, a word that is not close is skipped, and the joined span is
      reported when the last word is close. Reaching past the last field is the
      error `IndexOutOfRange` (a panic in Go). */
  method Align(dist: Oracle, max: int, W: seq<string>, contentFields: seq<string>, contentIndexes: seq<Span>, j: nat)
    returns (r: Ret<Option<Span>, SearchError>)
    requires |W| >= 1 && j < |contentFields| && |contentIndexes| == |contentFields|
    ensures r.err.None? || r.err == Some(IndexOutOfRange)
    ensures r.err.Some? <==> j + |W| > |contentFields|
    ensures r.err.Some? ==> r.value == None
    ensures r.err.None? ==> r.value.Some? == (|W| >= 2 && Close(dist, W[|W| - 1], contentFields[j + |W| - 1], max))
    ensures r.err.None? && r.value.Some? ==> r.value.value == Join(contentIndexes, j, |W|)
  {
    var n := |W|;
    var found: Option<Span> := None;
    for i := 0 to n - 1
      invariant j + i < |contentFields|
      invariant i < n - 1 || n < 2 ==> found == None
      invariant i == n - 1 && n >= 2 ==>
        found.Some? == Close(dist, W[n - 1], contentFields[j + n - 1], max)
      invariant found.Some? ==> found.value == Join(contentIndexes, j, n)
    {
      var targetIndex := j + 1 + i;
      if targetIndex >= |contentFields| {
        return Ret(None, Some(IndexOutOfRange));
      }
      var secondRanks := RankFindFold(dist, W[i + 1], [contentFields[targetIndex]]);
      RankFindFoldOne(dist, W[i + 1], contentFields[targetIndex]);
      if |secondRanks| == 0 {
        continue;
      }
      if secondRanks[0].distance > max {
        continue;
      }
      if i == n - 2 {
        var firstWord := j;
        var lastWord := j + n - 1;
        found := Some(Span(contentIndexes[firstWord].a, contentIndexes[lastWord].b));
      }
    }
    return Ret(found, None);
  }

  /** One step of the outer loop: an anchor that leaves room extends the
      fitting prefix, and what the inner loop found for it extends the
      candidates. */
  lemma CollectStep(dist: Oracle, max: int, W: seq<string>, fs: seq<string>, ts: seq<Span>, anchors: seq<Rank>, x: nat, found: Option<Span>)
    requires |W| >= 1 && |ts| == |fs| && x < |anchors|
    requires Fits(anchors[..x], |W|, |fs|) && anchors[x].originalIndex + |W| <= |fs|
    requires found.Some? == (|W| >= 2 && Close(dist, W[|W| - 1], fs[anchors[x].originalIndex + |W| - 1], max))
    requires found.Some? ==> found.value == Join(ts, anchors[x].originalIndex, |W|)
    ensures Fits(anchors[..x + 1], |W|, |fs|)
    ensures CandidatesOf(dist, max, W, fs, ts, anchors[..x + 1])
      == CandidatesOf(dist, max, W, fs, ts, anchors[..x]) + if found.Some? then [found.value] else []
  {
    FitsPrefix(anchors, |W|, |fs|, x);
    assert anchors[..x + 1][..x] == anchors[..x];
    CandidatesOfSnoc(dist, max, W, fs, ts, anchors[..x + 1]);
  }

  /** The outer loop over the anchors: the joined spans recorded, in anchor
      order, or `IndexOutOfRange` when some anchor leaves no room for the
      phrase. */
  method Collect(dist: Oracle, max: int, W: seq<string>, contentFields: seq<string>, contentIndexes: seq<Span>, anchors: seq<Rank>)
    returns (r: Ret<seq<Span>, SearchError>)
    requires |W| >= 1 && |contentIndexes| == |contentFields|
    requires forall k :: 0 <= k < |anchors| ==> anchors[k].originalIndex < |contentFields|
    ensures r.err.None? || r.err == Some(IndexOutOfRange)
    ensures r.err.Some? <==> !Fits(anchors, |W|, |contentFields|)
    ensures r.err.Some? ==> r.value == []
    ensures r.err.None? ==> Fits(anchors, |W|, |contentFields|)
    ensures r.err.None? ==> r.value == CandidatesOf(dist, max, W, contentFields, contentIndexes, anchors)
  {
    var indexes: seq<Span> := [];
    for x := 0 to |anchors|
      invariant Fits(anchors[..x], |W|, |contentFields|)
      invariant indexes == CandidatesOf(dist, max, W, contentFields, contentIndexes, anchors[..x])
    {
      var rank := anchors[x];
      var aligned := Align(dist, max, W, contentFields, contentIndexes, rank.originalIndex);
      if aligned.err.Some? {
        assert !Fits(anchors, |W|, |contentFields|) by {
          assert anchors[x] == rank;
        }
        return Ret([], aligned.err);
      }
      CollectStep(dist, max, W, contentFields, contentIndexes, anchors, x, aligned.value);
      if aligned.value.Some? {
        indexes := indexes + [aligned.value.value];
      }
    }
    assert anchors[..|anchors|] == anchors;
    return Ret(indexes, None);
  }

  /** `localSearcher.Search(content, phrase)`, with `dist` standing for the
      library's match test. The phrase is split into words `W`; the anchors
      are the tokens close to `W[0]`. A phrase with no words, no anchor, or no
      candidate is "pattern not found". An anchor with fewer than `|W| - 1`
      tokens after it makes the scan index past the last token, which in Go is
      a run-time panic: here the error `IndexOutOfRange`. Otherwise the result
      is a candidate: the first one, or any one when `randomResult` is set. */
  method Search(l: LocalSearcher, dist: Oracle, content: string, phrase: string) returns (r: Ret<Result, SearchError>)
    ensures |Fields(phrase)| == 0 ==> r == Ret(NoResult, Some(PatternNotFound))
    ensures var W := Fields(phrase);
      |W| >= 1 ==>
        var A := Anchors(dist, l.maxDistance, W[0], Texts(content));
        && (!Fits(A, |W|, |Tokens(content)|) ==> r == Ret(NoResult, Some(IndexOutOfRange)))
        && (Fits(A, |W|, |Tokens(content)|) ==>
              var C := Candidates(dist, l.maxDistance, W, content);
              && (C == [] ==> r == Ret(NoResult, Some(PatternNotFound)))
              && (C != [] ==> r.Ok() && Locates(r.value, content) && Span(r.value.posS, r.value.posE) in C)
              && (C != [] && !l.randomResult ==> Span(r.value.posS, r.value.posE) == C[0]))
  {
    var contentFields, contentIndexes := BookFields(content);
    var phraseFields := Fields(phrase);
    if |phraseFields| < 1 {
      return Ret(NoResult, Some(PatternNotFound));
    }
    var ranks := RankFindFold(dist, phraseFields[0], contentFields);
    var filteredRanks := FilterRanks(ranks, l.maxDistance);
    if |filteredRanks| == 0 {
      return Ret(NoResult, Some(PatternNotFound));
    }
    assert forall k :: 0 <= k < |filteredRanks| ==> filteredRanks[k].originalIndex < |contentFields| by {
      forall k | 0 <= k < |filteredRanks|
        ensures filteredRanks[k].originalIndex < |contentFields|
      {
        AnchorIsClose(dist, l.maxDistance, phraseFields[0], contentFields, k);
      }
    }
    var collected := Collect(dist, l.maxDistance, phraseFields, contentFields, contentIndexes, filteredRanks);
    if collected.err.Some? {
      return Ret(NoResult, collected.err);
    }
    var indexes := collected.value;
    assert indexes == Candidates(dist, l.maxDistance, phraseFields, content);
    CandidatesInOrder(dist, l.maxDistance, phraseFields, content);
    if |indexes| == 0 {
      return Ret(NoResult, Some(PatternNotFound));
    }
    var choice: Span;
    if l.randomResult {
      var k :| 0 <= k < |indexes|;
      choice := indexes[k];
    } else {
      choice := indexes[0];
    }
    return Ret(Result(content[choice.a..choice.b], choice.a, choice.b), None);
  }
}
