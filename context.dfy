/** The context extractor that the orchestrator calls: the text from the match
    start up to the next blank line, cut short once the scan passes offset
    200. Offsets are relative to the match start, so the scanned text is
    `t == content[posS..]`. */
module Context {
  import opened Wrappers

  /** Offsets past this one are not scanned for a blank line. */
  const Limit: nat := 200

  /** "context selection failed" and, in the uncapped revision, "context not
      selected". */
  datatype ContextError = SelectionFailed | NotSelected

  /** Offset `i` holds the second of two consecutive line feeds. */
  predicate BlankAt(t: string, i: int) {
    1 <= i < |t| && t[i] == '\n' && t[i - 1] == '\n'
  }

  /** `t` never holds two consecutive line feeds. */
  predicate NoBlankLine(t: string) {
    forall i :: 0 <= i < |t| ==> !BlankAt(t, i)
  }

  /** The first blank-line offset at or after `p`. */
  function FirstBlankFrom(t: string, p: nat): (r: Option<nat>)
    ensures r.Some? ==> p <= r.value && BlankAt(t, r.value)
    ensures r.Some? ==> forall k :: p <= k < r.value ==> !BlankAt(t, k)
    ensures r.None? ==> forall k :: p <= k < |t| ==> !BlankAt(t, k)
    decreases |t| - p
  {
    if p >= |t| then None
    else if BlankAt(t, p) then Some(p)
    else FirstBlankFrom(t, p + 1)
  }

  /** The offset of the second line feed of the first blank line of `t`. */
  function FirstBlank(t: string): Option<nat> {
    FirstBlankFrom(t, 0)
  }

  /** The first blank line is at `i` exactly when `i` is a blank line and none
      comes before it. */
  lemma FirstBlankIs(t: string, i: nat)
    requires BlankAt(t, i) && forall k :: 0 <= k < i ==> !BlankAt(t, k)
    ensures FirstBlank(t) == Some(i)
  {
  }

  /** What the capped extractor selects from `t`: up to the first blank line
      when it ends by offset `Limit + 1`, else the first `Limit + 1` bytes,
      and nothing when `t` ends first. */
  function Excerpt(t: string): Option<string> {
    var blank := FirstBlank(t);
    if blank.Some? && blank.value <= Limit + 1 then Some(t[..blank.value - 1])
    else if |t| > Limit + 1 then Some(t[..Limit + 1])
    else None
  }

  /** `provider.ProvideContext(content, PosS, PosB)`: the loop over
      `content[PosS:]` that remembers the previous byte in `lastChar`.
      `PosB` is not read. */
  method ProvideContext(content: string, posS: nat, posB: int) returns (r: Ret<string, ContextError>)
    requires posS <= |content|
    ensures r.Ok() ==> Excerpt(content[posS..]) == Some(r.value)
    ensures r.err.Some? ==> Excerpt(content[posS..]) == None && r == Ret("", Some(SelectionFailed))
  {
    ghost var t := content[posS..];
    var lastChar: char := '\0';
    for i := 0 to |content| - posS
      invariant i <= Limit + 1
      invariant lastChar == if i == 0 then '\0' else t[i - 1]
      invariant forall k :: 0 <= k < i ==> !BlankAt(t, k)
    {
      var c := content[posS + i];
      if c == '\n' && lastChar == '\n' {
        FirstBlankIs(t, i);
        assert content[posS..posS + i - 1] == t[..i - 1];
        return Ret(content[posS..posS + i - 1], None);
      }
      lastChar := c;
      if i > Limit {
        assert content[posS..posS + i] == t[..i];
        return Ret(content[posS..posS + i], None);
      }
    }
    return Ret("", Some(SelectionFailed));
  }

  /** The excerpt is a prefix of `t` of at most `Limit + 1` bytes and holds no
      blank line. */
  lemma ExcerptIsPrefix(t: string)
    requires Excerpt(t).Some?
    ensures Excerpt(t).value <= t
    ensures |Excerpt(t).value| <= Limit + 1
    ensures NoBlankLine(Excerpt(t).value)
  {
    var x := Excerpt(t).value;
    forall i | 0 <= i < |x|
      ensures !BlankAt(x, i)
    {
      assert x[i] == t[i] && (i >= 1 ==> x[i - 1] == t[i - 1]);
      assert !BlankAt(t, i);
    }
  }

  /** The scan fails exactly when `t` holds no blank line and ends by offset
      `Limit + 1`. */
  lemma ExcerptFailsIff(t: string)
    ensures Excerpt(t).None? <==> NoBlankLine(t) && |t| <= Limit + 1
  {
  }

  /** With no blank line up to offset `Limit + 1`, a longer text is cut after
      `Limit + 1` bytes. */
  lemma ExcerptTruncates(t: string)
    requires |t| > Limit + 1 && forall k :: 0 <= k <= Limit + 1 ==> !BlankAt(t, k)
    ensures Excerpt(t) == Some(t[..Limit + 1])
  {
  }

  /** A paragraph followed by a blank line is selected whole when it is short
      enough, without either line feed. */
  lemma ParagraphExcerpt(p: string, rest: string)
    requires NoBlankLine(p) && (|p| == 0 || p[|p| - 1] != '\n') && |p| <= Limit
    ensures Excerpt(p + "\n\n" + rest) == Some(p)
  {
    var t := p + "\n\n" + rest;
    forall k | 0 <= k < |p| + 1
      ensures !BlankAt(t, k)
    {
      assert k < |p| ==> t[k] == p[k] && (k >= 1 ==> t[k - 1] == p[k - 1]);
      assert k < |p| ==> !BlankAt(p, k);
    }
    FirstBlankIs(t, |p| + 1);
    assert t[..|p|] == p;
  }
}

/** The earlier context extractor: the text from the match start up to the
    next blank line, with no cap, and an error when no blank line follows. */
module UncappedContext {
  import opened Wrappers
  import opened Context

  /** What the uncapped extractor selects from `t`. */
  function Paragraph(t: string): Option<string> {
    var blank := FirstBlank(t);
    if blank.Some? then Some(t[..blank.value - 1]) else None
  }

  /** `provider.ProvideContext(content, PosS, PosB)` of the earlier revision.
      `PosB` is not read. */
  method ProvideContext(content: string, posS: nat, posB: int) returns (r: Ret<string, ContextError>)
    requires posS <= |content|
    ensures r.Ok() ==> Paragraph(content[posS..]) == Some(r.value)
    ensures r.err.Some? ==> Paragraph(content[posS..]) == None && r == Ret("", Some(NotSelected))
  {
    ghost var t := content[posS..];
    var lastChar: char := '\0';
    for i := 0 to |content| - posS
      invariant lastChar == if i == 0 then '\0' else t[i - 1]
      invariant forall k :: 0 <= k < i ==> !BlankAt(t, k)
    {
      var c := content[posS + i];
      if c == '\n' && lastChar == '\n' {
        FirstBlankIs(t, i);
        assert content[posS..posS + i - 1] == t[..i - 1];
        return Ret(content[posS..posS + i - 1], None);
      }
      lastChar := c;
    }
    return Ret("", Some(NotSelected));
  }

  /** The paragraph is a prefix of `t`, holds no blank line and does not end
      with a line feed; there is one exactly when `t` holds a blank line. */
  lemma ParagraphIsPrefix(t: string)
    ensures Paragraph(t).None? <==> NoBlankLine(t)
    ensures Paragraph(t).Some? ==> Paragraph(t).value <= t && NoBlankLine(Paragraph(t).value)
    ensures Paragraph(t).Some? && |Paragraph(t).value| > 0 ==> Paragraph(t).value[|Paragraph(t).value| - 1] != '\n'
  {
    if Paragraph(t).Some? {
      var i := FirstBlank(t).value;
      var x := Paragraph(t).value;
      forall k | 0 <= k < |x|
        ensures !BlankAt(x, k)
      {
        assert x[k] == t[k] && (k >= 1 ==> x[k - 1] == t[k - 1]);
        assert !BlankAt(t, k);
      }
      if |x| > 0 && x[|x| - 1] == '\n' {
        assert BlankAt(t, i - 1);
      }
    }
  }

  /** A paragraph followed by a blank line is selected whole, without either
      line feed, whatever its length. */
  lemma ParagraphSelected(p: string, rest: string)
    requires NoBlankLine(p) && (|p| == 0 || p[|p| - 1] != '\n')
    ensures Paragraph(p + "\n\n" + rest) == Some(p)
  {
    var t := p + "\n\n" + rest;
    forall k | 0 <= k < |p| + 1
      ensures !BlankAt(t, k)
    {
      assert k < |p| ==> t[k] == p[k] && (k >= 1 ==> t[k - 1] == p[k - 1]);
      assert k < |p| ==> !BlankAt(p, k);
    }
    FirstBlankIs(t, |p| + 1);
    assert t[..|p|] == p;
  }

  /** Both revisions agree whenever the first blank line ends by offset
      `Limit + 1`; past it only the capped one selects anything without a
      blank line. */
  lemma CappedAgrees(t: string)
    requires FirstBlank(t).Some? && FirstBlank(t).value <= Limit + 1
    ensures Excerpt(t) == Paragraph(t)
  {
  }

  /** A match inside the second paragraph selects the text from the match to
      the end of that paragraph. */
  lemma SecondParagraphExample()
    ensures Paragraph(("ab\n\nc O d\ne\n\nf")[6..]) == Some("O d\ne")
  {
    var p := "O d\ne";
    assert ("ab\n\nc O d\ne\n\nf")[6..] == p + "\n\n" + "f";
    assert NoBlankLine(p) by {
      assert p[0] != '\n' && p[1] != '\n' && p[2] != '\n' && p[4] != '\n';
    }
    ParagraphSelected(p, "f");
  }
}
