/** The converters that turn configuration strings into settings, and the
    default settings. Durations are counted in nanoseconds, as Go's
    `time.Duration`, but as unbounded integers. */
module Config {
  import opened Wrappers
  import opened GoStrings

  const Millisecond: int := 1_000_000
  const Second: int := 1_000 * Millisecond
  const Minute: int := 60 * Second
  const Hour: int := 60 * Minute

  /** The unit suffixes a duration may carry. "d" stands for one second, not
      one day. */
  const Suffixes: map<string, int> := map["ms" := Millisecond, "s" := Second, "m" := Minute, "h" := Hour, "d" := Second]

  /** The errors of the converters, one per message of the source. */
  datatype ConfigError =
    | CastToBoolFailed     // "cast '…' to bool failed"
    | NoValueNumber        // "no value number provided"
    | CastValueFailed      // "cast value failed: …"
    | NotAnInteger         // "can't convert … to an integer"
    | UnexpectedFormat     // "unexpected duration format, expected 2 parts at maximum"
    | SuffixNotSupported   // "provided suffix not supported (…)"

  // ---------------------------------------------------------------------------
  // stringToBool

  /** `s` equals the lower-case word `w` up to the case of its letters. */
  predicate EqualFold(s: string, w: string) {
    |s| == |w| && forall k :: 0 <= k < |s| ==> LowerChar(s[k]) == w[k]
  }

  /** `stringToBool(s)`: "1" and "true" are true, "0" and "false" are false,
      in any letter case; anything else is an error with value false. */
  function StringToBool(s: string): (r: Ret<bool, ConfigError>)
    ensures r.err.Some? ==> r == Ret(false, Some(CastToBoolFailed))
  {
    match ToLower(s)
    case "1" => Ret(true, None)
    case "true" => Ret(true, None)
    case "0" => Ret(false, None)
    case "false" => Ret(false, None)
    case _ => Ret(false, Some(CastToBoolFailed))
  }

  lemma ToLowerIs(s: string, w: string)
    ensures ToLower(s) == w <==> EqualFold(s, w)
  {
    if EqualFold(s, w) {
      assert ToLower(s) == w;
    }
  }

  /** The words that `stringToBool` accepts, each way round. */
  lemma StringToBoolAccepts(s: string)
    ensures StringToBool(s) == Ret(true, None) <==> s == "1" || EqualFold(s, "true")
    ensures StringToBool(s) == Ret(false, None) <==> s == "0" || EqualFold(s, "false")
  {
    ToLowerIs(s, "1");
    ToLowerIs(s, "true");
    ToLowerIs(s, "0");
    ToLowerIs(s, "false");
    assert EqualFold(s, "1") <==> s == "1";
    assert EqualFold(s, "0") <==> s == "0";
  }

  lemma StringToBoolExamples()
    ensures StringToBool("TrUe") == Ret(true, None)
    ensures StringToBool("FaLsE") == Ret(false, None)
    ensures StringToBool("1") == Ret(true, None) && StringToBool("0") == Ret(false, None)
    ensures StringToBool("true") == Ret(true, None) && StringToBool("false") == Ret(false, None)
    ensures StringToBool("-1").err.Some? && StringToBool("2").err.Some? && StringToBool("QWERTY").err.Some?
    ensures StringToBool("") == Ret(false, Some(CastToBoolFailed))
  {
    StringToBoolAccepts("true");
    StringToBoolAccepts("false");
    StringToBoolAccepts("TrUe");
    StringToBoolAccepts("FaLsE");
    StringToBoolAccepts("1");
    StringToBoolAccepts("0");
    StringToBoolAccepts("-1");
    StringToBoolAccepts("2");
    StringToBoolAccepts("QWERTY");
    assert !EqualFold("QWERTY", "false") by { assert LowerChar('Q') != 'f'; }
    assert !EqualFold("QWERTY", "true") by { assert |"QWERTY"| != |"true"|; }
  }

  /** The rest of the refused inputs of config_test.go, each with value false. */
  lemma StringToBoolErrorExamples()
    ensures StringToBool("-0") == Ret(false, Some(CastToBoolFailed))
    ensures StringToBool("999") == Ret(false, Some(CastToBoolFailed))
    ensures StringToBool("asdf") == Ret(false, Some(CastToBoolFailed))
  {
    StringToBoolAccepts("-0");
    StringToBoolAccepts("999");
    StringToBoolAccepts("asdf");
    assert !EqualFold("asdf", "true") by { assert LowerChar("asdf"[0]) != "true"[0]; }
    assert !EqualFold("asdf", "false") by { assert |"asdf"| != |"false"|; }
  }

  /** `stringToBoolFallback(s, fallback)`. */
  function StringToBoolFallback(s: string, fallback: bool): (r: bool)
    ensures StringToBool(s).err.Some? ==> r == fallback
    ensures StringToBool(s).Ok() ==> r == StringToBool(s).value
  {
    var parsed := StringToBool(s);
    if parsed.err.Some? then fallback else parsed.value
  }

  // ---------------------------------------------------------------------------
  // stringToDuration

  /** The end of the run of digits that starts at `p`. */
  function DigitRun(w: string, p: nat): (e: nat)
    requires p <= |w|
    ensures p <= e <= |w|
    ensures forall k :: p <= k < e ==> IsDigit(w[k])
    ensures e < |w| ==> !IsDigit(w[e])
    decreases |w| - p
  {
    if p == |w| || !IsDigit(w[p]) then p else DigitRun(w, p + 1)
  }

  /** `valEnded`: the offset of the first non-digit of a field, and 0 when the
      field has none. */
  function ValEnded(w: string): nat {
    var e := DigitRun(w, 0);
    if e == |w| then 0 else e
  }

  /** The unit of a suffix, 0 for an unknown one. */
  function Unit(suffix: string): int {
    if suffix in Suffixes then Suffixes[suffix] else 0
  }

  function WithUnit(number: int, suffix: string): Ret<int, ConfigError> {
    if Unit(suffix) == 0 then Ret(0, Some(SuffixNotSupported)) else Ret(Unit(suffix) * number, None)
  }

  /** What `stringToDuration(s)` returns. One field is a run of digits and a
      suffix; two fields are an integer and a suffix; anything else, and every
      failure, is an error with the value 0. */
  function ParseDuration(s: string): (r: Ret<int, ConfigError>)
    ensures r.err.Some? ==> r.value == 0
  {
    var fields := Fields(s);
    if |fields| == 1 then
      var input := fields[0];
      var valEnded := ValEnded(input);
      if valEnded == 0 then Ret(0, Some(NoValueNumber))
      else if Atoi(input[..valEnded]).None? then Ret(0, Some(CastValueFailed))
      else WithUnit(Atoi(input[..valEnded]).value, input[valEnded..])
    else if |fields| == 2 then
      if Atoi(fields[0]).None? then Ret(0, Some(NotAnInteger))
      else WithUnit(Atoi(fields[0]).value, fields[1])
    else Ret(0, Some(UnexpectedFormat))
  }

  /** `strconv.Atoi` of a one-character string succeeds exactly on a digit. */
  lemma AtoiOneChar(c: char)
    ensures Atoi([c]).Some? <==> IsDigit(c)
  {
    if c == '-' || c == '+' {
      assert [c][1..] == [];
    } else if IsDigit(c) {
      assert DigitsValue([c]) == DigitValue(c) by {
        assert [c][..0] == [];
      }
    }
  }

  /** The loop over the suffix map, in any order of its keys. */
  method LookupUnit(suffix: string) returns (unit: int)
    ensures unit == Unit(suffix)
  {
    unit := 0;
    var keys := Suffixes.Keys;
    while keys != {}
      invariant keys <= Suffixes.Keys
      invariant suffix in Suffixes.Keys - keys ==> suffix !in Suffixes.Keys
      decreases |keys|
    {
      var s :| s in keys;
      if suffix == s {
        unit := Suffixes[s];
        return;
      }
      keys := keys - {s};
    }
  }

  /** `stringToDuration(s)`: the rune loop collects the leading digits of a
      single field, each read with `strconv.Atoi` as Go's `stringToDuration`
      does. */
  method StringToDuration(s: string) returns (r: Ret<int, ConfigError>)
    ensures r == ParseDuration(s)
  {
    var fields := Fields(s);
    var number: int;
    var unit: int;
    if |fields| == 1 {
      var input := fields[0];
      var value := "";
      var valEnded := 0;
      var i := 0;
      while i < |input|
        invariant i <= |input| && value == input[..i] && valEnded == 0
        invariant forall k :: 0 <= k < i ==> IsDigit(input[k])
      {
        AtoiOneChar(input[i]);
        if Atoi([input[i]]).None? {
          valEnded := i;
          break;
        }
        value := value + [input[i]];
        i := i + 1;
      }
      assert DigitRun(input, 0) == i by {
        DigitRunAt(input, 0, i);
      }
      if valEnded == 0 {
        return Ret(0, Some(NoValueNumber));
      }
      var parsed := Atoi(value);
      if parsed.None? {
        return Ret(0, Some(CastValueFailed));
      }
      number := parsed.value;
      unit := LookupUnit(input[valEnded..]);
    } else if |fields| == 2 {
      var value, suffix := fields[0], fields[1];
      var parsed := Atoi(value);
      if parsed.None? {
        return Ret(0, Some(NotAnInteger));
      }
      number := parsed.value;
      unit := LookupUnit(suffix);
    } else {
      return Ret(0, Some(UnexpectedFormat));
    }
    if unit == 0 {
      return Ret(0, Some(SuffixNotSupported));
    }
    return Ret(unit * number, None);
  }

  /** `DigitRun` stops at the first non-digit. */
  lemma {:induction false} DigitRunAt(w: string, p: nat, e: nat)
    requires p <= e <= |w|
    requires forall k :: p <= k < e ==> IsDigit(w[k])
    requires e == |w| || !IsDigit(w[e])
    ensures DigitRun(w, p) == e
    decreases e - p
  {
    if p < e {
      DigitRunAt(w, p + 1, e);
    }
  }

  /** A suffix is a non-empty word of letters. */
  lemma SuffixesAreWords(suffix: string)
    requires suffix in Suffixes
    ensures |suffix| > 0 && NoSpace(suffix) && !IsDigit(suffix[0]) && suffix[0] != '-' && suffix[0] != '+'
  {
  }

  /** A count written straight before a word that does not start with a digit
      is one field whose digits end where the word starts. */
  lemma CompactParts(n: nat, suffix: string)
    requires |suffix| > 0 && NoSpace(suffix) && !IsDigit(suffix[0])
    ensures var w := Decimal(n) + suffix;
      && Fields(w) == [w] && ValEnded(w) == |Decimal(n)|
      && w[..ValEnded(w)] == Decimal(n) && w[ValEnded(w)..] == suffix
  {
    var d := Decimal(n);
    var w := d + suffix;
    DecimalNoSpace(n);
    assert NoSpace(w) by {
      forall k | 0 <= k < |w|
        ensures !IsAsciiSpace(w[k])
      {
        if k >= |d| {
          assert w[k] == suffix[k - |d|];
        }
      }
    }
    FieldsOfWord(w);
    assert forall k :: 0 <= k < |d| ==> IsDigit(w[k]);
    DigitRunAt(w, 0, |d|);
    assert w[..|d|] == d && w[|d|..] == suffix;
  }

  /** A count written without a blank before its suffix reads back as that
      many units. */
  lemma DurationRoundTrip(n: nat, suffix: string)
    requires n <= MaxInt64 && suffix in Suffixes
    ensures ParseDuration(Decimal(n) + suffix) == Ret(n * Suffixes[suffix], None)
  {
    SuffixesAreWords(suffix);
    CompactParts(n, suffix);
    AtoiDecimal(n);
  }

  /** A count and its suffix separated by one blank read back the same way;
      this form takes a signed count, as `strconv.Atoi` does. */
  lemma SpacedDurationRoundTrip(n: int, suffix: string)
    requires MinInt64 <= n <= MaxInt64 && suffix in Suffixes
    ensures ParseDuration(Itoa(n) + " " + suffix) == Ret(n * Suffixes[suffix], None)
  {
    SuffixesAreWords(suffix);
    FieldsOfTwoWords(Itoa(n), suffix);
    AtoiItoa(n);
  }

  /** A sign before a count written straight before its suffix is refused:
      the single field does not start with a digit. */
  lemma SignedCompactFails(sign: char, n: nat, suffix: string)
    requires (sign == '-' || sign == '+') && suffix in Suffixes
    ensures ParseDuration([sign] + Decimal(n) + suffix) == Ret(0, Some(NoValueNumber))
  {
    var w := [sign] + Decimal(n) + suffix;
    SuffixesAreWords(suffix);
    DecimalNoSpace(n);
    assert NoSpace(w) by {
      forall k | 0 <= k < |w|
        ensures !IsAsciiSpace(w[k])
      {
        if 1 <= k < 1 + |Decimal(n)| {
          assert w[k] == Decimal(n)[k - 1];
        } else if k >= 1 + |Decimal(n)| {
          assert w[k] == suffix[k - 1 - |Decimal(n)|];
        }
      }
    }
    FieldsOfWord(w);
    DigitRunAt(w, 0, 0);
  }

  /** A count written straight before a word that is not a known suffix fails
      with "suffix not supported". */
  lemma UnknownSuffixFails(n: nat, suffix: string)
    requires n <= MaxInt64 && |suffix| > 0 && NoSpace(suffix) && !IsDigit(suffix[0])
    requires suffix !in Suffixes
    ensures ParseDuration(Decimal(n) + suffix) == Ret(0, Some(SuffixNotSupported))
  {
    CompactParts(n, suffix);
    AtoiDecimal(n);
  }

  /** A count and a word that is not a known suffix, separated by one blank,
      fail with "suffix not supported". */
  lemma UnknownSpacedSuffixFails(n: int, suffix: string)
    requires MinInt64 <= n <= MaxInt64 && |suffix| > 0 && NoSpace(suffix)
    requires suffix !in Suffixes
    ensures ParseDuration(Itoa(n) + " " + suffix) == Ret(0, Some(SuffixNotSupported))
  {
    FieldsOfTwoWords(Itoa(n), suffix);
    AtoiItoa(n);
  }

  /** "-5 s" is minus five seconds, while "-5s" carries no value number. */
  lemma SignAsymmetryExample()
    ensures ParseDuration("-5 s") == Ret(-5 * Second, None)
    ensures ParseDuration("-5s") == Ret(0, Some(NoValueNumber))
  {
    assert Itoa(-5) + " " + "s" == "-5 s";
    SpacedDurationRoundTrip(-5, "s");
    assert ['-'] + Decimal(5) + "s" == "-5s";
    SignedCompactFails('-', 5, "s");
  }

  /** A single field with no leading digit, or with digits only, carries no
      value number. */
  lemma NoValueNumberCases(s: string)
    requires |Fields(s)| == 1
    requires !IsDigit(Fields(s)[0][0]) || AllDigits(Fields(s)[0])
    ensures ParseDuration(s) == Ret(0, Some(NoValueNumber))
  {
    var w := Fields(s)[0];
    if AllDigits(w) {
      DigitRunAt(w, 0, |w|);
    } else {
      DigitRunAt(w, 0, 0);
    }
  }

  /** More than two fields, or none, is the wrong format. */
  lemma TooManyFields(s: string)
    requires |Fields(s)| != 1 && |Fields(s)| != 2
    ensures ParseDuration(s) == Ret(0, Some(UnexpectedFormat))
  {
  }

  /** "592ms" is 592 milliseconds. */
  lemma CompactDurationExample()
    ensures ParseDuration("592ms") == Ret(592 * Millisecond, None)
  {
    assert Decimal(5) == "5";
    assert Decimal(59) == "59";
    assert Decimal(592) == "592";
    DurationRoundTrip(592, "ms");
    assert "592" + "ms" == "592ms";
    assert Suffixes["ms"] == Millisecond;
  }

  /** "15 h" is 15 hours. */
  lemma SpacedDurationExample()
    ensures ParseDuration("15 h") == Ret(15 * Hour, None)
  {
    assert Decimal(1) == "1";
    assert Decimal(15) == "15";
    SpacedDurationRoundTrip(15, "h");
    assert "15" + " " + "h" == "15 h";
    assert Suffixes["h"] == Hour;
  }

  /** "1d" is one second, as "1s" is. */
  lemma DayIsOneSecond()
    ensures ParseDuration("1d") == ParseDuration("1s") == Ret(Second, None)
  {
    assert Decimal(1) == "1";
    DurationRoundTrip(1, "d");
    DurationRoundTrip(1, "s");
    assert "1" + "d" == "1d" && "1" + "s" == "1s";
    assert Suffixes["d"] == Suffixes["s"] == Second;
  }

  /** An empty string has no fields. */
  lemma EmptyDurationFails()
    ensures ParseDuration("") == Ret(0, Some(UnexpectedFormat))
  {
    FieldsEmptyIff("");
  }

  /** "xd s" has no integer value. */
  lemma LetterValueFails()
    ensures ParseDuration("xd s") == Ret(0, Some(NotAnInteger))
  {
    FieldsOfTwoWords("xd", "s");
  }

  /** "ms 254" puts the suffix first. */
  lemma SuffixFirstFails()
    ensures ParseDuration("ms 254") == Ret(0, Some(NotAnInteger))
  {
    FieldsOfTwoWords("ms", "254");
  }

  /** `stringToDurationFallback(s, fallback)`. */
  function StringToDurationFallback(s: string, fallback: int): (r: int)
    ensures ParseDuration(s).err.Some? ==> r == fallback
    ensures ParseDuration(s).Ok() ==> r == ParseDuration(s).value
  {
    var parsed := ParseDuration(s);
    if parsed.err.Some? then fallback else parsed.value
  }

  // ---------------------------------------------------------------------------
  // the other fallbacks and the defaults

  /** `stringToIntFallback(s, fallback)`. */
  function StringToIntFallback(s: string, fallback: int): (r: int)
    ensures Atoi(s).None? ==> r == fallback
    ensures Atoi(s).Some? ==> r == Atoi(s).value
  {
    var parsed := Atoi(s);
    if parsed.None? then fallback else parsed.value
  }

  /** `stringFallback(s, fallback)`: the fallback for an empty string. */
  function StringFallback(s: string, fallback: string): (r: string)
    ensures s == "" ==> r == fallback
    ensures s != "" ==> r == s
  {
    if s == "" then fallback else s
  }

  /** An unset variable (the empty string) leaves every setting at its
      fallback. */
  lemma EmptyMeansFallback(b: bool, d: int, i: int, u: string)
    ensures StringToBoolFallback("", b) == b
    ensures StringToDurationFallback("", d) == d
    ensures StringToIntFallback("", i) == i
    ensures StringFallback("", u) == u
  {
    StringToBoolAccepts("");
    EmptyDurationFails();
  }

  datatype Settings = Settings(
    serverReadTimeout: int, serverWriteTimeout: int,
    answerCache: bool, answerCacheExpiration: int, answerCacheCleanupInterval: int,
    listingCache: bool, listingCacheExpiration: int, listingCacheCleanupInterval: int,
    contentCache: bool, contentCacheExpiration: int, contentCacheCleanupInterval: int,
    downloadDelayMin: int, downloadDelayMax: int,
    searchWorkers: int, searchMaxDistance: int, searchRandomResult: bool, searchTimeout: int,
    providerUserAgent: string, providerTimeout: int)

  /** `GetDefaultConfig()`: every cache on, each entry living longer than its
      cache's cleanup interval, first match rather than a random one, a
      download delay range that is not empty, and positive timeouts. */
  function GetDefaultConfig(): (c: Settings)
    ensures c.answerCache && c.listingCache && c.contentCache && !c.searchRandomResult
    ensures 0 < c.downloadDelayMin < c.downloadDelayMax
    ensures c.searchWorkers > 0 && c.searchMaxDistance >= 0
    ensures c.answerCacheExpiration > c.answerCacheCleanupInterval > 0
    ensures c.listingCacheExpiration > c.listingCacheCleanupInterval > 0
    ensures c.contentCacheExpiration > c.contentCacheCleanupInterval > 0
    ensures c.serverReadTimeout > 0 && c.serverWriteTimeout > 0
    ensures c.searchTimeout > 0 && c.providerTimeout > 0
  {
    Settings(
      2 * Minute, 2 * Minute,
      true, 4 * Hour, 31 * Minute,
      true, 4 * Hour, 10 * Minute,
      true, Hour, 10 * Minute,
      Second, 2 * Second,
      8, 2, false, 2 * Minute,
      "Mozilla/5.0 (X11; Linux x86_64; rv:80.0) Gecko/20100101 Firefox/80.0", 30 * Second)
  }
}
