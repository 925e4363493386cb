/** `DateParser.Parse`: the whole pipeline from free text to a calendar date, and
    the last stage, which turns the `[year, month, day]` row into a date. */
module DateParser {
  import opened Wrappers
  import opened JavaText
  import opened Calendar
  import opened NumberTokens
  import opened GengoYearTable
  import opened YearChoice
  import opened AIReadEEUtil
  import opened DateDetect
  import opened DateTokenize
  import opened DateReconstruct
  import DateNormalize
  import EnglishMonth

  // ---------------------------------------------------------------- finalize

  /** The year of the row once the era and a missing century are resolved: an era
      adds its offset (with Java's 32-bit wrap-around); a year below 100 that is not
      a four-digit year becomes 20yy with an English month, otherwise 20yy or
      Reiwa yy, whichever is nearer the reference; that guess must then be a
      four-digit year. */
  function ResolveYear(year: Int32, gengo: Option<Gengo>, hasEnglishMonth: bool, ref: Reference): (r: Option<int>)
    ensures gengo.Some? ==> r == Some(Wrap32(year + gengo.value.yearAdd))
    ensures gengo.None? && (IsCollectYear(year) || year >= 100) ==> r == Some(year)
    ensures gengo.None? && 0 <= year < 100 ==> r.Some? && 2000 <= r.value <= 2117
  {
    if gengo.Some? then
      Some(Wrap32(year + gengo.value.yearAdd))
    else if !IsCollectYear(year) && 100 > year then
      var guess := if hasEnglishMonth then year + 2000 else CalcNealyYearFromWarekiOrYear(year, ref);
      if !IsCollectYear(guess) then None else Some(guess)
    else
      Some(year)
  }

  /** Without an era or English month, a short year is Reiwa exactly when the
      reference year is past its 20yy reading by more than nine years. */
  lemma ShortYearReading(year: Int32, ref: Reference)
    requires 0 <= year < 100
    ensures ResolveYear(year, None, true, ref) == Some(year + 2000)
    ensures ResolveYear(year, None, false, ref) ==
      Some(if ref.year > year + 2009 then year + REIWA_YEAR_ADDITION else year + 2000)
  {
    NealyThreshold(year, ref);
  }

  /** The last part of `ParseInner`: resolve the year, replace the day placeholders
      (末日 by the length of the month, "no day" by the first), and keep the result
      only if Joda accepts it as a date and its year has four digits. */
  function Finalize(row: seq<NumberToken>, gengo: Option<Gengo>, hasEnglishMonth: bool, hasMatsujitsu: bool, ref: Reference)
    : (r: Option<Date>)
    requires |row| == 3
    ensures r.Some? ==> IsCollectYear(r.value.year) && IsValidDate(r.value.year, r.value.month, r.value.day)
    ensures r.Some? ==> Some(r.value.year) == ResolveYear(row[0].token, gengo, hasEnglishMonth, ref)
    ensures r.Some? ==> r.value.month == row[1].token
    ensures r.Some? && (hasMatsujitsu || row[2].token == DATE_MATSUJITU_SIGN) ==>
      r.value.day == DaysInMonth(r.value.year, r.value.month)
    ensures r.Some? && !hasMatsujitsu && row[2].token == DATE_NOTEXIST_SIGN ==> r.value.day == 1
    ensures r.Some? && !hasMatsujitsu && row[2].token !in {DATE_MATSUJITU_SIGN, DATE_NOTEXIST_SIGN} ==>
      r.value.day == row[2].token
    // and conversely: a year that resolves to four digits and an existing day is accepted
    ensures var y := ResolveYear(row[0].token, gengo, hasEnglishMonth, ref);
      y.Some? && IsCollectYear(y.value) && IsMonth(row[1].token) && (hasMatsujitsu || row[2].token == DATE_MATSUJITU_SIGN) ==>
      r == Some(Date(y.value, row[1].token, DaysInMonth(y.value, row[1].token)))
    ensures var y := ResolveYear(row[0].token, gengo, hasEnglishMonth, ref);
      y.Some? && IsCollectYear(y.value) && IsMonth(row[1].token) && !hasMatsujitsu && row[2].token == DATE_NOTEXIST_SIGN ==>
      r == Some(Date(y.value, row[1].token, 1))
    ensures var y := ResolveYear(row[0].token, gengo, hasEnglishMonth, ref);
      y.Some? && IsCollectYear(y.value) && !hasMatsujitsu && row[2].token !in {DATE_MATSUJITU_SIGN, DATE_NOTEXIST_SIGN}
      && IsValidDate(y.value, row[1].token, row[2].token) ==>
      r == Some(Date(y.value, row[1].token, row[2].token))
  {
    var year :- ResolveYear(row[0].token, gengo, hasEnglishMonth, ref);
    var month := row[1].token;
    var day :- if hasMatsujitsu || row[2].token == DATE_MATSUJITU_SIGN then
        // YearMonth.of throws outside its year range or for a month outside 1..12
        if YearMonthMinYear <= year <= YearMonthMaxYear && IsMonth(month) then Some(DaysInMonth(year, month))
        else None
      else if row[2].token == DATE_NOTEXIST_SIGN then Some(1)
      else Some(row[2].token as int);
    // new DateTime(year, month, day, 0, 0) throws on an impossible date
    if !IsValidDate(year, month, day) then None
    else if !IsCollectYear(year) then None
    else Some(Date(year, month, day))
  }

  // ---------------------------------------------------------------- ParseInner

  /** Every token is followed only by blank text (`isNullOrWhiteSpace`). */
  predicate AllAfterWordsBlank(tokens: seq<NumberToken>) {
    forall k | 0 <= k < |tokens| :: IsNullOrWhiteSpace(Some(tokens[k].afterWord))
  }

  /** The digit strings of the tokens, concatenated in order. */
  function JoinTokens(tokens: seq<NumberToken>): string {
    if |tokens| == 0 then "" else JoinTokens(tokens[..|tokens| - 1]) + tokens[|tokens| - 1].tokenAsString
  }

  /** More than four runs: if every run is followed only by blanks they are read as
      one long run (`new NumberToken(joined)`, which throws past the `int` range);
      otherwise the text is refused. */
  function MergeRuns(tokens: seq<NumberToken>): (r: Option<seq<NumberToken>>)
    ensures r.Some? ==> |r.value| == 1 && r.value[0].tokenAsString == JoinTokens(tokens)
    ensures r.Some? <==> AllAfterWordsBlank(tokens) && ParseInt(JoinTokens(tokens)).Some?
  {
    if AllAfterWordsBlank(tokens) then
      var joined :- OfString(JoinTokens(tokens));
      Some([joined])
    else None
  }

  /** What `ParseInner` returns for a non-null text. `basis` is the caller's
      `basisDate` (None for null) and `now` the clock's reading; `timestamp` stands
      for Joda's parser of the pattern `yyyy/MM/dd HH:mm:ss.SSSSSS`, keeping only
      the calendar date. */
  function ParseInnerSpec(src: string, basis: Option<Reference>, now: Reference, timestamp: string -> Option<Date>)
    : (r: Option<Date>)
    ensures src == "" ==> r.None?
  {
    if IsNullOrEmpty(Some(src)) then None
    else
      var english := EnglishMonth.Spec(DateNormalize.Normalized(src));
      FromText(english.0, english.1, basis.GetOr(now), timestamp)
  }

  /** `ParseInner` from the tokenisation on, for the prepared text. */
  function FromText(text: string, info: EnglishMonth.EnglishMonthInfo, ref: Reference, timestamp: string -> Option<Date>)
    : (r: Option<Date>)
    ensures r.Some? && r != timestamp(text) ==> IsCollectYear(r.value.year) && IsValidDate(r.value.year, r.value.month, r.value.day)
    ensures r.Some? && r != timestamp(text) && HasMatsujitsu(text) ==> r.value.day == DaysInMonth(r.value.year, r.value.month)
  {
    var tokens :- Tokens(text);
    if |tokens| == 0 then None
    else if |tokens| > 4 && timestamp(text).Some? then timestamp(text)
    else
      var runs :- if |tokens| > 4 then MergeRuns(tokens) else Some(tokens);
      FromRuns(runs, text, info, ref)
  }

  /** `ParseInner` from the digit runs on: order them, then finalize. */
  function FromRuns(runs: seq<NumberToken>, text: string, info: EnglishMonth.EnglishMonthInfo, ref: Reference)
    : (r: Option<Date>)
    ensures r.Some? ==> IsCollectYear(r.value.year) && IsValidDate(r.value.year, r.value.month, r.value.day)
    ensures r.Some? && HasMatsujitsu(text) ==> r.value.day == DaysInMonth(r.value.year, r.value.month)
  {
    var hasMatsujitsu := HasMatsujitsu(text);
    var ordered :- Reconstruct(runs, Context(info, FindGengo(text), hasMatsujitsu, text, ref));
    Finalize(ordered.0, ordered.1, info.hasEnglishMonth, hasMatsujitsu, ref)
  }

  /** `ParseInner`, step by step, with the two loops over the tokens that the
      fallback for more than four runs performs. */
  method ParseInner(src: string, basis: Option<Reference>, now: Reference, timestamp: string -> Option<Date>)
    returns (r: Option<Date>)
    ensures r == ParseInnerSpec(src, basis, now, timestamp)
  {
    if IsNullOrEmpty(Some(src)) {
      return None;
    }
    var text := DateNormalize.ReplaceFullToHalf(src);
    var info;
    text, info := EnglishMonth.ReplaceEnglishMonthToNumber(text);
    var gengo := FindGengo(text);
    var hasMatsujitsu := HasMatsujitsu(text);
    var tokenized := TokenizeWithNumber(text);
    if tokenized.None? {
      return None;
    }
    var tokens := tokenized.value;
    if |tokens| == 0 {
      return None;
    }
    if |tokens| > 4 {
      // maybe a time stamp
      var parsed := timestamp(text);
      if parsed.Some? {
        return parsed;
      }
      var merged := JoinBlankRuns(tokens);
      if merged.None? {
        return None;
      }
      tokens := merged.value;
    }
    var ref := basis.GetOr(now);
    var ordered := Reconstruct(tokens, Context(info, gengo, hasMatsujitsu, text, ref));
    if ordered.None? {
      return None;
    }
    r := Finalize(ordered.value.0, ordered.value.1, info.hasEnglishMonth, hasMatsujitsu, ref);
    assert r == FromRuns(tokens, text, info, ref);
  }

  /** The fallback's two loops: check that every trailing text is blank, then
      concatenate the digit strings and read them as one token. */
  method JoinBlankRuns(tokens: seq<NumberToken>) returns (r: Option<seq<NumberToken>>)
    ensures r == MergeRuns(tokens)
  {
    var allBlank := true;
    for i := 0 to |tokens|
      invariant allBlank && forall k | 0 <= k < i :: IsNullOrWhiteSpace(Some(tokens[k].afterWord))
    {
      if !IsNullOrWhiteSpace(Some(tokens[i].afterWord)) {
        allBlank := false;
        break;
      }
    }
    if !allBlank {
      return None;
    }
    var joined := "";
    for i := 0 to |tokens|
      invariant joined == JoinTokens(tokens[..i])
    {
      assert tokens[..i + 1][..i] == tokens[..i];
      joined := joined + tokens[i].tokenAsString;
    }
    assert tokens[..|tokens|] == tokens;
    var one := OfString(joined);
    if one.None? {
      return None;
    }
    return Some([one.value]);
  }

  // ---------------------------------------------------------------- Parse

  /** How `Parse` ends: `IllegalArgumentException` for a null text,
      `FormatException` for anything it cannot read, or the date. */
  datatype Outcome = IllegalArgument | FormatError | Parsed(date: Date)

  /** `Parse(src, basisDate)`; `Parse(src)` is the same with no basis date. */
  function Parse(src: Option<string>, basis: Option<Reference>, now: Reference, timestamp: string -> Option<Date>)
    : (r: Outcome)
    ensures r == IllegalArgument <==> src.None?
    ensures r.Parsed? ==> ParseInnerSpec(src.value, basis, now, timestamp) == Some(r.date)
    ensures r == FormatError ==> ParseInnerSpec(src.value, basis, now, timestamp).None?
  {
    if src.None? then IllegalArgument
    else match ParseInnerSpec(src.value, basis, now, timestamp)
      case None => FormatError
      case Some(d) => Parsed(d)
  }

  // ---------------------------------------------------------------- properties

  /** The text the later stages work on: normalised, English month replaced. */
  function Prepared(src: string): string {
    EnglishMonth.Spec(DateNormalize.Normalized(src)).0
  }

  /** Every date `ParseInner` returns, except one taken from the time-stamp parser,
      exists in the calendar and has a four-digit year. */
  lemma ParsedDateIsValid(src: string, basis: Option<Reference>, now: Reference, timestamp: string -> Option<Date>)
    requires ParseInnerSpec(src, basis, now, timestamp).Some?
    requires ParseInnerSpec(src, basis, now, timestamp) != timestamp(Prepared(src))
    ensures var d := ParseInnerSpec(src, basis, now, timestamp).value;
      IsCollectYear(d.year) && IsValidDate(d.year, d.month, d.day)
  {
  }

  /** A text that ends in 末日 (or 末) yields the last day of its month. */
  lemma MatsujitsuIsLastDay(src: string, basis: Option<Reference>, now: Reference, timestamp: string -> Option<Date>)
    requires ParseInnerSpec(src, basis, now, timestamp).Some?
    requires ParseInnerSpec(src, basis, now, timestamp) != timestamp(Prepared(src))
    requires HasMatsujitsu(Prepared(src))
    ensures var d := ParseInnerSpec(src, basis, now, timestamp).value;
      d.day == DaysInMonth(d.year, d.month)
  {
  }

  /** A text without any ASCII digit once normalised is never a date. */
  lemma NoDigitNoDate(src: string, basis: Option<Reference>, now: Reference, timestamp: string -> Option<Date>)
    requires NoDigit(Prepared(src))
    ensures ParseInnerSpec(src, basis, now, timestamp).None?
  {
    NoTokensIffNoDigit(Prepared(src));
  }

  // ---------------------------------------------------------------- whole texts

  /** A character the normalisation and the English-month step leave alone: ASCII
      and not a letter. */
  predicate PlainChar(c: char) {
    DateNormalize.IsAscii(c) && !EnglishMonth.IsLowerLetter(c) && !DateNormalize.IsAsciiUpper(c)
  }

  predicate Plain(s: string) {
    forall i | 0 <= i < |s| :: PlainChar(s[i])
  }

  lemma PlainConcat(x: string, y: string)
    requires Plain(x) && Plain(y)
    ensures Plain(x + y)
  {
    forall i | 0 <= i < |x + y| ensures PlainChar((x + y)[i]) {
      if i >= |x| {
        assert (x + y)[i] == y[i - |x|];
      }
    }
  }

  lemma DigitsArePlain(s: string)
    requires AllDigits(s)
    ensures Plain(s)
  {
  }

  /** A plain text reaches the tokenizer as it is, with no English month. */
  lemma PlainTextPrepared(src: string, basis: Option<Reference>, now: Reference, timestamp: string -> Option<Date>)
    requires |src| > 0 && Plain(src)
    ensures ParseInnerSpec(src, basis, now, timestamp) == FromText(src, EnglishMonth.Init, basis.GetOr(now), timestamp)
  {
    DateNormalize.LowerAsciiUnchanged(src);
    EnglishMonth.NoLettersUnchanged(src);
  }

  /** Four runs or fewer go straight to the ordering step. */
  lemma FewRuns(text: string, info: EnglishMonth.EnglishMonthInfo, ref: Reference, timestamp: string -> Option<Date>)
    requires Tokens(text).Some? && 0 < |Tokens(text).value| <= 4
    ensures FromText(text, info, ref, timestamp) == FromRuns(Tokens(text).value, text, info, ref)
  {
    var tokens := Tokens(text).value;
    assert (if |tokens| > 4 then MergeRuns(tokens) else Some(tokens)) == Some(tokens);
  }

  /** With no era, no English month and no 末日, a row whose year and day are not
      negative gives exactly the valid dates with a four-digit year; a year below
      100 is first read as 20yy or Reiwa yy, whichever is nearer the reference. */
  lemma FinalizePlainRow(row: seq<NumberToken>, ref: Reference)
    requires |row| == 3 && row[0].token >= 0 && row[2].token >= 0
    ensures var y := if row[0].token < 100 then CalcNealyYearFromWarekiOrYear(row[0].token, ref) else row[0].token;
      var m, d := row[1].token, row[2].token;
      Finalize(row, None, false, false, ref) == if IsCollectYear(y) && IsValidDate(y, m, d) then Some(Date(y, m, d)) else None
  {
  }

  /** A plain text that starts and ends with a digit and has one to four runs:
      no era, no 末日, and the runs go straight to the ordering step. */
  lemma PlainRuns(s: string, basis: Option<Reference>, now: Reference, timestamp: string -> Option<Date>)
    requires |s| > 0 && Plain(s) && IsAsciiDigit(s[0]) && IsAsciiDigit(s[|s| - 1])
    requires Tokens(s).Some? && 0 < |Tokens(s).value| <= 4
    ensures FindGengo(s).None? && !HasMatsujitsu(s)
    ensures ParseInnerSpec(s, basis, now, timestamp) == FromRuns(Tokens(s).value, s, EnglishMonth.Init, basis.GetOr(now))
  {
    PlainTextPrepared(s, basis, now, timestamp);
    FewRuns(s, EnglishMonth.Init, basis.GetOr(now), timestamp);
    NoEraBeforeDigit(s);
  }

  /** A plain text holds no kanji. */
  lemma PlainHasNoKanji(s: string, k: char)
    requires Plain(s) && !DateNormalize.IsAscii(k)
    ensures !Contains(s, [k])
  {
    ContainsSingle(s, k);
    assert forall i | 0 <= i < |s| :: PlainChar(s[i]);
  }

  /** A text of eight digits is read as yyyyMMdd ("20180102" is 2 January 2018);
      a year below 100 ("00991231") is read as 20yy or Reiwa yy, whichever is nearer
      the reference date. */
  lemma EightDigitText(s: string, basis: Option<Reference>, now: Reference, timestamp: string -> Option<Date>)
    requires AllDigits(s) && |s| == 8
    ensures var y0 := DigitsValue(s[0..4]);
      var y := if y0 < 100 then CalcNealyYearFromWarekiOrYear(y0, basis.GetOr(now)) else y0;
      var m, d := DigitsValue(s[4..6]), DigitsValue(s[6..]);
      ParseInnerSpec(s, basis, now, timestamp) == if IsCollectYear(y) && IsValidDate(y, m, d) then Some(Date(y, m, d)) else None
  {
    var ref := basis.GetOr(now);
    OneRunToken(s);
    var t := Tokens(s).value[0];
    assert Tokens(s).value == [t];
    PlainRuns(s, basis, now, timestamp);
    var c := Context(EnglishMonth.Init, None, false, s, ref);
    EightDigitsAreYearMonthDay(t, c);
    var row := SingleRun(t, c).value.0;
    assert FromRuns([t], s, EnglishMonth.Init, ref) == Finalize(row, None, false, false, ref);
    FinalizePlainRow(row, ref);
  }

  /** Three runs separated by plain non-digit text ("2000/02/29", "2000-2-29",
      "12/25/2019"): year, month and day in that order, unless only the last run
      is a four-digit year, which makes the order month, day, year. A year below
      100 ("21/5/3") is read as 20yy or Reiwa yy, whichever is nearer the
      reference date. */
  lemma SeparatedDateText(a: string, p: string, b: string, q: string, c: string,
                          basis: Option<Reference>, now: Reference, timestamp: string -> Option<Date>)
    requires AllDigits(a) && 0 < |a| <= 9 && AllDigits(b) && 0 < |b| <= 9 && AllDigits(c) && 0 < |c| <= 9
    requires |p| > 0 && |q| > 0 && Plain(p) && Plain(q) && NoDigit(p) && NoDigit(q)
    ensures var x, y, z := DigitsValue(a), DigitsValue(b), DigitsValue(c);
      var (y0, mo, dy) := if !IsCollectYear(x) && IsCollectYear(z) then (z, x, y) else (x, y, z);
      var yr := if y0 < 100 then CalcNealyYearFromWarekiOrYear(y0, basis.GetOr(now)) else y0;
      ParseInnerSpec(a + p + b + q + c, basis, now, timestamp)
        == if IsCollectYear(yr) && IsValidDate(yr, mo, dy) then Some(Date(yr, mo, dy)) else None
  {
    var s := a + p + b + q + c;
    SeparatedRuns(a, p, b, q, c, basis, now, timestamp);
    ThreePlainRuns(Tokens(s).value, s, basis.GetOr(now));
  }

  /** Three runs of a plain text, from the ordering step on. */
  lemma ThreePlainRuns(ts: seq<NumberToken>, s: string, ref: Reference)
    requires |ts| == 3 && ts[0].token >= 0 && ts[1].token >= 0 && ts[2].token >= 0
    requires FindGengo(s).None? && !HasMatsujitsu(s)
    ensures var x, y, z := ts[0].token, ts[1].token, ts[2].token;
      var (y0, mo, dy) := if !IsCollectYear(x) && IsCollectYear(z) then (z, x, y) else (x, y, z);
      var yr := if y0 < 100 then CalcNealyYearFromWarekiOrYear(y0, ref) else y0;
      FromRuns(ts, s, EnglishMonth.Init, ref) == if IsCollectYear(yr) && IsValidDate(yr, mo, dy) then Some(Date(yr, mo, dy)) else None
  {
    var ctx := Context(EnglishMonth.Init, None, false, s, ref);
    ThreeRunsOrder(ts, ctx);
    var row := ThreeTokens(ts, ctx).value;
    assert FromRuns(ts, s, EnglishMonth.Init, ref) == Finalize(row, None, false, false, ref);
    FinalizePlainRow(row, ref);
  }

  /** The first steps for `a p b q c`: three tokens, no era, no 末日. */
  lemma SeparatedRuns(a: string, p: string, b: string, q: string, c: string,
                      basis: Option<Reference>, now: Reference, timestamp: string -> Option<Date>)
    requires AllDigits(a) && 0 < |a| <= 9 && AllDigits(b) && 0 < |b| <= 9 && AllDigits(c) && 0 < |c| <= 9
    requires |p| > 0 && |q| > 0 && Plain(p) && Plain(q) && NoDigit(p) && NoDigit(q)
    ensures var s := a + p + b + q + c;
      var r := Tokens(s);
      r.Some? && |r.value| == 3
      && RunToken(r.value[0], a, p) && RunToken(r.value[1], b, q) && RunToken(r.value[2], c, "")
      && FindGengo(s).None? && !HasMatsujitsu(s)
      && ParseInnerSpec(s, basis, now, timestamp) == FromRuns(r.value, s, EnglishMonth.Init, basis.GetOr(now))
  {
    var s := a + p + b + q + c;
    assert Plain(s) && s[0] == a[0] && s[|s| - 1] == c[|c| - 1] by {
      DigitsArePlain(a);
      DigitsArePlain(b);
      DigitsArePlain(c);
      PlainConcat(a, p);
      PlainConcat(a + p, b);
      PlainConcat(a + p + b, q);
      PlainConcat(a + p + b + q, c);
    }
    ThreeRunTokens(a, p, b, q, c);
    PlainRuns(s, basis, now, timestamp);
  }

  /** Two runs of one or two digits separated by plain non-digit text ("01 10",
      "1/10"): a month and a day in the year nearest the reference date, the
      previous year for December when the reference is in January. */
  lemma MonthDayText(a: string, p: string, b: string, basis: Option<Reference>, now: Reference, timestamp: string -> Option<Date>)
    requires AllDigits(a) && 0 < |a| <= 2 && AllDigits(b) && 0 < |b| <= 2
    requires |p| > 0 && Plain(p) && NoDigit(p)
    requires MINIMUM_YEAR < basis.GetOr(now).year <= MAXIMUM_YEAR
    ensures var m, d := DigitsValue(a), DigitsValue(b);
      var y := GetNearYear(m, basis.GetOr(now));
      ParseInnerSpec(a + p + b, basis, now, timestamp) == if IsValidDate(y, m, d) then Some(Date(y, m, d)) else None
  {
    var s := a + p + b;
    var ref := basis.GetOr(now);
    PairedRuns(a, p, b, basis, now, timestamp);
    var ts := Tokens(s).value;
    TwoDigitsBound(a);
    TwoDigitsBound(b);
    var ctx := Context(EnglishMonth.Init, None, false, s, ref);
    TwoRunsMonthDay(ts[0], ts[1], ctx);
    if IsCollectMonth(ts[0].token) {
      PlainHasNoKanji(s, '年');
      var row := TwoTokens(ts[0], ts[1], ctx).value;
      assert FromRuns(ts, s, EnglishMonth.Init, ref) == Finalize(row, None, false, false, ref);
      FinalizePlainRow(row, ref);
    } else {
      assert !HasAfter(ts[1], "日");
    }
  }

  /** The first steps for `a p b`: two tokens, no era, no 末日. */
  lemma PairedRuns(a: string, p: string, b: string, basis: Option<Reference>, now: Reference, timestamp: string -> Option<Date>)
    requires AllDigits(a) && 0 < |a| <= 9 && AllDigits(b) && 0 < |b| <= 9
    requires |p| > 0 && Plain(p) && NoDigit(p)
    ensures var s := a + p + b;
      var r := Tokens(s);
      Plain(s) && r.Some? && |r.value| == 2 && RunToken(r.value[0], a, p) && RunToken(r.value[1], b, "")
      && FindGengo(s).None? && !HasMatsujitsu(s)
      && ParseInnerSpec(s, basis, now, timestamp) == FromRuns(r.value, s, EnglishMonth.Init, basis.GetOr(now))
  {
    var s := a + p + b;
    assert Plain(s) && s[0] == a[0] && s[|s| - 1] == b[|b| - 1] by {
      DigitsArePlain(a);
      DigitsArePlain(b);
      PlainConcat(a, p);
      PlainConcat(a + p, b);
    }
    TwoRunTokens(a, p, b);
    PlainRuns(s, basis, now, timestamp);
  }

  /** "20180102" is 2 January 2018, whatever the reference date. */
  lemma EightDigitExample(basis: Option<Reference>, now: Reference, timestamp: string -> Option<Date>)
    ensures Parse(Some("2018" + "01" + "02"), basis, now, timestamp) == Parsed(Date(2018, 1, 2))
  {
    FourDigitsValue("2018");
    TwoDigitsValue("01");
    TwoDigitsValue("02");
    assert DigitsValue("2018") == 2018 && DigitsValue("01") == 1 && DigitsValue("02") == 2;
    var s := "2018" + "01" + "02";
    assert s[0..4] == "2018" && s[4..6] == "01" && s[6..] == "02";
    EightDigitText(s, basis, now, timestamp);
  }

  /** "2000/02/29" is 29 February 2000, whatever the reference date. */
  lemma LeapDayExample(basis: Option<Reference>, now: Reference, timestamp: string -> Option<Date>)
    ensures Parse(Some("2000" + "/" + "02" + "/" + "29"), basis, now, timestamp) == Parsed(Date(2000, 2, 29))
  {
    FourDigitsValue("2000");
    TwoDigitsValue("02");
    TwoDigitsValue("29");
    assert Plain("/") && NoDigit("/");
    assert DigitsValue("2000") == 2000 && DigitsValue("02") == 2 && DigitsValue("29") == 29;
    assert IsCollectYear(2000) && IsLeapYear(2000) && IsValidDate(2000, 2, 29);
    SeparatedDateText("2000", "/", "02", "/", "29", basis, now, timestamp);
    assert ParseInnerSpec("2000" + "/" + "02" + "/" + "29", basis, now, timestamp) == Some(Date(2000, 2, 29));
  }

  /** "2001/02/29" names no day of the calendar and is refused. */
  lemma MissingLeapDayExample(basis: Option<Reference>, now: Reference, timestamp: string -> Option<Date>)
    ensures Parse(Some("2001" + "/" + "02" + "/" + "29"), basis, now, timestamp) == FormatError
  {
    FourDigitsValue("2001");
    TwoDigitsValue("02");
    TwoDigitsValue("29");
    assert Plain("/") && NoDigit("/");
    assert DigitsValue("2001") == 2001 && DigitsValue("02") == 2 && DigitsValue("29") == 29;
    assert IsCollectYear(2001) && !IsValidDate(2001, 2, 29);
    SeparatedDateText("2001", "/", "02", "/", "29", basis, now, timestamp);
    assert ParseInnerSpec("2001" + "/" + "02" + "/" + "29", basis, now, timestamp).None?;
  }

  /** Read in 2025, "21/5/3" is 3 May 2021: 2021 is nearer than Reiwa 21 (2039). */
  lemma ShortYearExample(timestamp: string -> Option<Date>)
    ensures Parse(Some("21" + "/" + "5" + "/" + "3"), Some(RefDate(2025, 1)), RefDate(2025, 1), timestamp)
      == Parsed(Date(2021, 5, 3))
  {
    TwoDigitsValue("21");
    assert "5"[..0] == [] && "3"[..0] == [];
    assert Plain("/") && NoDigit("/");
    assert DigitsValue("21") == 21 && DigitsValue("5") == 5 && DigitsValue("3") == 3;
    NealyThreshold(21, RefDate(2025, 1));
    SeparatedDateText("21", "/", "5", "/", "3", Some(RefDate(2025, 1)), RefDate(2025, 1), timestamp);
    assert IsValidDate(2021, 5, 3);
    assert ParseInnerSpec("21" + "/" + "5" + "/" + "3", Some(RefDate(2025, 1)), RefDate(2025, 1), timestamp) == Some(Date(2021, 5, 3));
  }

  /** Read in January 2021, "01 10" is 10 January 2021. */
  lemma MonthDayExample(timestamp: string -> Option<Date>)
    ensures Parse(Some("01" + " " + "10"), None, RefDate(2021, 1), timestamp) == Parsed(Date(2021, 1, 10))
  {
    TwoDigitsValue("01");
    TwoDigitsValue("10");
    assert Plain(" ") && NoDigit(" ");
    assert DigitsValue("01") == 1 && DigitsValue("10") == 10;
    MonthDayText("01", " ", "10", None, RefDate(2021, 1), timestamp);
  }

  /** Read in January 2021, "12 31" is 31 December 2020: December is nearer
      in the year before. */
  lemma LastYearMonthDayExample(timestamp: string -> Option<Date>)
    ensures Parse(Some("12" + " " + "31"), None, RefDate(2021, 1), timestamp) == Parsed(Date(2020, 12, 31))
  {
    TwoDigitsValue("12");
    TwoDigitsValue("31");
    assert Plain(" ") && NoDigit(" ");
    assert DigitsValue("12") == 12 && DigitsValue("31") == 31;
    MonthDayText("12", " ", "31", None, RefDate(2021, 1), timestamp);
  }
}
