/** The date parser: deciding which number is the year, which the month
    and which the day, from how many digit runs there are, how long they are, and
    what the earlier stages found (an English month, an era, 末日). The result is the
    three-token row `[year, month, day]` the source calls `orderedNumberTokens`. */
module DateReconstruct {
  import opened Wrappers
  import opened JavaText
  import opened NumberTokens
  import opened GengoYearTable
  import opened YearChoice
  import EnglishMonth

  /** Day placeholder: the last day of the month (末日). */
  const DATE_MATSUJITU_SIGN: Int32 := -1
  /** Day placeholder: no day given, the first of the month is meant. */
  const DATE_NOTEXIST_SIGN: Int32 := -2

  /** What the earlier stages computed from the normalised text `src`. */
  datatype Context = Context(
    info: EnglishMonth.EnglishMonthInfo,
    gengo: Option<Gengo>,
    hasMatsujitsu: bool,
    src: string,
    ref: Reference)

  /** A row of exactly three tokens. */
  predicate IsRow(r: seq<NumberToken>) { |r| == 3 }

  /** A single digit run (`originalNumberTokens.length == 1`), read by its length.
      Only the three-digit case may change the era, so the era is returned too. */
  function SingleRun(t: NumberToken, c: Context): (r: Option<(seq<NumberToken>, Option<Gengo>)>)
    ensures r.Some? ==> IsRow(r.value.0)
    ensures r.Some? ==> 2 <= |t.tokenAsString| <= 8
    ensures r.Some? && |t.tokenAsString| != 3 ==> r.value.1 == c.gengo
  {
    var date := t.tokenAsString;
    var info := c.info;
    if |date| == 2 then
      var day: Int32 := if c.hasMatsujitsu then -1 else 1;
      if info.hasEnglishMonth then
        // MM: the year is the one nearest the reference date
        var suspectYear := GetNearYear(t.token, c.ref);
        var row :- StrStrInt(IntToString(suspectYear), date, day);
        Some((row, c.gengo))
      else
        // eM
        var row :- StrStrInt(date[0..1], date[1..], day);
        Some((row, c.gengo))
    else if |date| == 3 then
      // eMM; an English month is moved to the end
      var tmpDate := if info.hasEnglishMonth then Replace(date, info.month, "") + info.month else date;
      var d :- CalcStart3(tmpDate, c.gengo, c.ref);
      if !IsCollectMonth(d.month) then None
      else Some(([OfInt(d.nen), OfInt(d.month), OfInt(DATE_NOTEXIST_SIGN)], d.suspectGengo))
    else if |date| == 4 then
      // yyMM or eeMM
      if info.hasEnglishMonth then
        var exceptMonth :- DeleteStr(date, info.numberCountBeforeMonth, 2);
        var row :- StrStrInt(exceptMonth, info.month, DATE_NOTEXIST_SIGN);
        Some((row, c.gengo))
      else
        var row :- StrStrInt(date[0..2], date[2..4], DATE_NOTEXIST_SIGN);
        Some((row, c.gengo))
    else if |date| == 5 then
      var row :- FiveDigits(date, info);
      Some((row, c.gengo))
    else if |date| == 6 then
      var row :- SixDigits(date, c);
      Some((row, c.gengo))
    else if |date| == 7 then
      // yyyyMMd, or with an English month: yyyyMMd, dMMyyyy, yyyydMM, MMyyyyd
      if info.hasEnglishMonth then
        var before := info.numberCountBeforeMonth;
        var after := info.numberCountAfterMonth;
        if (before == 4 && after == 1) || (before == 1 && after == 4) then
          var row :- if before == 4 then StrStrStr(date[0..4], info.month, date[6..])
                     else StrStrStr(date[3..7], info.month, date[0..1]);
          Some((row, c.gengo))
        else if before == 5 || after == 5 then
          var row :- if before == 5 then StrStrStr(date[0..4], info.month, date[4..5])
                     else StrStrStr(date[2..6], info.month, date[6..7]);
          Some((row, c.gengo))
        else None
      else
        var row :- StrStrStr(date[0..4], date[4..6], date[6..]);
        Some((row, c.gengo))
    else if |date| == 8 then
      // yyyyMMdd, or with an English month: yyyyMMdd, ddMMyyyy, yyyyddMM, MMyyyydd
      if info.hasEnglishMonth then
        var before := info.numberCountBeforeMonth;
        var after := info.numberCountAfterMonth;
        if (before == 4 && after == 2) || (before == 2 && after == 4) then
          var row :- if before == 4 then StrStrStr(date[0..4], info.month, date[6..8])
                     else StrStrStr(date[4..8], info.month, date[0..2]);
          Some((row, c.gengo))
        else if before == 6 || after == 6 then
          var row :- if before == 6 then StrStrStr(date[0..4], info.month, date[4..6])
                     else StrStrStr(date[2..6], info.month, date[6..8]);
          Some((row, c.gengo))
        else None
      else
        var row :- StrStrStr(date[0..4], date[4..6], date[6..]);
        Some((row, c.gengo))
    else
      None
  }

  /** Five digits: eMMdd, falling back to eeMMd when the month is impossible; with
      an English month the rest is ydd or yyd, chosen by whether the day fits. */
  function FiveDigits(date: string, info: EnglishMonth.EnglishMonthInfo): (r: Option<seq<NumberToken>>)
    requires |date| == 5
    ensures r.Some? ==> IsRow(r.value)
    ensures r.Some? && !info.hasEnglishMonth ==> IsCollectMonth(r.value[1].token)
    ensures r.Some? && info.hasEnglishMonth ==>
      ParseInt(info.month).Some? && IsCollectDate(r.value[2].token, ParseInt(info.month).value)
  {
    if info.hasEnglishMonth then
      var exceptMonth :- DeleteStr(date, info.numberCountBeforeMonth, 2);
      var y1 :- Substring(exceptMonth, 0, 1);
      var d1 :- Substring(exceptMonth, 1, 3);
      var first :- StrStrStr(y1, info.month, d1);
      var month :- ParseInt(info.month);
      if IsCollectDate(first[2].token, month) then Some(first)
      else
        // suspect yyMMd
        var y2 :- Substring(exceptMonth, 0, 2);
        var d2 :- Substring(exceptMonth, 2, 3);
        var second :- StrStrStr(y2, info.month, d2);
        if IsCollectDate(second[2].token, month) then Some(second) else None
    else
      var first :- StrStrStr(date[0..1], date[1..3], date[3..5]);
      if IsCollectMonth(first[1].token) then Some(first)
      else
        // suspect eeMMd
        var second :- StrStrStr(date[0..2], date[2..4], date[4..5]);
        if IsCollectMonth(second[1].token) then Some(second) else None
  }

  /** Six digits: eeMMdd with an era; yyyyMM with 末日; otherwise yyMMdd when a
      two-digit year (as 20yy or as Reiwa) is nearer the reference than the first
      four digits read as a year, else yyyyMM. */
  function SixDigits(date: string, c: Context): (r: Option<seq<NumberToken>>)
    requires |date| == 6
    ensures r.Some? ==> IsRow(r.value)
  {
    var info := c.info;
    if c.gengo.Some? then
      // yyMMdd
      if info.hasEnglishMonth then
        var exceptMonth :- DeleteStr(date, info.numberCountBeforeMonth, 2);
        var y :- Substring(exceptMonth, 0, 2);
        var d :- Substring(exceptMonth, 2, 4);
        StrStrStr(y, info.month, d)
      else
        StrStrStr(date[0..2], date[2..4], date[4..6])
    else if c.hasMatsujitsu then
      // yyyyMM
      if info.hasEnglishMonth then
        var exceptMonth :- DeleteStr(date, info.numberCountBeforeMonth, 2);
        StrStrInt(exceptMonth, info.month, DATE_MATSUJITU_SIGN)
      else
        StrStrInt(date[0..4], date[4..6], DATE_MATSUJITU_SIGN)
    else if info.hasEnglishMonth then
      var exceptMonth :- DeleteStr(date, info.numberCountBeforeMonth, 2);
      var two :- Substring(exceptMonth, 0, 2);
      var twoWordNen :- ParseInt(two);
      var four :- Substring(exceptMonth, 0, 4);
      var fourWordNen :- ParseInt(four);
      if ShortYearIsNearer(twoWordNen, fourWordNen, c.ref) then
        var d :- Substring(exceptMonth, 2, 4);
        StrStrStr(two, info.month, d)
      else
        StrStrInt(four, info.month, DATE_NOTEXIST_SIGN)
    else
      var twoWordNen :- ParseInt(date[0..2]);
      var fourWordNen :- ParseInt(date[0..4]);
      if ShortYearIsNearer(twoWordNen, fourWordNen, c.ref) then
        // yyMMdd, eeMMdd
        StrStrStr(date[0..2], date[2..4], date[4..6])
      else
        // yyyyMM
        StrStrInt(date[0..4], date[4..6], DATE_NOTEXIST_SIGN)
  }

  /** The two first digits read as 20yy or as Reiwa yy are nearer the reference
      year than the four first digits read as a year. */
  predicate ShortYearIsNearer(twoWordNen: int, fourWordNen: int, ref: Reference) {
    IsNearYearNowThan(twoWordNen + 2000, fourWordNen, ref)
    || IsNearYearNowThan(twoWordNen + REIWA_YEAR_ADDITION, fourWordNen, ref)
  }

  /** Two digit runs: [yyyy, MM], [MM, dd], [ee, MM], or runs that joined the year
      and month ([yyyyMM, dd]) or the month and day ([yyyy, MMdd]). */
  function TwoTokens(first0: NumberToken, second0: NumberToken, c: Context): (r: Option<seq<NumberToken>>)
    ensures r.Some? ==> IsRow(r.value)
  {
    var info := c.info;
    var pair :- if !info.hasEnglishMonth then Some((first0, second0))
      else if info.numberCountBeforeMonth < |first0.tokenAsString| then
        // the month was in the first run: move it to its end
        var rest :- DeleteStr(first0.tokenAsString, info.numberCountBeforeMonth, 2);
        var first :- OfString(rest + info.month);
        Some((first, second0))
      else
        // the month was in the second run: move it to its front
        var rest :- DeleteStr(second0.tokenAsString, info.numberCountBeforeMonth - |first0.tokenAsString|, 2);
        var second :- OfString(info.month + rest);
        Some((first0, second));
    var first := pair.0;
    var second := pair.1;
    if c.hasMatsujitsu then
      Some([first, second, OfInt(DATE_MATSUJITU_SIGN)])
    else if c.gengo.None? && first.token >= 10000 then
      // yyyyMM joined
      var joined := first.tokenAsString;
      var y :- Substring(joined, 0, 4);
      var m :- SubstringFrom(joined, 4);
      StrStrToken(y, m, second)
    else if c.gengo.Some? && first.token >= 100 then
      // eMM joined
      var joined := first.tokenAsString;
      var y :- Substring(joined, 0, 1);
      var m :- SubstringFrom(joined, 1);
      StrStrToken(y, m, second)
    else if second.token >= 100 then
      // MMdd joined
      var joined := second.tokenAsString;
      var m :- Substring(joined, 0, 2);
      var d :- SubstringFrom(joined, 2);
      TokenStrStr(first, m, d)
    else if c.gengo.Some? then
      // ee MM, the first of the month
      Some([first, second, OfInt(1)])
    else if IsCollectYear(first.token) && !Contains(c.src, "日") then
      // yyyy MM, the first of the month
      Some([first, second, OfInt(1)])
    else if (HasAfter(first, "月") && HasAfter(second, "日")) || (IsCollectMonth(first.token) && !Contains(c.src, "年")) then
      // MM dd in the year nearest the reference
      Some([OfInt(GetNearYear(first.token, c.ref)), first, second])
    else
      None
  }

  /** Three digit runs: [yyyy, MM, dd] or [MM, dd, yyyy]; with an English month the
      run holding it is the month and a four-digit run among the others the year. */
  function ThreeTokens(t: seq<NumberToken>, c: Context): (r: Option<seq<NumberToken>>)
    requires |t| == 3
    ensures r.Some? ==> IsRow(r.value) && multiset(r.value) == multiset(t)
  {
    var info := c.info;
    var l0 := |t[0].tokenAsString|;
    var l1 := |t[1].tokenAsString|;
    var l2 := |t[2].tokenAsString|;
    var before := info.numberCountBeforeMonth;
    assert t == [t[0], t[1], t[2]];
    Rearrangements(t[0], t[1], t[2]);
    if info.hasEnglishMonth then
      if before < l0 && l0 == 2 then
        // the month comes first: MM yyyy dd or MM dd yyyy
        if l2 == 4 then Some([t[2], t[0], t[1]]) else Some([t[1], t[0], t[2]])
      else if before < l0 + l1 && l1 == 2 then
        // the month is second: yyyy MM dd or dd MM yyyy
        if l2 == 4 then Some([t[2], t[1], t[0]]) else Some([t[0], t[1], t[2]])
      else if l2 == 2 then
        // the month is last: yyyy dd MM or dd yyyy MM
        if l1 == 4 then Some([t[1], t[2], t[0]]) else Some([t[0], t[2], t[1]])
      else
        None
    else if c.gengo.None? && !IsCollectYear(t[0].token) && IsCollectYear(t[2].token) then
      // MM dd yyyy
      Some([t[2], t[0], t[1]])
    else
      Some([t[0], t[1], t[2]])
  }

  /** Every order of three runs holds the same runs. */
  lemma Rearrangements<T>(a: T, b: T, c: T)
    ensures var m := multiset([a, b, c]);
      multiset([a, c, b]) == m && multiset([b, a, c]) == m && multiset([b, c, a]) == m
      && multiset([c, a, b]) == m && multiset([c, b, a]) == m
  {
    SwapLast(a, b, c);
    SwapFirst(a, b, c);
    SwapLast(b, a, c);
    SwapFirst(a, c, b);
    SwapLast(c, a, b);
  }

  lemma SwapFirst<T>(a: T, b: T, c: T)
    ensures multiset([b, a, c]) == multiset([a, b, c])
  {
  }

  lemma SwapLast<T>(a: T, b: T, c: T)
    ensures multiset([a, c, b]) == multiset([a, b, c])
  {
  }

  /** Four digit runs: a year split in two ([yy, yy, MM, dd]); with an English month
      in the second run, [dd, MM, yy, yy]. Refused when an era was named. */
  function FourTokens(t: seq<NumberToken>, c: Context): (r: Option<seq<NumberToken>>)
    requires |t| == 4
    ensures r.Some? ==> IsRow(r.value) && IsCollectYear(r.value[0].token)
    ensures r.Some? ==> c.gengo.None?
  {
    if c.gengo.Some? then None
    else
      var info := c.info;
      var l0 := |t[0].tokenAsString|;
      var l1 := |t[1].tokenAsString|;
      var l2 := |t[2].tokenAsString|;
      var before := info.numberCountBeforeMonth;
      var p :- if !info.hasEnglishMonth then Some(t)
        else if l0 + l1 <= before < l0 + l1 + l2 && l2 == 2 then Some(t)
        else if l0 <= before < l0 + l1 && l1 == 2 then Some([t[2], t[3], t[1], t[0]])
        else None;
      var yearCandidate :- ParseInt(p[0].tokenAsString + p[1].tokenAsString);
      if Trim(p[0].afterWord) == "" && IsCollectYear(yearCandidate) then
        Some([OfInt(yearCandidate), p[2], p[3]])
      else
        None
  }

  /** The `[year, month, day]` row for the digit runs of the text, and the era in
      force after it (only a three-digit single run can change it). */
  function Reconstruct(tokens: seq<NumberToken>, c: Context): (r: Option<(seq<NumberToken>, Option<Gengo>)>)
    ensures r.Some? ==> IsRow(r.value.0)
    ensures r.Some? ==> 1 <= |tokens| <= 4
    ensures r.Some? && |tokens| != 1 ==> r.value.1 == c.gengo
  {
    if |tokens| == 1 then SingleRun(tokens[0], c)
    else if |tokens| == 2 then
      var row :- TwoTokens(tokens[0], tokens[1], c);
      Some((row, c.gengo))
    else if |tokens| == 3 then
      var row :- ThreeTokens(tokens, c);
      Some((row, c.gengo))
    else if |tokens| == 4 then
      var row :- FourTokens(tokens, c);
      Some((row, c.gengo))
    else
      None
  }

  // ---------------------------------------------------------------- properties

  /** Eight plain digits are read as yyyyMMdd. */
  lemma EightDigitsAreYearMonthDay(t: NumberToken, c: Context)
    requires AllDigits(t.tokenAsString) && |t.tokenAsString| == 8 && !c.info.hasEnglishMonth
    ensures SingleRun(t, c).Some?
    ensures var row := SingleRun(t, c).value.0;
      row[0].token == DigitsValue(t.tokenAsString[0..4])
      && row[1].token == DigitsValue(t.tokenAsString[4..6])
      && row[2].token == DigitsValue(t.tokenAsString[6..])
  {
    var d := t.tokenAsString;
    ShortDigitsParse(d[0..4]);
    ShortDigitsParse(d[4..6]);
    ShortDigitsParse(d[6..]);
  }

  /** Seven plain digits are read as yyyyMMd. */
  lemma SevenDigitsAreYearMonthDay(t: NumberToken, c: Context)
    requires AllDigits(t.tokenAsString) && |t.tokenAsString| == 7 && !c.info.hasEnglishMonth
    ensures SingleRun(t, c).Some?
    ensures var row := SingleRun(t, c).value.0;
      row[0].token == DigitsValue(t.tokenAsString[0..4])
      && row[1].token == DigitsValue(t.tokenAsString[4..6])
      && row[2].token == DigitValue(t.tokenAsString[6])
  {
    var d := t.tokenAsString;
    ShortDigitsParse(d[0..4]);
    ShortDigitsParse(d[4..6]);
    ShortDigitsParse(d[6..]);
    assert d[6..][..0] == [];
  }

  /** Six plain digits: eeMMdd after an era; yyyyMM and the last day with 末日;
      otherwise yyMMdd when the first two digits, read as 20yy or as Reiwa, are
      nearer the reference year than the first four read as a year, else yyyyMM
      with no day. */
  lemma SixDigitsReadings(t: NumberToken, c: Context)
    requires AllDigits(t.tokenAsString) && |t.tokenAsString| == 6 && !c.info.hasEnglishMonth
    ensures SingleRun(t, c).Some?
    ensures var d := t.tokenAsString;
      var row := SingleRun(t, c).value.0;
      var shortYear := c.gengo.Some?
        || (!c.hasMatsujitsu && ShortYearIsNearer(DigitsValue(d[0..2]), DigitsValue(d[0..4]), c.ref));
      if shortYear then
        row[0].token == DigitsValue(d[0..2]) && row[1].token == DigitsValue(d[2..4])
        && row[2].token == DigitsValue(d[4..6])
      else
        row[0].token == DigitsValue(d[0..4]) && row[1].token == DigitsValue(d[4..6])
        && row[2].token == (if c.hasMatsujitsu then DATE_MATSUJITU_SIGN else DATE_NOTEXIST_SIGN)
  {
    var d := t.tokenAsString;
    ShortDigitsParse(d[0..2]);
    ShortDigitsParse(d[2..4]);
    ShortDigitsParse(d[4..6]);
    ShortDigitsParse(d[0..4]);
  }

  /** Five plain digits are eMMdd when the second and third digits are a month,
      otherwise eeMMd when the third and fourth are, and are refused when neither
      is. */
  lemma FiveDigitsReadings(date: string, info: EnglishMonth.EnglishMonthInfo)
    requires |date| == 5 && AllDigits(date) && !info.hasEnglishMonth
    ensures FiveDigits(date, info).Some? <==>
      IsCollectMonth(DigitsValue(date[1..3])) || IsCollectMonth(DigitsValue(date[2..4]))
    ensures var r := FiveDigits(date, info);
      r.Some? && IsCollectMonth(DigitsValue(date[1..3])) ==>
        r.value[0].token == DigitValue(date[0]) && r.value[1].token == DigitsValue(date[1..3])
        && r.value[2].token == DigitsValue(date[3..5])
    ensures var r := FiveDigits(date, info);
      r.Some? && !IsCollectMonth(DigitsValue(date[1..3])) ==>
        r.value[0].token == DigitsValue(date[0..2]) && r.value[1].token == DigitsValue(date[2..4])
        && r.value[2].token == DigitValue(date[4])
  {
    ShortDigitsParse(date[0..1]);
    ShortDigitsParse(date[1..3]);
    ShortDigitsParse(date[3..5]);
    ShortDigitsParse(date[0..2]);
    ShortDigitsParse(date[2..4]);
    ShortDigitsParse(date[4..5]);
    assert date[0..1][..0] == [] && date[4..5][..0] == [];
  }

  /** The digits of a run with the English month's two digits, at `b`, taken out:
      what `deleteStr(date, b, 2)` returns. */
  function ExceptMonth(date: string, b: nat): (e: string)
    requires b + 2 <= |date|
    ensures |e| == |date| - 2 && DeleteStr(date, b, 2) == Some(e)
    ensures AllDigits(date) ==> AllDigits(e)
  {
    DeleteKeepsDigits(date, b);
    date[..b] + date[b + 2..]
  }

  lemma DeleteKeepsDigits(date: string, b: nat)
    requires b + 2 <= |date|
    ensures AllDigits(date) ==> AllDigits(date[..b] + date[b + 2..])
  {
    var e := date[..b] + date[b + 2..];
    forall i | 0 <= i < |e| ensures e[i] == if i < b then date[i] else date[i + 2] {
    }
  }

  /** Five digits holding an English month: with the month's two digits taken
      out, the three left are ydd when that day fits the month, otherwise yyd when
      that day fits, and are refused when neither does. */
  lemma FiveDigitsWithEnglishMonth(date: string, info: EnglishMonth.EnglishMonthInfo, m: int)
    requires |date| == 5 && AllDigits(date) && info.hasEnglishMonth && ParseInt(info.month) == Some(m)
    requires 0 <= info.numberCountBeforeMonth <= 3
    ensures var e := ExceptMonth(date, info.numberCountBeforeMonth);
      FiveDigits(date, info).Some? <==> IsCollectDate(DigitsValue(e[1..3]), m) || IsCollectDate(DigitValue(e[2]), m)
    ensures var r := FiveDigits(date, info);
      r.Some? ==> r.value[1].token == m && r.value[1].tokenAsString == info.month
    ensures var e := ExceptMonth(date, info.numberCountBeforeMonth);
      var r := FiveDigits(date, info);
      r.Some? && IsCollectDate(DigitsValue(e[1..3]), m) ==>
        r.value[0].token == DigitValue(e[0]) && r.value[2].token == DigitsValue(e[1..3])
    ensures var e := ExceptMonth(date, info.numberCountBeforeMonth);
      var r := FiveDigits(date, info);
      r.Some? && !IsCollectDate(DigitsValue(e[1..3]), m) ==>
        r.value[0].token == DigitsValue(e[0..2]) && r.value[2].token == DigitValue(e[2])
  {
    var e := ExceptMonth(date, info.numberCountBeforeMonth);
    ShortDigitsParse(e[0..1]);
    ShortDigitsParse(e[1..3]);
    ShortDigitsParse(e[0..2]);
    ShortDigitsParse(e[2..3]);
    assert e[0..1][..0] == [] && e[2..3][..0] == [];
  }

  /** Six digits holding an English month read like six plain digits with the
      month's two digits taken out and the English month as the month: yyMMdd after
      an era; yyyyMM and the last day with 末日; otherwise yyMMdd when the first two
      digits left are the nearer year, else yyyyMM with no day. */
  lemma SixDigitsWithEnglishMonth(date: string, c: Context, m: int)
    requires |date| == 6 && AllDigits(date) && c.info.hasEnglishMonth && ParseInt(c.info.month) == Some(m)
    requires 0 <= c.info.numberCountBeforeMonth <= 4
    ensures SixDigits(date, c).Some?
    ensures var row := SixDigits(date, c).value;
      row[1].token == m && row[1].tokenAsString == c.info.month
    ensures var e := ExceptMonth(date, c.info.numberCountBeforeMonth);
      var row := SixDigits(date, c).value;
      var shortYear := c.gengo.Some?
        || (!c.hasMatsujitsu && ShortYearIsNearer(DigitsValue(e[0..2]), DigitsValue(e), c.ref));
      if shortYear then
        row[0].token == DigitsValue(e[0..2]) && row[2].token == DigitsValue(e[2..4])
      else
        row[0].token == DigitsValue(e)
        && row[2].token == (if c.hasMatsujitsu then DATE_MATSUJITU_SIGN else DATE_NOTEXIST_SIGN)
  {
    var e := ExceptMonth(date, c.info.numberCountBeforeMonth);
    assert e[0..4] == e;
    ShortDigitsParse(e[0..2]);
    ShortDigitsParse(e[2..4]);
    ShortDigitsParse(e);
  }

  /** Four plain digits are yyMM (or eeMM) with no day. */
  lemma FourDigitsAreYearAndMonth(t: NumberToken, c: Context)
    requires AllDigits(t.tokenAsString) && |t.tokenAsString| == 4 && !c.info.hasEnglishMonth
    ensures SingleRun(t, c).Some?
    ensures var row := SingleRun(t, c).value.0;
      row[0].token == DigitsValue(t.tokenAsString[0..2])
      && row[1].token == DigitsValue(t.tokenAsString[2..4])
      && row[2].token == DATE_NOTEXIST_SIGN
  {
    var d := t.tokenAsString;
    ShortDigitsParse(d[0..2]);
    ShortDigitsParse(d[2..4]);
  }

  /** A digit run as the tokenizer delivers it: its digits and their value. */
  predicate PlainRun(t: NumberToken) {
    AllDigits(t.tokenAsString) && ParseInt(t.tokenAsString) == Some(t.token)
  }

  /** Two runs without an era or 末日 whose first has five digits or more: the
      year and month were joined, and the second run is the day. */
  lemma TwoRunsJoinedYearMonth(first: NumberToken, second: NumberToken, c: Context)
    requires PlainRun(first) && !c.info.hasEnglishMonth && !c.hasMatsujitsu && c.gengo.None?
    requires first.token >= 10000
    ensures TwoTokens(first, second, c).Some?
    ensures var j := first.tokenAsString;
      var row := TwoTokens(first, second, c).value;
      |j| > 4 && row[0].token == DigitsValue(j[0..4]) && row[1].token == DigitsValue(j[4..]) && row[2] == second
  {
    var j := first.tokenAsString;
    assert Pow10(4) == 10000;
    DigitsForValue(j, 4);
    DigitSlice(j, 0, 4);
    DigitSlice(j, 4, |j|);
    assert j[4..|j|] == j[4..];
  }

  /** Two runs after an era, without 末日, whose first has three digits or more:
      the one-digit era year and the month were joined, and the second run is the
      day. */
  lemma TwoRunsJoinedEraYearMonth(first: NumberToken, second: NumberToken, c: Context)
    requires PlainRun(first) && !c.info.hasEnglishMonth && !c.hasMatsujitsu && c.gengo.Some?
    requires first.token >= 100
    ensures TwoTokens(first, second, c).Some?
    ensures var j := first.tokenAsString;
      var row := TwoTokens(first, second, c).value;
      |j| > 2 && row[0].token == DigitValue(j[0]) && row[1].token == DigitsValue(j[1..]) && row[2] == second
  {
    var j := first.tokenAsString;
    assert Pow10(2) == 100;
    DigitsForValue(j, 2);
    DigitSlice(j, 0, 1);
    DigitSlice(j, 1, |j|);
    assert j[0..1][..0] == [];
    assert j[1..|j|] == j[1..];
  }

  /** Two runs with 末日 are kept in order, the day being the end-of-month sign. */
  lemma TwoRunsWithMatsujitsu(first: NumberToken, second: NumberToken, c: Context)
    requires !c.info.hasEnglishMonth && c.hasMatsujitsu
    ensures TwoTokens(first, second, c) == Some([first, second, OfInt(DATE_MATSUJITU_SIGN)])
  {
  }

  /** Two runs without 末日 whose second has three digits or more (and whose first
      is not a joined year and month): the month and day were joined. */
  lemma TwoRunsJoinedMonthDay(first: NumberToken, second: NumberToken, c: Context)
    requires PlainRun(second) && !c.info.hasEnglishMonth && !c.hasMatsujitsu
    requires first.token < (if c.gengo.Some? then 100 else 10000) && second.token >= 100
    ensures TwoTokens(first, second, c).Some?
    ensures var j := second.tokenAsString;
      var row := TwoTokens(first, second, c).value;
      |j| > 2 && row[0] == first && row[1].token == DigitsValue(j[0..2]) && row[2].token == DigitsValue(j[2..])
  {
    var j := second.tokenAsString;
    assert Pow10(2) == 100;
    DigitsForValue(j, 2);
    DigitSlice(j, 0, 2);
    DigitSlice(j, 2, |j|);
    assert j[2..|j|] == j[2..];
  }

  /** Two short runs [ee, MM] after an era, or [yyyy, MM] with no 日 in the text:
      the first of the month. */
  lemma TwoRunsYearMonth(first: NumberToken, second: NumberToken, c: Context)
    requires !c.info.hasEnglishMonth && !c.hasMatsujitsu && second.token < 100
    requires (c.gengo.Some? && first.token < 100) || (c.gengo.None? && IsCollectYear(first.token) && !Contains(c.src, "日"))
    ensures TwoTokens(first, second, c) == Some([first, second, OfInt(1)])
  {
  }

  /** Two short runs with no era whose first is not a year are [MM, dd] exactly
      when the month is followed by 月 and the day by 日, or the month is plausible
      and the text has no 年; the year is then the one nearest the reference date.
      Otherwise they are refused. */
  lemma TwoRunsMonthDay(first: NumberToken, second: NumberToken, c: Context)
    requires !c.info.hasEnglishMonth && !c.hasMatsujitsu && c.gengo.None? && second.token < 100
    requires !IsCollectYear(first.token) && first.token < 10000
    ensures TwoTokens(first, second, c) ==
      if (HasAfter(first, "月") && HasAfter(second, "日")) || (IsCollectMonth(first.token) && !Contains(c.src, "年"))
      then Some([OfInt(GetNearYear(first.token, c.ref)), first, second])
      else None
  {
  }

  /** Three runs with no English month are kept in order, except that with no
      era a four-digit year in last place after a first run that is not one moves
      to the front ([MM, dd, yyyy]). */
  lemma ThreeRunsOrder(t: seq<NumberToken>, c: Context)
    requires |t| == 3 && !c.info.hasEnglishMonth
    ensures ThreeTokens(t, c) ==
      if c.gengo.None? && !IsCollectYear(t[0].token) && IsCollectYear(t[2].token) then Some([t[2], t[0], t[1]])
      else Some(t)
  {
    assert t == [t[0], t[1], t[2]];
  }

  /** The number of digits in the runs, taken together. */
  function DigitCount(ts: seq<NumberToken>): nat {
    if |ts| == 0 then 0 else DigitCount(ts[..|ts| - 1]) + |ts[|ts| - 1].tokenAsString|
  }

  /** Run `k` of three can be the English month: it has two digits and the month
      starts before the end of runs `0..k`. The last run is taken as the month
      whenever it has two digits, wherever the month was found. */
  predicate MonthCandidate(t: seq<NumberToken>, before: int, k: nat)
    requires |t| == 3 && k < 3
  {
    |t[k].tokenAsString| == 2 && (k == 2 || before < DigitCount(t[..k + 1]))
  }

  /** The first run that can be the month, if any. */
  function FirstMonthCandidate(t: seq<NumberToken>, before: int): (r: Option<nat>)
    requires |t| == 3
    ensures r.Some? ==> r.value < 3 && MonthCandidate(t, before, r.value)
    ensures r.Some? ==> forall j | 0 <= j < r.value :: !MonthCandidate(t, before, j)
    ensures r.None? ==> forall k | 0 <= k < 3 :: !MonthCandidate(t, before, k)
  {
    if MonthCandidate(t, before, 0) then Some(0)
    else if MonthCandidate(t, before, 1) then Some(1)
    else if MonthCandidate(t, before, 2) then Some(2)
    else None
  }

  /** `[year, month, day]` with run `k` as the month: of the two other runs, the
      later is the year when it has four digits, otherwise the earlier is. */
  function MonthAt(t: seq<NumberToken>, k: nat): (r: seq<NumberToken>)
    requires |t| == 3 && k < 3
    ensures IsRow(r) && r[1] == t[k]
  {
    var earlier := if k == 0 then t[1] else t[0];
    var later := if k == 2 then t[1] else t[2];
    if |later.tokenAsString| == 4 then [later, t[k], earlier] else [earlier, t[k], later]
  }

  /** Three runs with an English month: the first run that can be the month is the
      month, and the year is chosen among the other two by its four digits; when no
      run can be the month the runs are refused. */
  lemma ThreeRunsEnglishMonth(t: seq<NumberToken>, c: Context)
    requires |t| == 3 && c.info.hasEnglishMonth
    ensures var k := FirstMonthCandidate(t, c.info.numberCountBeforeMonth);
      ThreeTokens(t, c) == if k.None? then None else Some(MonthAt(t, k.value))
  {
    assert DigitCount(t[..1]) == |t[0].tokenAsString| by {
      assert t[..1][..0] == [];
    }
    assert DigitCount(t[..2]) == |t[0].tokenAsString| + |t[1].tokenAsString| by {
      assert t[..2][..1] == t[..1];
    }
  }

  /** Two plain digits are an era year and a month: eM. */
  lemma TwoDigitsAreEraYearAndMonth(t: NumberToken, c: Context)
    requires AllDigits(t.tokenAsString) && |t.tokenAsString| == 2 && !c.info.hasEnglishMonth
    ensures SingleRun(t, c).Some?
    ensures var row := SingleRun(t, c).value.0;
      row[0].token == DigitValue(t.tokenAsString[0])
      && row[1].token == DigitValue(t.tokenAsString[1])
      && row[2].token == (if c.hasMatsujitsu then DATE_MATSUJITU_SIGN else 1)
  {
    var d := t.tokenAsString;
    ShortDigitsParse(d[0..1]);
    ShortDigitsParse(d[1..]);
    assert d[0..1][..0] == [] && d[1..][..0] == [];
  }

  /** Three plain digits with no era named are always taken as Reiwa: the era of the
      result is Reiwa, the year the first digit and the month the other two. */
  lemma ThreeDigitsWithoutEraAreReiwa(t: NumberToken, c: Context)
    requires AllDigits(t.tokenAsString) && |t.tokenAsString| == 3
    requires !c.info.hasEnglishMonth && c.gengo.None?
    ensures var r := SingleRun(t, c);
      r.Some? <==> IsCollectMonth(DigitsValue(t.tokenAsString[1..3]))
    ensures var r := SingleRun(t, c);
      r.Some? ==> (r.value.1 == Some(REIWA)
        && r.value.0[0].token == DigitValue(t.tokenAsString[0])
        && r.value.0[1].token == DigitsValue(t.tokenAsString[1..3])
        && r.value.0[2].token == DATE_NOTEXIST_SIGN)
  {
    Start3WithoutEraIsReiwa(t.tokenAsString, c.ref);
  }

  /** The year made of two runs written together (`"20"` and `"21"` give 2021),
      with the other two runs as month and day. The year is kept only when the
      first run is followed by nothing but blanks and the year has four digits. */
  function JoinedYearRow(a: NumberToken, b: NumberToken, month: NumberToken, day: NumberToken): (r: Option<seq<NumberToken>>)
    ensures r.Some? ==> IsRow(r.value) && r.value[1] == month && r.value[2] == day
    ensures r.Some? ==> ParseInt(a.tokenAsString + b.tokenAsString) == Some(r.value[0].token)
    ensures r.Some? ==> IsCollectYear(r.value[0].token) && Trim(a.afterWord) == ""
  {
    match ParseInt(a.tokenAsString + b.tokenAsString)
    case None => None
    case Some(y) => if Trim(a.afterWord) == "" && IsCollectYear(y) then Some([OfInt(y), month, day]) else None
  }

  /** Four runs with no era and no English month are [yy, yy, MM, dd]: the first two
      runs joined are the year, the last two the month and the day. */
  lemma FourRunsJoinYear(t: seq<NumberToken>, c: Context)
    requires |t| == 4 && !c.info.hasEnglishMonth && c.gengo.None?
    ensures FourTokens(t, c) == JoinedYearRow(t[0], t[1], t[2], t[3])
  {
    assert t == [t[0], t[1], t[2], t[3]];
  }

  /** Four runs with no era and an English month: when the month is the two-digit
      third run the runs are [yy, yy, MM, dd]; when it is the two-digit second run
      they are [dd, MM, yy, yy]; otherwise they are refused. */
  lemma FourRunsEnglishMonth(t: seq<NumberToken>, c: Context)
    requires |t| == 4 && c.info.hasEnglishMonth && c.gengo.None?
    ensures var l0, l1, l2 := |t[0].tokenAsString|, |t[1].tokenAsString|, |t[2].tokenAsString|;
      var b := c.info.numberCountBeforeMonth;
      FourTokens(t, c) ==
        if l0 + l1 <= b < l0 + l1 + l2 && l2 == 2 then JoinedYearRow(t[0], t[1], t[2], t[3])
        else if l0 <= b < l0 + l1 && l1 == 2 then JoinedYearRow(t[2], t[3], t[1], t[0])
        else None
  {
    assert t == [t[0], t[1], t[2], t[3]];
  }

  /** "20 21/05/03": the runs 20, 21, 05 and 03 give the year 2021, May, the 3rd. */
  lemma FourRunsExample(c: Context)
    requires !c.info.hasEnglishMonth && c.gengo.None?
    ensures var t := [NumberToken(20, "2" + "0", " "), NumberToken(21, "2" + "1", "/"),
                      NumberToken(5, "0" + "5", "/"), NumberToken(3, "0" + "3", "")];
      FourTokens(t, c) == Some([OfInt(2021), t[2], t[3]])
  {
    var y0, y1 := NumberToken(20, "2" + "0", " "), NumberToken(21, "2" + "1", "/");
    var m, d := NumberToken(5, "0" + "5", "/"), NumberToken(3, "0" + "3", "");
    FourRunsJoinYear([y0, y1, m, d], c);
    JoinedYearExample(y0, y1, m, d);
  }

  lemma JoinedYearExample(y0: NumberToken, y1: NumberToken, m: NumberToken, d: NumberToken)
    requires y0.tokenAsString == "2" + "0" && y0.afterWord == " " && y1.tokenAsString == "2" + "1"
    ensures JoinedYearRow(y0, y1, m, d) == Some([OfInt(2021), m, d])
  {
    var j := y0.tokenAsString + y1.tokenAsString;
    assert ParseInt(j) == Some(2021) by {
      assert j == "2021";
      ShortDigitsParse(j);
      FourDigitsValue(j);
    }
    assert Trim(y0.afterWord) == "";
  }

  /** With an era named, four digit runs are never accepted, and a single run
      outside two to eight digits never is. */
  lemma RefusedShapes(tokens: seq<NumberToken>, c: Context)
    ensures |tokens| == 4 && c.gengo.Some? ==> Reconstruct(tokens, c).None?
    ensures |tokens| == 1 && !(2 <= |tokens[0].tokenAsString| <= 8) ==> Reconstruct(tokens, c).None?
    ensures |tokens| == 0 || |tokens| > 4 ==> Reconstruct(tokens, c).None?
  {
  }
}
