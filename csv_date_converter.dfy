/** The pure helpers of `CsvDateConverter`: splitting and writing one CSV line,
    tidying an OCR'd date and a column label, and printing a parsed date as yyyyMM. */
module CsvDateConverter {
  import opened Wrappers
  import opened JavaText
  import opened Calendar
  import opened YearChoice
  import DateParser

  // ---------------------------------------------------------------- parseCsvLine

  /** The loop state of `parseCsvLine`: the fields so far, the field being built,
      and whether the scan is inside quotes. */
  datatype SplitState = SplitState(fields: seq<string>, current: string, inQuotes: bool)

  const Start := SplitState([], "", false)

  /** One character: a quote toggles the flag and is dropped, a comma outside
      quotes ends the field, anything else is appended to it. */
  function Step(st: SplitState, c: char): SplitState {
    if c == '"' then st.(inQuotes := !st.inQuotes)
    else if c == ',' && !st.inQuotes then SplitState(st.fields + [st.current], "", st.inQuotes)
    else st.(current := st.current + [c])
  }

  function Scan(st: SplitState, s: string): SplitState
    decreases |s|
  {
    if |s| == 0 then st else Scan(Step(st, s[0]), s[1..])
  }

  /** The fields `parseCsvLine` returns: those ended by a comma, then the last one. */
  function SplitFields(line: string): (r: seq<string>)
    ensures |r| >= 1
  {
    var st := Scan(Start, line);
    st.fields + [st.current]
  }

  lemma {:induction false} ScanConcat(st: SplitState, a: string, b: string)
    ensures Scan(st, a + b) == Scan(Scan(st, a), b)
    decreases |a|
  {
    if |a| > 0 {
      assert (a + b)[0] == a[0];
      assert (a + b)[1..] == a[1..] + b;
      ScanConcat(Step(st, a[0]), a[1..], b);
    } else {
      assert a + b == b;
    }
  }

  lemma ScanSnoc(st: SplitState, a: string, c: char)
    ensures Scan(st, a + [c]) == Step(Scan(st, a), c)
  {
    ScanConcat(st, a, [c]);
    assert [c][1..] == [];
  }

  /** `parseCsvLine`. */
  method ParseCsvLine(csvLine: string) returns (r: seq<string>)
    ensures r == SplitFields(csvLine)
  {
    var fields: seq<string> := [];
    var currentField := "";
    var inQuotes := false;
    for i := 0 to |csvLine|
      invariant SplitState(fields, currentField, inQuotes) == Scan(Start, csvLine[..i])
    {
      var c := csvLine[i];
      ScanSnoc(Start, csvLine[..i], c);
      assert csvLine[..i + 1] == csvLine[..i] + [c];
      if c == '"' {
        inQuotes := !inQuotes;
      } else if c == ',' && !inQuotes {
        fields := fields + [currentField];
        currentField := "";
      } else {
        currentField := currentField + [c];
      }
    }
    assert csvLine[..|csvLine|] == csvLine;
    r := fields + [currentField];
  }

  // ---------------------------------------------------------------- its properties

  /** Quotes among the first characters of `s`. */
  function Quotes(s: string): nat {
    multiset(s)['"']
  }

  /** Commas outside quotes: a comma counts when an even number of quotes precede it. */
  function UnquotedCommas(s: string): nat {
    if |s| == 0 then 0
    else
      var init := s[..|s| - 1];
      UnquotedCommas(init) + (if s[|s| - 1] == ',' && Quotes(init) % 2 == 0 then 1 else 0)
  }

  /** The fields joined back with commas. */
  function JoinComma(xs: seq<string>): string
    requires |xs| >= 1
  {
    if |xs| == 1 then xs[0] else JoinComma(xs[..|xs| - 1]) + "," + xs[|xs| - 1]
  }

  predicate NoQuote(xs: seq<string>) {
    forall k | 0 <= k < |xs| :: '"' !in xs[k]
  }

  lemma JoinCommaAppend(xs: seq<string>, c: char)
    requires |xs| >= 1
    ensures JoinComma(xs[..|xs| - 1] + [xs[|xs| - 1] + [c]]) == JoinComma(xs) + [c]
  {
    var ys := xs[..|xs| - 1] + [xs[|xs| - 1] + [c]];
    assert ys[..|ys| - 1] == xs[..|xs| - 1];
  }

  /** What the scan knows about quotes after any prefix: inside quotes exactly after
      an odd number of quotes, and one finished field per unquoted comma. */
  lemma {:induction false} ScanParity(s: string)
    ensures Scan(Start, s).inQuotes <==> Quotes(s) % 2 == 1
    ensures |Scan(Start, s).fields| == UnquotedCommas(s)
    decreases |s|
  {
    if |s| > 0 {
      var init := s[..|s| - 1];
      var c := s[|s| - 1];
      assert s == init + [c];
      ScanParity(init);
      ScanSnoc(Start, init, c);
      assert Quotes(s) == Quotes(init) + (if c == '"' then 1 else 0) by {
        assert multiset(s) == multiset(init) + multiset{c};
      }
      assert s[..|s| - 1] == init;
      var st := Scan(Start, init);
      if c == '"' {
        assert Scan(Start, s) == st.(inQuotes := !st.inQuotes);
      } else if c == ',' && !st.inQuotes {
        assert |Scan(Start, s).fields| == |st.fields| + 1;
      } else {
        assert Scan(Start, s) == st.(current := st.current + [c]);
      }
    }
  }

  /** What the scan knows about the text after any prefix: no quote is kept
      anywhere, and the fields joined with commas are the text with its quotes
      removed. */
  lemma {:induction false} ScanJoin(s: string)
    ensures NoQuote(Scan(Start, s).fields + [Scan(Start, s).current])
    ensures JoinComma(Scan(Start, s).fields + [Scan(Start, s).current]) == RemoveChar(s, '"')
    decreases |s|
  {
    if |s| > 0 {
      var init := s[..|s| - 1];
      var c := s[|s| - 1];
      assert s == init + [c];
      ScanJoin(init);
      ScanSnoc(Start, init, c);
      RemoveCharSnoc(init, c, '"');
      var st := Scan(Start, init);
      var xs := st.fields + [st.current];
      if c == '"' {
      } else if c == ',' && !st.inQuotes {
        var ys := st.fields + [st.current] + [""];
        assert ys[..|ys| - 1] == xs;
      } else {
        JoinCommaAppend(xs, c);
        assert xs[..|xs| - 1] == st.fields;
      }
    }
  }

  /** `parseCsvLine` returns one field more than there are commas outside quotes. */
  lemma FieldCount(line: string)
    ensures |SplitFields(line)| == UnquotedCommas(line) + 1
  {
    ScanParity(line);
  }

  /** No field keeps a quote, and joining the fields with commas gives the line
      with its quotes removed. */
  lemma FieldsDropQuotes(line: string)
    ensures NoQuote(SplitFields(line))
    ensures JoinComma(SplitFields(line)) == RemoveChar(line, '"')
  {
    ScanJoin(line);
  }

  // ---------------------------------------------------------------- convertToCsvLine

  /** A field that must be quoted: it holds a comma, a quote, LF or CR. */
  predicate NeedsQuoting(field: string) {
    Contains(field, ",") || Contains(field, "\"") || Contains(field, "\n") || Contains(field, "\r")
  }

  /** One field as `convertToCsvLine` writes it: null as "", a field that needs
      quoting inside quotes with each quote doubled, any other verbatim. */
  function EncodeField(f: Option<string>): string {
    var field := f.GetOr("");
    if NeedsQuoting(field) then "\"" + Replace(field, "\"", "\"\"") + "\"" else field
  }

  /** The quotes an encoded field holds are the two around it and two for each of
      its own, so they always pair up; a field written verbatim holds none. */
  lemma EncodedQuotesPair(f: Option<string>)
    ensures Quotes(EncodeField(f)) == if NeedsQuoting(f.GetOr("")) then 2 * Quotes(f.GetOr("")) + 2 else 0
  {
    var field := f.GetOr("");
    if NeedsQuoting(field) {
      ReplaceDoublesQuotes(field);
      DoubledQuoteCount(field);
    } else {
      UnquotedFieldCount(field);
    }
  }

  /** A field that does not contain the one-quote string holds no quote. */
  lemma UnquotedFieldCount(field: string)
    requires !Contains(field, "\"")
    ensures Quotes(field) == 0
  {
    if '"' in field {
      var i :| 0 <= i < |field| && field[i] == '"';
      QuoteIsContained(field, i);
      assert false;
    }
  }

  lemma QuoteIsContained(field: string, i: int)
    requires 0 <= i < |field| && field[i] == '"'
    ensures Contains(field, "\"")
  {
    assert field[i..i + 1] == "\"";
    ContainsIff(field, "\"");
    assert OccursAt(field, "\"", i);
  }

  /** Doubling the quotes doubles their number. */
  lemma {:induction false} DoubledQuoteCount(s: string)
    ensures Quotes(DoubleQuotes(s)) == 2 * Quotes(s)
  {
    if |s| > 0 {
      assert s == [s[0]] + s[1..];
      DoubledQuoteCount(s[1..]);
    }
  }

  /** The line `convertToCsvLine` writes: the encoded fields, separated by commas. */
  function ToCsvLine(fields: seq<Option<string>>): string {
    if |fields| == 0 then ""
    else if |fields| == 1 then EncodeField(fields[0])
    else ToCsvLine(fields[..|fields| - 1]) + "," + EncodeField(fields[|fields| - 1])
  }

  /** `convertToCsvLine`; a Java `null` field is `None`. */
  method ConvertToCsvLine(fields: seq<Option<string>>) returns (r: string)
    ensures r == ToCsvLine(fields)
  {
    var csvLine := "";
    for i := 0 to |fields|
      invariant csvLine == ToCsvLine(fields[..i])
    {
      ToCsvLineStep(fields, i);
      if i > 0 {
        csvLine := csvLine + ",";
      }
      ghost var prefix := csvLine;
      var field := if fields[i].None? then "" else fields[i].value;
      if NeedsQuoting(field) {
        csvLine := csvLine + ("\"" + Replace(field, "\"", "\"\"") + "\"");
      } else {
        csvLine := csvLine + field;
      }
      assert csvLine == prefix + EncodeField(fields[i]);
    }
    assert fields[..|fields|] == fields;
    r := csvLine;
  }

  lemma ToCsvLineStep(fields: seq<Option<string>>, i: nat)
    requires i < |fields|
    ensures ToCsvLine(fields[..i + 1]) == (if i == 0 then "" else ToCsvLine(fields[..i]) + ",") + EncodeField(fields[i])
  {
    assert fields[..i + 1][..i] == fields[..i];
  }

  /** The text each field stands for: null is the empty string. */
  function Values(fields: seq<Option<string>>): (r: seq<string>)
    ensures |r| == |fields|
    ensures forall k | 0 <= k < |fields| :: r[k] == fields[k].GetOr("")
  {
    if |fields| == 0 then [] else Values(fields[..|fields| - 1]) + [fields[|fields| - 1].GetOr("")]
  }

  /** Scanning quote-free text appends it to the current field, provided it has no
      comma or the scan is inside quotes. */
  lemma {:induction false} ScanPlain(st: SplitState, t: string)
    requires '"' !in t && (st.inQuotes || ',' !in t)
    ensures Scan(st, t) == st.(current := st.current + t)
    decreases |t|
  {
    if |t| > 0 {
      ScanPlain(Step(st, t[0]), t[1..]);
      assert st.current + [t[0]] + t[1..] == st.current + t;
    } else {
      assert st.current + t == st.current;
    }
  }

  /** Scanning an encoded quote-free field from a fresh field reads it back. */
  lemma ScanEncoded(fs: seq<string>, f: Option<string>)
    requires '"' !in f.GetOr("")
    ensures Scan(SplitState(fs, "", false), EncodeField(f)) == SplitState(fs, f.GetOr(""), false)
  {
    var field := f.GetOr("");
    var st := SplitState(fs, "", false);
    if NeedsQuoting(field) {
      ContainsSingle(field, '"');
      ReplaceAbsent(field, "\"", "\"\"");
      assert EncodeField(f) == ['"'] + field + ['"'];
      ScanConcat(st, ['"'] + field, ['"']);
      ScanConcat(st, ['"'], field);
      ScanPlain(Step(st, '"'), field);
    } else {
      ContainsSingle(field, ',');
      ScanPlain(st, field);
    }
  }

  /** The whole line scanned: every field but the last is finished, the last is
      being built, and the scan is outside quotes. */
  lemma {:induction false} ScanLine(fields: seq<Option<string>>)
    requires |fields| >= 1
    requires forall k | 0 <= k < |fields| :: '"' !in fields[k].GetOr("")
    ensures Scan(Start, ToCsvLine(fields)) ==
      SplitState(Values(fields[..|fields| - 1]), fields[|fields| - 1].GetOr(""), false)
  {
    var n := |fields|;
    if n == 1 {
      ScanEncoded([], fields[0]);
      assert fields[..0] == [];
    } else {
      var init := fields[..n - 1];
      ScanLine(init);
      assert init[..|init| - 1] == fields[..n - 2];
      ScanConcat(Start, ToCsvLine(init) + ",", EncodeField(fields[n - 1]));
      ScanSnoc(Start, ToCsvLine(init), ',');
      ScanEncoded(Values(fields[..n - 1]), fields[n - 1]);
      assert Values(fields[..n - 1]) == Values(fields[..n - 2]) + [fields[n - 2].GetOr("")] by {
        assert fields[..n - 1][..n - 2] == fields[..n - 2];
      }
    }
  }

  /** Writing quote-free fields and splitting the line again gives them back
      (null fields come back as ""). */
  lemma RoundTrip(fields: seq<Option<string>>)
    requires |fields| >= 1
    requires forall k | 0 <= k < |fields| :: '"' !in fields[k].GetOr("")
    ensures SplitFields(ToCsvLine(fields)) == Values(fields)
  {
    ScanLine(fields);
  }

  /** With a quote inside a field the round trip fails: the writer doubles the quote,
      the reader only toggles on quotes, so `a"b` comes back as `ab`. */
  lemma QuoteIsLost(f: string)
    requires f == ['a', '"', 'b']
    ensures ToCsvLine([Some(f)]) == ['"', 'a', '"', '"', 'b', '"']
    ensures SplitFields(ToCsvLine([Some(f)])) == ["ab"]
  {
    var line := ['"', 'a', '"', '"', 'b', '"'];
    assert ToCsvLine([Some(f)]) == line by {
      QuoteDoubled(f);
      QuotedFieldWritten(f, ['a', '"', '"', 'b']);
      assert "\"" + ['a', '"', '"', 'b'] + "\"" == line;
    }
    assert SplitFields(line) == ["ab"] by {
      ScanSteps(line);
    }
  }

  lemma QuotedFieldWritten(f: string, doubled: string)
    requires NeedsQuoting(f) && Replace(f, "\"", "\"\"") == doubled
    ensures ToCsvLine([Some(f)]) == "\"" + doubled + "\""
  {
  }

  lemma QuoteDoubled(f: string)
    requires f == ['a', '"', 'b']
    ensures NeedsQuoting(f) && Replace(f, "\"", "\"\"") == ['a', '"', '"', 'b']
  {
    var q := ['"'];
    assert OccursAt(f, q, 1);
    ContainsIff(f, q);
    assert ReplaceAll(f[2..], q, q + q) == ['b'] by {
      assert f[2..] == ['b'] && f[2..][..1] == ['b'] && f[2..][1..] == [];
    }
    assert ReplaceAll(f[1..], q, q + q) == q + q + ['b'] by {
      assert f[1..][..1] == q;
      assert f[1..][1..] == f[2..];
    }
    assert ReplaceAll(f, q, q + q) == ['a'] + q + q + ['b'] by {
      assert f[..1] == ['a'];
    }
    assert q + q == "\"\"" && q == "\"";
    assert NeedsQuoting(f);
  }

  lemma ScanSteps(t: string)
    requires t == ['"', 'a', '"', '"', 'b', '"']
    ensures Scan(Start, t) == SplitState([], "ab", false)
  {
    var s1 := SplitState([], "", true);
    var s2 := SplitState([], "a", true);
    var s3 := SplitState([], "a", false);
    var s4 := SplitState([], "a", true);
    var s5 := SplitState([], "ab", true);
    var s6 := SplitState([], "ab", false);
    forall k | 0 <= k < 6 ensures t[k..][1..] == t[k + 1..] { }
    assert "" + ['a'] == "a" && "a" + ['b'] == "ab";
    assert Scan(s6, t[6..]) == s6;
    assert Scan(s5, t[5..]) == s6;
    assert Scan(s4, t[4..]) == s6;
    assert Scan(s3, t[3..]) == s6;
    assert Scan(s2, t[2..]) == s6;
    assert Scan(s1, t[1..]) == s6;
  }

  // ---------------------------------------------------------------- a reader that undoes the doubling

  /** Where a reader that follows RFC 4180 stands: outside quotes, inside them, or
      just after a quote met inside them, which closes the quotes unless another
      quote follows, the pair standing for one quote. */
  datatype QuoteMode = Outside | Inside | QuoteInside

  datatype QuotedState = QuotedState(fields: seq<string>, current: string, mode: QuoteMode)

  const QuotedStart := QuotedState([], "", Outside)

  function QuotedStep(st: QuotedState, c: char): QuotedState {
    match st.mode
    case Outside =>
      if c == '"' then st.(mode := Inside)
      else if c == ',' then QuotedState(st.fields + [st.current], "", Outside)
      else st.(current := st.current + [c])
    case Inside =>
      if c == '"' then st.(mode := QuoteInside) else st.(current := st.current + [c])
    case QuoteInside =>
      if c == '"' then QuotedState(st.fields, st.current + [c], Inside)
      else if c == ',' then QuotedState(st.fields + [st.current], "", Outside)
      else QuotedState(st.fields, st.current + [c], Outside)
  }

  function QuotedScan(st: QuotedState, s: string): QuotedState
    decreases |s|
  {
    if |s| == 0 then st else QuotedScan(QuotedStep(st, s[0]), s[1..])
  }

  /** The corrected `parseCsvLine`: a doubled quote inside quotes is one quote. */
  function SplitFieldsQuoted(line: string): (r: seq<string>)
    ensures |r| >= 1
  {
    var st := QuotedScan(QuotedStart, line);
    st.fields + [st.current]
  }

  lemma {:induction false} QuotedScanConcat(st: QuotedState, a: string, b: string)
    ensures QuotedScan(st, a + b) == QuotedScan(QuotedScan(st, a), b)
    decreases |a|
  {
    if |a| > 0 {
      assert (a + b)[0] == a[0];
      assert (a + b)[1..] == a[1..] + b;
      QuotedScanConcat(QuotedStep(st, a[0]), a[1..], b);
    } else {
      assert a + b == b;
    }
  }

  /** The text with every quote written twice. */
  function DoubleQuotes(s: string): (r: string)
    ensures |r| == |s| + Quotes(s)
  {
    if |s| == 0 then []
    else
      assert s == [s[0]] + s[1..];
      (if s[0] == '"' then ['"', '"'] else [s[0]]) + DoubleQuotes(s[1..])
  }

  /** `field.replace("\"", "\"\"")` writes each quote twice. */
  lemma {:induction false} ReplaceDoublesQuotes(s: string)
    ensures ReplaceAll(s, "\"", "\"\"") == DoubleQuotes(s)
  {
    if |s| > 0 {
      ReplaceDoublesQuotes(s[1..]);
    }
  }

  /** Outside quotes, text without quotes and commas is appended as it is. */
  lemma {:induction false} QuotedScanPlain(st: QuotedState, t: string)
    requires st.mode == Outside && '"' !in t && ',' !in t
    ensures QuotedScan(st, t) == st.(current := st.current + t)
    decreases |t|
  {
    if |t| > 0 {
      QuotedScanPlain(QuotedStep(st, t[0]), t[1..]);
      assert st.current + [t[0]] + t[1..] == st.current + t;
    } else {
      assert st.current + t == st.current;
    }
  }

  /** Inside quotes, the doubled text is read back as the text. */
  lemma {:induction false} QuotedScanDoubled(st: QuotedState, t: string)
    requires st.mode == Inside
    ensures QuotedScan(st, DoubleQuotes(t)) == st.(current := st.current + t)
    decreases |t|
  {
    if |t| > 0 {
      var piece := if t[0] == '"' then ['"', '"'] else [t[0]];
      var next := st.(current := st.current + [t[0]]);
      QuotedScanConcat(st, piece, DoubleQuotes(t[1..]));
      if t[0] == '"' {
        var mid := st.(mode := QuoteInside);
        assert QuotedStep(st, '"') == mid;
        assert QuotedStep(mid, '"') == next;
        assert QuotedScan(next, []) == next;
        assert QuotedScan(mid, ['"']) == next;
        assert QuotedScan(st, ['"', '"']) == next;
      } else {
        assert QuotedStep(st, t[0]) == next;
        assert QuotedScan(next, []) == next;
        assert QuotedScan(st, [t[0]]) == next;
      }
      QuotedScanDoubled(next, t[1..]);
      assert next.current + t[1..] == st.current + t;
    } else {
      assert st.current + t == st.current;
    }
  }

  /** One encoded field read from the start of a field: its text is the current
      field, and the reader is not inside quotes. */
  lemma QuotedScanEncoded(fs: seq<string>, f: Option<string>)
    ensures var st := QuotedScan(QuotedState(fs, "", Outside), EncodeField(f));
      st.fields == fs && st.current == f.GetOr("") && st.mode != Inside
  {
    var field := f.GetOr("");
    var st := QuotedState(fs, "", Outside);
    if NeedsQuoting(field) {
      ReplaceDoublesQuotes(field);
      var body := DoubleQuotes(field);
      assert EncodeField(f) == ['"'] + body + ['"'];
      QuotedScanConcat(st, ['"'] + body, ['"']);
      QuotedScanConcat(st, ['"'], body);
      QuotedScanDoubled(QuotedStep(st, '"'), field);
    } else {
      ContainsSingle(field, ',');
      ContainsSingle(field, '"');
      QuotedScanPlain(st, field);
    }
  }

  lemma {:induction false} QuotedScanLine(fields: seq<Option<string>>)
    requires |fields| >= 1
    ensures var st := QuotedScan(QuotedStart, ToCsvLine(fields));
      st.fields == Values(fields[..|fields| - 1]) && st.current == fields[|fields| - 1].GetOr("")
      && st.mode != Inside
  {
    var n := |fields|;
    if n == 1 {
      QuotedScanEncoded([], fields[0]);
      assert fields[..0] == [];
    } else {
      var init := fields[..n - 1];
      QuotedScanLine(init);
      assert init[..|init| - 1] == fields[..n - 2];
      var before := QuotedScan(QuotedStart, ToCsvLine(init));
      QuotedScanConcat(QuotedStart, ToCsvLine(init) + ",", EncodeField(fields[n - 1]));
      QuotedScanConcat(QuotedStart, ToCsvLine(init), ",");
      assert QuotedScan(before, ",") == QuotedState(Values(fields[..n - 1]), "", Outside) by {
        assert Values(fields[..n - 1]) == Values(fields[..n - 2]) + [fields[n - 2].GetOr("")] by {
          assert fields[..n - 1][..n - 2] == fields[..n - 2];
        }
      }
      QuotedScanEncoded(Values(fields[..n - 1]), fields[n - 1]);
    }
  }

  /** With the corrected reader every line the writer produces splits back into
      the fields it was written from, quotes, commas and line breaks included. */
  lemma QuotedRoundTrip(fields: seq<Option<string>>)
    requires |fields| >= 1
    ensures SplitFieldsQuoted(ToCsvLine(fields)) == Values(fields)
  {
    QuotedScanLine(fields);
  }

  /** On a line without quotes the corrected reader and `parseCsvLine` agree. */
  lemma {:induction false} ReadersAgreeWithoutQuotes(st: SplitState, qs: QuotedState, s: string)
    requires '"' !in s && !st.inQuotes && qs.mode == Outside
    requires st.fields == qs.fields && st.current == qs.current
    ensures Scan(st, s).fields == QuotedScan(qs, s).fields
    ensures Scan(st, s).current == QuotedScan(qs, s).current
    decreases |s|
  {
    if |s| > 0 {
      ReadersAgreeWithoutQuotes(Step(st, s[0]), QuotedStep(qs, s[0]), s[1..]);
    }
  }

  lemma SplitsAgreeWithoutQuotes(line: string)
    requires '"' !in line
    ensures SplitFieldsQuoted(line) == SplitFields(line)
  {
    ReadersAgreeWithoutQuotes(Start, QuotedStart, line);
  }

  // ---------------------------------------------------------------- OCR date text

  /** Characters the OCR normaliser never leaves behind: spaces of both widths,
      the kanji year, month and day markers, and the two other delimiters. */
  predicate NoOcrNoise(s: string) {
    '　' !in s && ' ' !in s && '年' !in s && '月' !in s && '日' !in s && '/' !in s && '-' !in s
  }

  /** A line terminator in the sense of `java.util.regex`. */
  predicate IsLineTerminator(c: char) {
    c == '\n' || c == '\r' || c == '\U{0085}' || c == '\U{2028}' || c == '\U{2029}'
  }

  /** `^[RrHhSs]\d{3,4}$` under `String.matches`: an era letter and three or four
      ASCII digits, nothing else. */
  predicate IsEraDigits(s: string) {
    (|s| == 4 || |s| == 5) && s[0] in "RrHhSs" && AllDigits(s[1..])
  }

  /** The delimiter clean-up: full-width space to space, spaces dropped, the kanji
      markers and the other delimiters turned into (or dropped as) dots, and one
      pass that folds each ".." into ".". */
  function OcrDelimiters(s0: string): string {
    OcrMarkers(Replace(MapChar(s0, '　', ' '), " ", ""))
  }

  /** The part of the clean-up after the spaces are gone. */
  function OcrMarkers(s2: string): string {
    var s3 := Replace(s2, "年", ".");
    var s4 := Replace(s3, "月", ".");
    var s5 := Replace(s4, "日", "");
    var s6 := Replace(s5, "/", ".");
    var s7 := Replace(s6, "-", ".");
    Replace(s7, "..", ".")
  }

  /** Era letter, the first two digits, a dot, the rest of the digits. */
  function InsertEraDot(s: string): (r: string)
    requires IsEraDigits(s)
    ensures |r| == |s| + 1 && r[3] == '.'
    ensures r[..3] == s[..3] && r[4..] == s[3..]
  {
    s[..1] + s[1..][..2] + "." + s[1..][2..]
  }

  /** `replaceAll("\\.(?=\\.)", ".")`: a dot that another dot follows is replaced
      by a dot, so the text comes back unchanged. */
  function DotBeforeDot(s: string): (r: string)
    ensures r == s
  {
    if |s| == 0 then s
    else (if s[0] == '.' && |s| > 1 && s[1] == '.' then "." else [s[0]]) + DotBeforeDot(s[1..])
  }

  /** `replaceAll("\\.$", "")`: `$` matches at the end of the text and before a
      line terminator that ends it ("\r\n" counting as one), so at most one dot,
      the one just before that point, is dropped. */
  function DropFinalDot(s: string): (r: string)
    ensures |r| == |s| || |r| == |s| - 1
    ensures forall c | c in r :: c in s
    ensures |s| > 0 && s[|s| - 1] != '.' && !IsLineTerminator(s[|s| - 1]) ==> r == s
  {
    var n := |s|;
    if n >= 1 && s[n - 1] == '.' then s[..n - 1]
    else if n >= 2 && s[n - 2] == '.' && IsLineTerminator(s[n - 1]) then s[..n - 2] + s[n - 1..]
    else if n >= 3 && s[n - 3] == '.' && s[n - 2..] == "\r\n" then s[..n - 3] + "\r\n"
    else s
  }

  /** What follows the delimiter clean-up: the era dot, a second ".." fold, the
      look-ahead replacement and the final-dot removal. */
  function OcrTail(s8: string): string {
    var s9 := if IsEraDigits(s8) then InsertEraDot(s8) else s8;
    DropFinalDot(DotBeforeDot(ReplaceAll(s9, "..", ".")))
  }

  /** `normalizeOcrDateString`: null gives "", a blank text gives "", anything
      else is trimmed and normalised. */
  function NormalizeOcrDateString(src: Option<string>): string {
    if src.None? then ""
    else
      var s := Trim(src.value);
      if s == [] then s else OcrTail(OcrDelimiters(s))
  }

  /** No two neighbouring dots means no "..". */
  lemma {:induction false} NoAdjacentDots(s: string)
    requires forall k | 0 <= k < |s| - 1 :: !(s[k] == '.' && s[k + 1] == '.')
    ensures !Contains(s, "..")
    decreases |s|
  {
    if |s| > 0 {
      NoAdjacentDots(s[1..]);
      if |s| >= 2 {
        assert s[..2][0] == s[0] && s[..2][1] == s[1];
      }
    }
  }

  lemma OcrDelimitersClean(s0: string)
    ensures NoOcrNoise(OcrDelimiters(s0))
  {
    var s1 := MapChar(s0, '　', ' ');
    var s2 := Replace(s1, " ", "");
    var s3 := Replace(s2, "年", ".");
    var s4 := Replace(s3, "月", ".");
    var s5 := Replace(s4, "日", "");
    var s6 := Replace(s5, "/", ".");
    var s7 := Replace(s6, "-", ".");
    var s8 := Replace(s7, "..", ".");
    ReplaceCharRemoves(s1, ' ', "");
    KeepsAbsent(s1, " ", "");
    ReplaceCharRemoves(s2, '年', ".");
    KeepsAbsent(s2, "年", ".");
    ReplaceCharRemoves(s3, '月', ".");
    KeepsAbsent(s3, "月", ".");
    ReplaceCharRemoves(s4, '日', "");
    KeepsAbsent(s4, "日", "");
    ReplaceCharRemoves(s5, '/', ".");
    KeepsAbsent(s5, "/", ".");
    ReplaceCharRemoves(s6, '-', ".");
    KeepsAbsent(s6, "-", ".");
    KeepsAbsent(s7, "..", ".");
  }

  lemma OcrTailKeepsClean(s8: string)
    requires NoOcrNoise(s8)
    ensures NoOcrNoise(OcrTail(s8))
  {
    var s9 := if IsEraDigits(s8) then InsertEraDot(s8) else s8;
    if IsEraDigits(s8) {
      forall c | c in s9 ensures c in s8 || c == '.' {
        var k :| 0 <= k < |s9| && s9[k] == c;
        if k < 3 {
          assert s9[k] == s9[..3][k] == s8[..3][k];
        } else if k > 3 {
          assert s9[k] == s9[4..][k - 4] == s8[3..][k - 4];
        }
      }
    }
    KeepsAbsent(s9, "..", ".");
  }

  /** The normalised text holds no space of either width, no 年, 月 or 日, no slash
      and no hyphen. */
  lemma OcrResultIsClean(src: Option<string>)
    ensures NoOcrNoise(NormalizeOcrDateString(src))
  {
    if src.Some? && Trim(src.value) != [] {
      var s8 := OcrDelimiters(Trim(src.value));
      OcrDelimitersClean(Trim(src.value));
      OcrTailKeepsClean(s8);
    }
  }

  /** A text free of the noise characters and of dots passes the clean-up as is. */
  lemma DelimitersAbsent(s: string)
    requires NoOcrNoise(s) && '.' !in s
    ensures OcrDelimiters(s) == s
  {
    MapAbsentChar(s, '　', ' ');
    ReplaceAbsentChar(s, ' ', "");
    MarkersAbsent(s);
  }

  lemma MarkersAbsent(s: string)
    requires NoOcrNoise(s) && '.' !in s
    ensures OcrMarkers(s) == s
  {
    ReplaceAbsentChar(s, '年', ".");
    ReplaceAbsentChar(s, '月', ".");
    ReplaceAbsentChar(s, '日', "");
    ReplaceAbsentChar(s, '/', ".");
    ReplaceAbsentChar(s, '-', ".");
    NoAdjacentDots(s);
    ReplaceAbsent(s, "..", ".");
  }

  /** The tail on an era letter and three or four digits inserts the dot after the
      two-digit era year and changes nothing else. */
  lemma EraTail(s: string)
    requires IsEraDigits(s)
    ensures OcrTail(s) == s[..3] + "." + s[3..]
  {
    var s9 := InsertEraDot(s);
    assert s9 == s[..3] + "." + s[3..];
    forall k | 0 <= k < |s9| && k != 3 ensures s9[k] != '.' {
      if k == 0 {
        assert s9[0] == s[0];
      } else if k < 3 {
        assert s9[k] == s[1..][k - 1];
      } else {
        assert s9[k] == s[1..][k - 2];
      }
    }
    NoAdjacentDots(s9);
    ReplaceAbsent(s9, "..", ".");
    assert IsAsciiDigit(s[1..][|s| - 2]);
  }

  /** "H106" becomes "H10.6" and "H1006" becomes "H10.06": an era letter followed by
      three or four digits gets a dot after the two-digit era year. */
  lemma EraDigitsGetDot(e: char, d: string)
    requires e in "RrHhSs" && AllDigits(d) && (|d| == 3 || |d| == 4)
    ensures NormalizeOcrDateString(Some([e] + d)) == [e] + d[..2] + "." + d[2..]
  {
    var s := [e] + d;
    assert s[1..] == d;
    assert IsAsciiDigit(s[|s| - 1]);
    TrimKeeps(s);
    forall k | 0 <= k < |s| ensures s[k] == e || IsAsciiDigit(s[k]) {
      if k > 0 {
        assert s[k] == d[k - 1];
      }
    }
    DelimitersAbsent(s);
    EraTail(s);
    assert s[..3] == [e] + d[..2] && s[3..] == d[2..];
  }

  /** "H10 5" becomes "H10.5": the space is dropped, then the era dot is inserted. */
  lemma SpacedEraDate(src: string)
    requires src == "H10 5"
    ensures NormalizeOcrDateString(Some(src)) == "H10.5"
  {
    TrimKeeps(src);
    var t := SpacedDelimiters(src);
    assert t[1..] == "105";
    EraTail(t);
    assert t[..3] + "." + t[3..] == "H10.5";
  }

  lemma SpacedDelimiters(src: string) returns (t: string)
    requires src == "H10 5"
    ensures t == "H105" && OcrDelimiters(src) == t
  {
    MapAbsentChar(src, '　', ' ');
    t := SpaceRemoved(src);
    MarkersAbsent(t);
  }

  lemma SpaceRemoved(src: string) returns (t: string)
    requires src == "H10 5"
    ensures t == "H105" && Replace(src, " ", "") == t
  {
    ReplaceCharByNothing(src, ' ');
    t := "H105";
    assert RemoveChar(src, ' ') == t by {
      var a := src[1..];
      var b := a[1..];
      var c := b[1..];
      var d := c[1..];
      assert a == "10 5" && b == "0 5" && c == " 5" && d == "5" && d[1..] == [];
      assert RemoveChar(d, ' ') == "5";
      assert RemoveChar(c, ' ') == "5";
      assert RemoveChar(b, ' ') == "05";
      assert RemoveChar(a, ' ') == "105";
    }
  }

  // ---------------------------------------------------------------- labels

  /** `c` equals the lower-case ASCII letter `lower` ignoring case. */
  predicate SameLetterIgnoringCase(c: char, lower: char)
    requires 'a' <= lower <= 'z'
  {
    c == lower || c as int == lower as int - 32
  }

  /** `equalsIgnoreCase("null")`. */
  predicate IsNullWord(x: string) {
    |x| == 4 && SameLetterIgnoringCase(x[0], 'n') && SameLetterIgnoringCase(x[1], 'u')
    && SameLetterIgnoringCase(x[2], 'l') && SameLetterIgnoringCase(x[3], 'l')
  }

  /** `normalizeLabel`. */
  function NormalizeLabel(s: Option<string>): string {
    if s.None? then ""
    else
      var x := Trim(s.value);
      if IsNullWord(x) then ""
      else Replace(MapChar(Replace(x, " ", ""), '　', ' '), "　", "")
  }

  /** A label is the trimmed text without its ASCII spaces, each full-width space
      turned into an ASCII space (the last replacement finds none left), or ""
      when it spells null in any case. */
  lemma LabelShape(s: string)
    ensures NormalizeLabel(Some(s))
      == if IsNullWord(Trim(s)) then [] else MapChar(RemoveChar(Trim(s), ' '), '　', ' ')
    ensures '　' !in NormalizeLabel(Some(s))
  {
    var x := Trim(s);
    ReplaceCharByNothing(x, ' ');
    var m := MapChar(RemoveChar(x, ' '), '　', ' ');
    ReplaceAbsentChar(m, '　', "");
  }

  /** The label normalisation the comment beside the full-width replacements asks
      for: ASCII and full-width spaces both removed. */
  function NormalizeLabelIntended(s: Option<string>): (r: string)
    ensures ' ' !in r && '　' !in r
  {
    if s.None? then ""
    else
      var x := Trim(s.value);
      if IsNullWord(x) then "" else RemoveChar(RemoveChar(x, ' '), '　')
  }

  /** Every character of the trimmed text comes from the text. */
  lemma TrimChars(s: string)
    ensures forall c | c in Trim(s) :: c in s
  {
    var i :| OccursAt(s, Trim(s), i);
    forall c | c in Trim(s) ensures c in s {
      var k :| 0 <= k < |Trim(s)| && Trim(s)[k] == c;
      assert s[i + k] == s[i..i + |Trim(s)|][k];
    }
  }

  /** Without a full-width space the label is the same under both definitions. */
  lemma LabelsAgreeWithoutFullWidthSpace(s: string)
    requires '　' !in s
    ensures NormalizeLabel(Some(s)) == NormalizeLabelIntended(Some(s))
  {
    LabelShape(s);
    TrimChars(s);
    var y := RemoveChar(Trim(s), ' ');
    MapAbsentChar(y, '　', ' ');
    RemoveAbsentChar(y, '　');
  }

  /** As written, a trailing full-width space survives as an ASCII space: "目標　"
      (which `trim` leaves alone) becomes "目標 ", while "目標 " becomes "目標". */
  lemma FullWidthSpaceBecomesSpace(s: string)
    requires s == "目標　"
    ensures NormalizeLabel(Some(s)) == "目標 "
    ensures NormalizeLabelIntended(Some(s)) == "目標"
  {
    TrimKeeps(s);
    LabelShape(s);
    RemoveAbsentChar(s, ' ');
    assert s[1..] == "標　" && s[1..][1..] == "　" && s[1..][1..][1..] == [];
    assert MapChar(s[1..][1..], '　', ' ') == " ";
    assert MapChar(s[1..], '　', ' ') == "標 ";
    assert RemoveChar(s[1..][1..], '　') == [];
    assert RemoveChar(s[1..], '　') == "標";
  }

  // ---------------------------------------------------------------- wareki to yyyyMM

  /** A Joda number field of at least `width` digits: zero-padded, with '-' in
      front of a negative value. */
  function JodaPadded(n: int, width: nat): string {
    if n < 0 then "-" + PadZeros(NatToString(-n), width) else PadZeros(NatToString(n), width)
  }

  /** The output pattern `yyyyMM`. */
  function FormatYearMonth(year: int, month: int): string {
    JodaPadded(year, 4) + JodaPadded(month, 2)
  }

  /** A value below `10^width` prints as exactly `width` digits denoting it. */
  lemma PaddedField(n: nat, width: nat)
    requires 0 < width && n < Pow10(width)
    ensures var r := JodaPadded(n, width);
      |r| == width && AllDigits(r) && DigitsValue(r) == n
  {
    var s := NatToString(n);
    NatToStringValue(n);
    if |s| > width {
      LeadingDigitBound(s);
      PowMonotone(width, |s| - 1);
    }
    PadZerosValue(s, width);
  }

  /** A four-digit year and a month print as six digits, the year in the first
      four and the month in the last two. */
  lemma YearMonthText(year: int, month: int)
    requires IsCollectYear(year) && IsMonth(month)
    ensures var r := FormatYearMonth(year, month);
      |r| == 6 && AllDigits(r) && DigitsValue(r[..4]) == year && DigitsValue(r[4..]) == month
  {
    assert Pow10(2) == 100 && Pow10(4) == 10000;
    PaddedField(year, 4);
    PaddedField(month, 2);
    var y := JodaPadded(year, 4);
    var m := JodaPadded(month, 2);
    assert FormatYearMonth(year, month) == y + m;
    assert (y + m)[..4] == y && (y + m)[4..] == m;
  }

  /** `convertWarekiToSeireki`: null or blank gives null; otherwise the trimmed
      text goes to `Parse` without a basis date, and a parsed date is printed as
      `yyyyMM`; any exception gives null. */
  function ConvertWarekiToSeireki(wareki: Option<string>, now: Reference, timestamp: string -> Option<Date>)
    : (r: Option<string>)
    ensures r.Some? ==> wareki.Some? && !IsBlank(wareki.value)
    ensures r.Some? <==> wareki.Some? && DateParser.ParseInnerSpec(Trim(wareki.value), None, now, timestamp).Some?
  {
    if wareki.None? || Trim(wareki.value) == [] then None
    else match DateParser.Parse(Some(Trim(wareki.value)), None, now, timestamp)
      case Parsed(d) => Some(FormatYearMonth(d.year, d.month))
      case _ => None
  }

  /** `trim().isEmpty()`. */
  predicate IsBlank(s: string) {
    Trim(s) == []
  }

  /** Unless the date came from the time-stamp fallback, the converted text is
      six ASCII digits: the parsed four-digit year and its month. */
  lemma ConvertedIsYearMonth(wareki: string, now: Reference, timestamp: string -> Option<Date>)
    requires ConvertWarekiToSeireki(Some(wareki), now, timestamp).Some?
    requires var t := Trim(wareki);
      DateParser.ParseInnerSpec(t, None, now, timestamp) != timestamp(DateParser.Prepared(t))
    ensures var r := ConvertWarekiToSeireki(Some(wareki), now, timestamp).value;
      var d := DateParser.ParseInnerSpec(Trim(wareki), None, now, timestamp).value;
      |r| == 6 && AllDigits(r) && DigitsValue(r[..4]) == d.year && DigitsValue(r[4..]) == d.month
      && IsCollectYear(d.year) && IsMonth(d.month)
  {
    var t := Trim(wareki);
    DateParser.ParsedDateIsValid(t, None, now, timestamp);
    var d := DateParser.ParseInnerSpec(t, None, now, timestamp).value;
    YearMonthText(d.year, d.month);
  }
}
