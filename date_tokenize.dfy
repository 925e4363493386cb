/** The date parser: the text becomes a list of (digit run, following
    text) tokens, as the regular expression `([0-9]+)([^0-9]*)` finds them. */
module DateTokenize {
  import opened Wrappers
  import opened JavaText
  import opened NumberTokens

  /** End of the run of ASCII digits starting at `i`. */
  function DigitRunEnd(s: string, i: nat): (j: nat)
    requires i <= |s|
    ensures i <= j <= |s| && AllDigits(s[i..j])
    ensures j == |s| || !IsAsciiDigit(s[j])
    decreases |s| - i
  {
    if i < |s| && IsAsciiDigit(s[i]) then DigitRunEnd(s, i + 1) else i
  }

  /** End of the run of non-digits starting at `i`: the next digit, or the end. */
  function TextRunEnd(s: string, i: nat): (j: nat)
    requires i <= |s|
    ensures i <= j <= |s| && NoDigit(s[i..j])
    ensures j == |s| || IsAsciiDigit(s[j])
    decreases |s| - i
  {
    if i < |s| && !IsAsciiDigit(s[i]) then TextRunEnd(s, i + 1) else i
  }

  predicate NoDigit(s: string) {
    forall k | 0 <= k < |s| :: !IsAsciiDigit(s[k])
  }

  /** The (number, after) groups of successive matches, starting at a digit or at
      the end of the text. */
  function RawFrom(s: string, i: nat): seq<(string, string)>
    requires i <= |s| && (i == |s| || IsAsciiDigit(s[i]))
    decreases |s| - i
  {
    if i == |s| then []
    else
      var j := DigitRunEnd(s, i);
      var k := TextRunEnd(s, j);
      [(s[i..j], s[j..k])] + RawFrom(s, k)
  }

  /** Everything before the first digit is skipped by the first `find`. */
  function RawTokens(s: string): seq<(string, string)> {
    RawFrom(s, TextRunEnd(s, 0))
  }

  /** `new NumberToken(number, after)` for each group; the first `parseInt` that
      throws aborts the whole tokenisation. */
  function ParseAll(raw: seq<(string, string)>): (r: Option<seq<NumberToken>>)
    ensures r.Some? ==> |r.value| == |raw|
    ensures r.Some? <==> forall i | 0 <= i < |raw| :: ParseInt(raw[i].0).Some?
    ensures r.Some? ==> forall i | 0 <= i < |raw| ::
      r.value[i].tokenAsString == raw[i].0 && r.value[i].afterWord == raw[i].1
      && ParseInt(raw[i].0) == Some(r.value[i].token)
  {
    if |raw| == 0 then Some([])
    else match (OfStringWith(raw[0].0, raw[0].1), ParseAll(raw[1..]))
      case (Some(t), Some(rest)) => Some([t] + rest)
      case _ => None
  }

  function Tokens(s: string): Option<seq<NumberToken>> {
    ParseAll(RawTokens(s))
  }

  /** `TokenizeWithNumber`: repeated `find`, one token per match. */
  method TokenizeWithNumber(src: string) returns (r: Option<seq<NumberToken>>)
    ensures r == Tokens(src)
  {
    var list: seq<NumberToken> := [];
    var i := TextRunEnd(src, 0);
    PrependEmpty(ParseAll(RawFrom(src, i)));
    while i < |src|
      invariant i <= |src| && (i == |src| || IsAsciiDigit(src[i]))
      invariant Tokens(src) == Prepend(list, ParseAll(RawFrom(src, i)))
      decreases |src| - i
    {
      var j := DigitRunEnd(src, i);
      var k := TextRunEnd(src, j);
      var raw := RawFrom(src, i);
      assert raw == [(src[i..j], src[j..k])] + RawFrom(src, k);
      assert raw[1..] == RawFrom(src, k);
      var t := OfStringWith(src[i..j], src[j..k]);
      PrependStep(list, raw);
      if t.None? {
        return None;
      }
      list := list + [t.value];
      i := k;
    }
    assert list + [] == list;
    r := Some(list);
  }

  lemma PrependEmpty(x: Option<seq<NumberToken>>)
    ensures Prepend([], x) == x
  {
    if x.Some? {
      assert [] + x.value == x.value;
    }
  }

  /** One step of the loop: the first group either fails, failing everything, or
      moves its token onto the list. */
  lemma PrependStep(list: seq<NumberToken>, raw: seq<(string, string)>)
    requires |raw| > 0
    ensures OfStringWith(raw[0].0, raw[0].1).None? ==> Prepend(list, ParseAll(raw)) == None
    ensures OfStringWith(raw[0].0, raw[0].1).Some? ==>
      Prepend(list, ParseAll(raw)) == Prepend(list + [OfStringWith(raw[0].0, raw[0].1).value], ParseAll(raw[1..]))
  {
    var rest := ParseAll(raw[1..]);
    if rest.Some? {
      var t := OfStringWith(raw[0].0, raw[0].1);
      if t.Some? {
        assert list + ([t.value] + rest.value) == (list + [t.value]) + rest.value;
      }
    }
  }

  function Prepend(list: seq<NumberToken>, rest: Option<seq<NumberToken>>): Option<seq<NumberToken>> {
    match rest
    case None => None
    case Some(r) => Some(list + r)
  }

  // ---------------------------------------------------------------- properties

  function Concat(raw: seq<(string, string)>): string {
    if |raw| == 0 then "" else raw[0].0 + raw[0].1 + Concat(raw[1..])
  }

  /** Every group is a non-empty digit run followed by digit-free text, and that
      text is non-empty except possibly in the last group: the runs are maximal. */
  predicate WellFormed(raw: seq<(string, string)>) {
    forall i | 0 <= i < |raw| ::
      |raw[i].0| > 0 && AllDigits(raw[i].0) && NoDigit(raw[i].1) && (i < |raw| - 1 ==> |raw[i].1| > 0)
  }

  /** The groups, put back together, are the text from `i` on, and they are well formed. */
  lemma {:induction false} RawFromCovers(s: string, i: nat)
    requires i <= |s| && (i == |s| || IsAsciiDigit(s[i]))
    ensures Concat(RawFrom(s, i)) == s[i..]
    ensures WellFormed(RawFrom(s, i))
    decreases |s| - i
  {
    if i < |s| {
      var j := DigitRunEnd(s, i);
      var k := TextRunEnd(s, j);
      var rest := RawFrom(s, k);
      RawFromCovers(s, k);
      RawFromAt(s, i, j, k);
      assert s[i..] == s[i..j] + s[j..k] + s[k..];
      assert j > i;
      if |rest| > 0 {
        assert k < |s| && IsAsciiDigit(s[k]);
        assert j < k;
      }
      WellFormedCons((s[i..j], s[j..k]), rest);
    }
  }

  /** A well-formed group list with one more group in front. */
  lemma WellFormedCons(g: (string, string), rest: seq<(string, string)>)
    requires WellFormed(rest) && |g.0| > 0 && AllDigits(g.0) && NoDigit(g.1)
    requires |rest| > 0 ==> |g.1| > 0
    ensures WellFormed([g] + rest)
  {
    var raw := [g] + rest;
    forall m | 0 <= m < |raw|
      ensures |raw[m].0| > 0 && AllDigits(raw[m].0) && NoDigit(raw[m].1) && (m < |raw| - 1 ==> |raw[m].1| > 0)
    {
      if m > 0 {
        assert raw[m] == rest[m - 1];
      }
    }
  }


  /** Concatenating the tokens' digit strings and trailing texts gives the input
      without its leading non-digit prefix; that prefix holds no digit. */
  lemma TokensCoverInput(s: string)
    ensures Concat(RawTokens(s)) == s[TextRunEnd(s, 0)..]
    ensures NoDigit(s[..TextRunEnd(s, 0)])
    ensures WellFormed(RawTokens(s))
  {
    RawFromCovers(s, TextRunEnd(s, 0));
  }

  /** A digit run from `i` that stops exactly at `j` ends there. */
  lemma {:induction false} DigitRunEndsAt(s: string, i: nat, j: nat)
    requires i <= j <= |s| && AllDigits(s[i..j]) && (j == |s| || !IsAsciiDigit(s[j]))
    ensures DigitRunEnd(s, i) == j
    decreases j - i
  {
    if i < j {
      assert s[i..j][0] == s[i];
      assert s[i + 1..j] == s[i..j][1..];
      DigitRunEndsAt(s, i + 1, j);
    }
  }

  /** A digit-free stretch from `i` that stops exactly at `j` ends there. */
  lemma {:induction false} TextRunEndsAt(s: string, i: nat, j: nat)
    requires i <= j <= |s| && NoDigit(s[i..j]) && (j == |s| || IsAsciiDigit(s[j]))
    ensures TextRunEnd(s, i) == j
    decreases j - i
  {
    if i < j {
      assert s[i..j][0] == s[i];
      assert s[i + 1..j] == s[i..j][1..];
      TextRunEndsAt(s, i + 1, j);
    }
  }

  /** The group at `i` is the digit run `a` followed by the digit-free text `p`,
      which is not empty unless the text ends there. */
  lemma RawFromStep(s: string, i: nat, a: string, p: string)
    requires |a| > 0 && AllDigits(a) && NoDigit(p)
    requires i + |a| + |p| <= |s| && s[i..i + |a|] == a && s[i + |a|..i + |a| + |p|] == p
    requires |p| > 0 || i + |a| == |s|
    requires i + |a| + |p| == |s| || IsAsciiDigit(s[i + |a| + |p|])
    ensures IsAsciiDigit(s[i])
    ensures RawFrom(s, i) == [(a, p)] + RawFrom(s, i + |a| + |p|)
  {
    var j, k := i + |a|, i + |a| + |p|;
    assert IsAsciiDigit(s[i]) by {
      assert s[i] == s[i..j][0];
    }
    assert DigitRunEnd(s, i) == j && TextRunEnd(s, j) == k by {
      GroupEnds(s, i, a, p);
    }
    RawFromAt(s, i, j, k);
    assert (s[i..j], s[j..k]) == (a, p);
  }

  /** Where the digit run and the text run of the group `a p` at `i` end. */
  lemma GroupEnds(s: string, i: nat, a: string, p: string)
    requires |a| > 0 && AllDigits(a) && NoDigit(p)
    requires i + |a| + |p| <= |s| && s[i..i + |a|] == a && s[i + |a|..i + |a| + |p|] == p
    requires |p| > 0 || i + |a| == |s|
    requires i + |a| + |p| == |s| || IsAsciiDigit(s[i + |a| + |p|])
    ensures DigitRunEnd(s, i) == i + |a|
    ensures TextRunEnd(s, i + |a|) == i + |a| + |p|
  {
    assert i + |a| == |s| || !IsAsciiDigit(s[i + |a|]) by {
      if |p| > 0 {
        assert s[i + |a|] == p[0];
      }
    }
    DigitRunEndsAt(s, i, i + |a|);
    TextRunEndsAt(s, i + |a|, i + |a| + |p|);
  }

  /** One unfolding of RawFrom, once the two run ends are known. */
  lemma RawFromAt(s: string, i: nat, j: nat, k: nat)
    requires i < |s| && IsAsciiDigit(s[i])
    requires DigitRunEnd(s, i) == j && TextRunEnd(s, j) == k
    ensures RawFrom(s, i) == [(s[i..j], s[j..k])] + RawFrom(s, k)
  {
  }


  /** A text that is one run of at most nine digits is one token, the run itself. */
  lemma OneRunToken(s: string)
    requires AllDigits(s) && 0 < |s| <= 9
    ensures Tokens(s).Some? && |Tokens(s).value| == 1
    ensures var t := Tokens(s).value[0];
      t.token == DigitsValue(s) && t.tokenAsString == s && t.afterWord == ""
  {
    TextRunEndsAt(s, 0, 0);
    DigitRunEndsAt(s, 0, |s|);
    TextRunEndsAt(s, |s|, |s|);
    assert RawFrom(s, 0) == [(s[0..|s|], s[|s|..|s|])] + RawFrom(s, |s|);
    assert s[0..|s|] == s && s[|s|..|s|] == "" && RawFrom(s, |s|) == [];
    assert RawTokens(s) == [(s, "")];
    ShortDigitsParse(s);
  }

  /** `t` is the token of the digit run `digits` followed by `after`. */
  predicate RunToken(t: NumberToken, digits: string, after: string) {
    AllDigits(digits) && t.token == DigitsValue(digits) && t.tokenAsString == digits && t.afterWord == after
  }

  lemma {:induction false} DigitRunShift(x: string, y: string, j: nat)
    requires j <= |y|
    ensures DigitRunEnd(x + y, |x| + j) == |x| + DigitRunEnd(y, j)
    decreases |y| - j
  {
    if j < |y| {
      assert (x + y)[|x| + j] == y[j];
      if IsAsciiDigit(y[j]) {
        DigitRunShift(x, y, j + 1);
      }
    }
  }

  lemma {:induction false} TextRunShift(x: string, y: string, j: nat)
    requires j <= |y|
    ensures TextRunEnd(x + y, |x| + j) == |x| + TextRunEnd(y, j)
    decreases |y| - j
  {
    if j < |y| {
      assert (x + y)[|x| + j] == y[j];
      if !IsAsciiDigit(y[j]) {
        TextRunShift(x, y, j + 1);
      }
    }
  }

  /** The groups found from `|x| + j` in `x + y` are those found from `j` in `y`. */
  lemma ShiftRaw(x: string, y: string, j: nat)
    requires j <= |y| && (j == |y| || IsAsciiDigit(y[j]))
    ensures |x| + j == |x + y| || IsAsciiDigit((x + y)[|x| + j])
    ensures RawFrom(x + y, |x| + j) == RawFrom(y, j)
  {
    ShiftRawIn(x + y, x, y, j);
  }

  lemma {:induction false} ShiftRawIn(s: string, x: string, y: string, j: nat)
    requires s == x + y && j <= |y| && (j == |y| || IsAsciiDigit(y[j]))
    ensures |x| + j == |s| || IsAsciiDigit(s[|x| + j])
    ensures RawFrom(s, |x| + j) == RawFrom(y, j)
    decreases |y| - j
  {
    if j < |y| {
      var e := DigitRunEnd(y, j);
      var k := TextRunEnd(y, e);
      ShiftedGroupIn(s, x, y, j);
      ShiftRawIn(s, x, y, k);
      RawFromAt(y, j, e, k);
    }
  }

  /** One step of ShiftRawIn: the group at `|x| + j` in `s == x + y` is the group
      at `j` in `y`, and the next group starts at the shifted position. */
  lemma ShiftedGroupIn(s: string, x: string, y: string, j: nat)
    requires s == x + y && j < |y| && IsAsciiDigit(y[j])
    ensures var e := DigitRunEnd(y, j); var k := TextRunEnd(y, e);
      IsAsciiDigit(s[|x| + j])
      && RawFrom(s, |x| + j) == [(y[j..e], y[e..k])] + RawFrom(s, |x| + k)
  {
    var e := DigitRunEnd(y, j);
    var k := TextRunEnd(y, e);
    var i0, e0, k0 := |x| + j, |x| + e, |x| + k;
    assert s[i0] == y[j];
    assert DigitRunEnd(s, i0) == e0 by {
      DigitRunShift(x, y, j);
    }
    assert TextRunEnd(s, e0) == k0 by {
      TextRunShift(x, y, e);
    }
    SliceShift(s, x, y, j, e);
    SliceShift(s, x, y, e, k);
    RawFromAt(s, i0, e0, k0);
    assert (s[i0..e0], s[e0..k0]) == (y[j..e], y[e..k]);
  }

  /** A slice of `y` is the same slice of `x + y`, shifted by `|x|`. */
  lemma SliceShift(s: string, x: string, y: string, a: nat, b: nat)
    requires s == x + y && a <= b <= |y|
    ensures s[|x| + a..|x| + b] == y[a..b]
  {
  }

  /** A text that opens with the digit run `a` and the digit-free text `p`: its
      first token is that pair and the rest are the tokens of what follows. */
  lemma LeadingRun(a: string, p: string, rest: string)
    requires |a| > 0 && AllDigits(a) && NoDigit(p)
    requires |p| > 0 || |rest| == 0
    requires |rest| == 0 || IsAsciiDigit(rest[0])
    ensures RawTokens(a + p + rest) == [(a, p)] + RawTokens(rest)
  {
    LeadingGroups(a + p + rest, a, p, rest);
    assert a + p + rest == (a + p) + rest;
    ShiftRaw(a + p, rest, 0);
  }

  /** The first group of `s`, which is `a p rest`. */
  lemma LeadingGroups(s: string, a: string, p: string, rest: string)
    requires s == a + p + rest
    requires |a| > 0 && AllDigits(a) && NoDigit(p)
    requires |p| > 0 || |rest| == 0
    requires |rest| == 0 || IsAsciiDigit(rest[0])
    ensures RawTokens(s) == [(a, p)] + RawFrom(s, |a| + |p|)
  {
    assert RawTokens(s) == RawFrom(s, 0) by {
      assert s[0] == a[0];
      StartsWithDigit(s);
    }
    GroupAtStart(s, a, p, rest, 0);
  }

  /** The first group of `a p rest`; `from` is the start of the text. */
  lemma GroupAtStart(s: string, a: string, p: string, rest: string, from: nat)
    requires s == a + p + rest && from == 0
    requires |a| > 0 && AllDigits(a) && NoDigit(p)
    requires |p| > 0 || |rest| == 0
    requires |rest| == 0 || IsAsciiDigit(rest[0])
    ensures RawFrom(s, from) == [(a, p)] + RawFrom(s, from + |a| + |p|)
  {
    var n := from + |a| + |p|;
    assert s[from..from + |a|] == a;
    assert s[from + |a|..n] == p;
    assert n == |s| || s[n] == rest[0];
    RawFromStep(s, from, a, p);
  }

  /** A text that starts with a digit skips nothing before its first group. */
  lemma StartsWithDigit(s: string)
    requires |s| > 0 && IsAsciiDigit(s[0])
    ensures RawTokens(s) == RawFrom(s, 0)
  {
    assert TextRunEnd(s, 0) == 0;
  }

  /** `a p b`: two digit runs of at most nine digits around digit-free text are
      two tokens, the first followed by `p`. */
  lemma TwoRunTokens(a: string, p: string, b: string)
    requires AllDigits(a) && 0 < |a| <= 9 && AllDigits(b) && 0 < |b| <= 9
    requires |p| > 0 && NoDigit(p)
    ensures var r := Tokens(a + p + b);
      r.Some? && |r.value| == 2 && RunToken(r.value[0], a, p) && RunToken(r.value[1], b, "")
  {
    LeadingRun(b, "", "");
    assert b + "" + "" == b;
    LeadingRun(a, p, b);
    assert RawTokens("") == [];
    ShortDigitsParse(a);
    ShortDigitsParse(b);
  }

  /** `a p b q c`: three digit runs of at most nine digits separated by
      digit-free text are three tokens. */
  lemma ThreeRunTokens(a: string, p: string, b: string, q: string, c: string)
    requires AllDigits(a) && 0 < |a| <= 9 && AllDigits(b) && 0 < |b| <= 9 && AllDigits(c) && 0 < |c| <= 9
    requires |p| > 0 && NoDigit(p) && |q| > 0 && NoDigit(q)
    ensures var r := Tokens(a + p + b + q + c);
      r.Some? && |r.value| == 3
      && RunToken(r.value[0], a, p) && RunToken(r.value[1], b, q) && RunToken(r.value[2], c, "")
  {
    ThreeGroups(a + p + b + q + c, a, p, b, q, c);
    ShortDigitsParse(a);
    ShortDigitsParse(b);
    ShortDigitsParse(c);
  }

  lemma ThreeGroups(s: string, a: string, p: string, b: string, q: string, c: string)
    requires s == a + p + b + q + c
    requires AllDigits(a) && 0 < |a| && AllDigits(b) && 0 < |b| && AllDigits(c) && 0 < |c|
    requires |p| > 0 && NoDigit(p) && |q| > 0 && NoDigit(q)
    ensures RawTokens(s) == [(a, p), (b, q), (c, "")]
  {
    assert RawTokens(c) == [(c, "")] by {
      LeadingRun(c, "", "");
      assert c + "" + "" == c;
      assert RawTokens("") == [];
    }
    assert RawTokens(b + q + c) == [(b, q), (c, "")] by {
      LeadingRun(b, q, c);
    }
    assert s == a + p + (b + q + c);
    LeadingRun(a, p, b + q + c);
  }

  /** There are no tokens exactly when the text has no ASCII digit. */
  lemma NoTokensIffNoDigit(s: string)
    ensures |RawTokens(s)| == 0 <==> NoDigit(s)
  {
    var p := TextRunEnd(s, 0);
    if p < |s| {
      assert IsAsciiDigit(s[p]);
    } else {
      assert s[..p] == s;
    }
  }
}
