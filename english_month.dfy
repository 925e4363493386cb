/** The date parser: an English month name written as a whole word
    becomes its two-digit number, and the digits around its first occurrence are
    counted so that the later stages can tell which digits belong to the year. */
module EnglishMonth {
  import opened Wrappers
  import opened JavaText

  /** `englishMonthDictionary`, in insertion order: the full names, then the
      three-letter abbreviations (there is none for May). */
  const Dictionary: seq<(string, string)> := FullNames + Abbreviations

  const FullNames: seq<(string, string)> := [
    ("january", "01"), ("february", "02"), ("march", "03"), ("april", "04"),
    ("may", "05"), ("june", "06"), ("july", "07"), ("august", "08"),
    ("september", "09"), ("october", "10"), ("november", "11"), ("december", "12")]

  const Abbreviations: seq<(string, string)> := [
    ("jan", "01"), ("feb", "02"), ("mar", "03"), ("apr", "04"), ("jun", "06"), ("jul", "07"),
    ("aug", "08"), ("sep", "09"), ("oct", "10"), ("nov", "11"), ("dec", "12")]

  /** `EnglishMonthInfo`, returned as a value rather than filled in through an argument. */
  datatype EnglishMonthInfo = EnglishMonthInfo(
    hasEnglishMonth: bool, month: string, numberCountBeforeMonth: int, numberCountAfterMonth: int)

  /** The state `EnglishMonthInfo.init(info, false, "", 0, 0)` sets before the search. */
  const Init := EnglishMonthInfo(false, "", 0, 0)

  predicate IsLowerLetter(c: char) { 'a' <= c <= 'z' }

  /** The regular expression `(?<![a-z])key(?![a-z])` matches at `i`: the key occurs
      there and no lower-case ASCII letter touches it on either side. */
  predicate IsWordAt(s: string, k: string, i: int) {
    OccursAt(s, k, i)
    && (i == 0 || !IsLowerLetter(s[i - 1]))
    && (i + |k| == |s| || !IsLowerLetter(s[i + |k|]))
  }

  /** `Matcher.find` from position `from`: the first match at or after it. */
  function FindWord(s: string, k: string, from: nat): (r: Option<nat>)
    requires from <= |s|
    ensures r.Some? ==> from <= r.value && IsWordAt(s, k, r.value)
    ensures r.Some? ==> forall j | from <= j < r.value :: !IsWordAt(s, k, j)
    ensures r.None? ==> forall j | from <= j :: !IsWordAt(s, k, j)
    decreases |s| - from
  {
    if IsWordAt(s, k, from) then Some(from)
    else if from == |s| then None
    else FindWord(s, k, from + 1)
  }

  /** `String.replaceAll(regex, rep)` from position `from`: each match found, left to
      right and without overlap, is replaced by `rep`. */
  function ReplaceWords(s: string, k: string, rep: string, from: nat): string
    requires |k| > 0 && from <= |s|
    decreases |s| - from
  {
    match FindWord(s, k, from)
    case None => s[from..]
    case Some(i) => s[from..i] + rep + ReplaceWords(s, k, rep, i + |k|)
  }

  /** `t.replaceAll("[^0-9]", "").length()`: the number of ASCII digits in `t`. */
  function CountDigits(t: string): (n: nat)
    ensures n <= |t|
    ensures n == |t| <==> AllDigits(t)
  {
    if |t| == 0 then 0 else CountDigits(t[..|t| - 1]) + (if IsAsciiDigit(t[|t| - 1]) then 1 else 0)
  }

  predicate HasWord(s: string, k: string) {
    FindWord(s, k, 0).Some?
  }

  /** The first dictionary entry at or after `j` whose key occurs as a whole word. */
  function FirstEntry(s: string, j: nat): (r: Option<nat>)
    requires j <= |Dictionary|
    ensures r.Some? ==> j <= r.value < |Dictionary| && HasWord(s, Dictionary[r.value].0)
    ensures r.Some? ==> forall m | j <= m < r.value :: !HasWord(s, Dictionary[m].0)
    ensures r.None? ==> forall m | j <= m < |Dictionary| :: !HasWord(s, Dictionary[m].0)
    decreases |Dictionary| - j
  {
    if j == |Dictionary| then None
    else if HasWord(s, Dictionary[j].0) then Some(j)
    else FirstEntry(s, j + 1)
  }

  lemma KeysNonEmpty()
    ensures forall j | 0 <= j < |Dictionary| :: |Dictionary[j].0| >= 3
  {
    forall j | 0 <= j < |Dictionary| ensures |Dictionary[j].0| >= 3 {
      if j < |FullNames| {
        assert Dictionary[j] == FullNames[j];
      } else {
        assert Dictionary[j] == Abbreviations[j - |FullNames|];
      }
    }
  }

  /** What `ReplaceEnglishMonthToNumber` computes for the dictionary key `k` that
      matched, with month number `m`: the text with every match replaced by `m`,
      and the information about the first match. */
  function Apply(s: string, k: string, m: string): (string, EnglishMonthInfo)
    requires |k| > 0 && HasWord(s, k)
  {
    (ReplaceWords(s, k, m, 0), MatchInfo(s, k, m, FindWord(s, k, 0).value))
  }

  /** The digit counts before the match at `i0` and between it and the next match
      (or the end), which are the first two pieces `Pattern.split(src, -1)` returns. */
  function MatchInfo(s: string, k: string, m: string, i0: nat): EnglishMonthInfo
    requires |k| > 0 && IsWordAt(s, k, i0)
  {
    var next := FindWord(s, k, i0 + |k|);
    var end := if next.Some? then next.value else |s|;
    EnglishMonthInfo(true, m, CountDigits(s[..i0]), CountDigits(s[i0 + |k|..end]))
  }

  /** The result of `ReplaceEnglishMonthToNumber`: the first entry that matches wins. */
  function Spec(s: string): (string, EnglishMonthInfo) {
    match FirstEntry(s, 0)
    case None => (s, Init)
    case Some(j) => KeysNonEmpty(); Apply(s, Dictionary[j].0, Dictionary[j].1)
  }

  /** `ReplaceEnglishMonthToNumber`: try each dictionary entry in order and stop at
      the first one whose key occurs as a whole word. */
  method ReplaceEnglishMonthToNumber(src: string) returns (r: string, info: EnglishMonthInfo)
    ensures (r, info) == Spec(src)
  {
    var j := 0;
    while j < |Dictionary|
      invariant 0 <= j <= |Dictionary|
      invariant FirstEntry(src, 0) == FirstEntry(src, j)
    {
      var found := FindWord(src, Dictionary[j].0, 0);
      if found.Some? {
        KeysNonEmpty();
        var applied := Apply(src, Dictionary[j].0, Dictionary[j].1);
        r, info := applied.0, applied.1;
        SpecAtFirst(src, j);
        return;
      }
      FirstEntrySkip(src, j);
      j := j + 1;
    }
    r, info := src, Init;
  }

  /** `Apply` in terms of where the key matched first and where the next match (or
      the end of the text) lies. */
  lemma ApplyUnfolded(src: string, k: string, m: string, i0: nat)
    requires |k| > 0 && FindWord(src, k, 0) == Some(i0)
    requires FindWord(src, k, i0 + |k|).None?
    ensures Apply(src, k, m) ==
      (ReplaceWords(src, k, m, 0), EnglishMonthInfo(true, m, CountDigits(src[..i0]), CountDigits(src[i0 + |k|..|src|])))
  {
  }

  lemma FirstEntrySkip(src: string, j: nat)
    requires j < |Dictionary| && !HasWord(src, Dictionary[j].0)
    ensures FirstEntry(src, j) == FirstEntry(src, j + 1)
  {
  }

  lemma SpecAtFirst(src: string, j: nat)
    requires j < |Dictionary| && FirstEntry(src, 0) == FirstEntry(src, j)
    requires HasWord(src, Dictionary[j].0)
    ensures |Dictionary[j].0| > 0 && Spec(src) == Apply(src, Dictionary[j].0, Dictionary[j].1)
  {
    KeysNonEmpty();
  }

  // ---------------------------------------------------------------- properties

  /** Nothing matches: the text is returned unchanged and the information keeps its
      initial state; something matches exactly when some key occurs as a whole word. */
  lemma NoMonthMeansUnchanged(s: string)
    ensures Spec(s).1.hasEnglishMonth <==> exists j | 0 <= j < |Dictionary| :: HasWord(s, Dictionary[j].0)
    ensures !Spec(s).1.hasEnglishMonth ==> Spec(s) == (s, Init)
  {
    match FirstEntry(s, 0)
    case None =>
    case Some(j) =>
  }

  /** The first dictionary entry that occurs as a whole word decides the month, even
      when a later entry also occurs. */
  lemma FirstEntryWins(s: string, j: nat)
    requires j < |Dictionary| && HasWord(s, Dictionary[j].0)
    requires forall m | 0 <= m < j :: !HasWord(s, Dictionary[m].0)
    ensures Spec(s).1.hasEnglishMonth && Spec(s).1.month == Dictionary[j].1
  {
    FirstEntryIs(s, j);
  }

  lemma FirstEntryIs(s: string, j: nat)
    requires j < |Dictionary| && HasWord(s, Dictionary[j].0)
    requires forall m | 0 <= m < j :: !HasWord(s, Dictionary[m].0)
    ensures FirstEntry(s, 0) == Some(j)
  {
    var r := FirstEntry(s, 0);
    assert r.Some? && r.value == j;
  }

  predicate NoLetters(t: string) { forall i | 0 <= i < |t| :: !IsLowerLetter(t[i]) }

  predicate AllLetters(t: string) { forall i | 0 <= i < |t| :: IsLowerLetter(t[i]) }

  lemma FullNamesAreWords()
    ensures forall j | 0 <= j < |FullNames| :: |FullNames[j].0| > 0 && AllLetters(FullNames[j].0)
  {
  }

  lemma AbbreviationsAreWords()
    ensures forall j | 0 <= j < |Abbreviations| :: |Abbreviations[j].0| > 0 && AllLetters(Abbreviations[j].0)
  {
  }

  /** Every key is a non-empty run of lower-case letters. */
  lemma KeysAreWords()
    ensures forall j | 0 <= j < |Dictionary| :: |Dictionary[j].0| > 0 && AllLetters(Dictionary[j].0)
  {
    FullNamesAreWords();
    AbbreviationsAreWords();
    forall j | 0 <= j < |Dictionary| ensures |Dictionary[j].0| > 0 && AllLetters(Dictionary[j].0) {
      if j < |FullNames| {
        assert Dictionary[j] == FullNames[j];
      } else {
        assert Dictionary[j] == Abbreviations[j - |FullNames|];
      }
    }
  }

  lemma KeyIsWord(j: nat)
    requires j < |Dictionary|
    ensures |Dictionary[j].0| > 0 && AllLetters(Dictionary[j].0)
  {
    KeysAreWords();
  }

  /** In a text whose only letters form the run `w`, a run of letters matches as a
      whole word only as `w` itself, at the start of that run. */
  lemma {:induction false} WordInSoleRun(p: string, w: string, q: string, k: string, i: int)
    requires NoLetters(p) && NoLetters(q) && AllLetters(w) && AllLetters(k) && |k| > 0
    requires IsWordAt(p + w + q, k, i)
    ensures i == |p| && k == w
  {
    var s := p + w + q;
    assert s[i] == k[0];
    assert s[i + |k| - 1] == k[|k| - 1];
    if i < |p| || i + |k| - 1 >= |p| + |w| || i > |p| || i + |k| < |p| + |w| {
      assert false;
    }
    assert s[|p|..|p| + |w|] == w;
  }

  /** Any other word is absent from a text whose only letters form `w`. */
  lemma OtherWordAbsent(p: string, w: string, q: string, k: string)
    requires NoLetters(p) && NoLetters(q) && AllLetters(w) && AllLetters(k) && |k| > 0 && k != w
    ensures !HasWord(p + w + q, k)
  {
    var f := FindWord(p + w + q, k, 0);
    if f.Some? {
      WordInSoleRun(p, w, q, k, f.value);
    }
  }

  lemma SoleRunIsWord(p: string, w: string, q: string)
    requires NoLetters(p) && NoLetters(q) && AllLetters(w) && |w| > 0
    ensures IsWordAt(p + w + q, w, |p|)
  {
    var s := p + w + q;
    assert s[|p|..|p| + |w|] == w;
    if |p| > 0 {
      assert s[|p| - 1] == p[|p| - 1];
    }
    if |q| > 0 {
      assert s[|p| + |w|] == q[0];
    }
  }

  /** A text whose only letters are one word that is not a key (a misspelt or
      contaminated month name, say) passes through unchanged with no month. */
  lemma UnknownWordUnchanged(p: string, w: string, q: string)
    requires NoLetters(p) && NoLetters(q) && AllLetters(w)
    requires forall j | 0 <= j < |Dictionary| :: Dictionary[j].0 != w
    ensures Spec(p + w + q) == (p + w + q, Init)
  {
    var s := p + w + q;
    KeysAreWords();
    forall j | 0 <= j < |Dictionary| ensures !HasWord(s, Dictionary[j].0) {
      OtherWordAbsent(p, w, q, Dictionary[j].0);
    }
    NoMonthMeansUnchanged(s);
  }

  /** A text without lower-case letters names no month and is left as it is. */
  lemma NoLettersUnchanged(s: string)
    requires NoLetters(s)
    ensures Spec(s) == (s, Init)
  {
    KeysAreWords();
    UnknownWordUnchanged(s, "", "");
    assert s + "" + "" == s;
  }

  /** A text whose only letters are the key of entry `j` (the first entry with that
      key): the key becomes the month number and the digits on each side are counted. */
  lemma KnownWordReplaced(p: string, w: string, q: string, j: nat)
    requires NoLetters(p) && NoLetters(q)
    requires j < |Dictionary| && Dictionary[j].0 == w
    requires forall m | 0 <= m < j :: Dictionary[m].0 != w
    ensures Spec(p + w + q) ==
      (p + Dictionary[j].1 + q, EnglishMonthInfo(true, Dictionary[j].1, CountDigits(p), CountDigits(q)))
  {
    KeyIsWord(j);
    FirstIsKnownWord(p, w, q, j);
    SpecAtFirst(p + w + q, j);
    ApplySoleWord(p, w, q, Dictionary[j].1);
  }

  lemma ApplySoleWord(p: string, w: string, q: string, rep: string)
    requires NoLetters(p) && NoLetters(q) && AllLetters(w) && |w| > 0
    ensures HasWord(p + w + q, w)
    ensures Apply(p + w + q, w, rep) == (p + rep + q, EnglishMonthInfo(true, rep, CountDigits(p), CountDigits(q)))
  {
    SoleWordMatches(p, w, q);
    ReplaceSoleWord(p, w, q, rep);
    ApplyAt(p, w, q, rep);
  }

  lemma ApplyAt(p: string, w: string, q: string, rep: string)
    requires |w| > 0
    requires FindWord(p + w + q, w, 0) == Some(|p|) && FindWord(p + w + q, w, |p| + |w|) == None
    requires ReplaceWords(p + w + q, w, rep, 0) == p + rep + q
    ensures Apply(p + w + q, w, rep) == (p + rep + q, EnglishMonthInfo(true, rep, CountDigits(p), CountDigits(q)))
  {
    SoleRunSlices(p, w, q);
    ApplyUnfolded(p + w + q, w, rep, |p|);
  }

  lemma SoleRunSlices(p: string, w: string, q: string)
    ensures var s := p + w + q;
      s[..|p|] == p && s[|p| + |w|..|s|] == q
  {
  }

  lemma FirstIsKnownWord(p: string, w: string, q: string, j: nat)
    requires NoLetters(p) && NoLetters(q)
    requires j < |Dictionary| && Dictionary[j].0 == w
    requires forall m | 0 <= m < j :: Dictionary[m].0 != w
    ensures FirstEntry(p + w + q, 0) == Some(j)
  {
    var s := p + w + q;
    KeyIsWord(j);
    SoleRunIsWord(p, w, q);
    EarlierKeysAbsent(p, w, q, j);
    FirstEntryIs(s, j);
  }

  lemma EarlierKeysAbsent(p: string, w: string, q: string, j: nat)
    requires NoLetters(p) && NoLetters(q) && AllLetters(w)
    requires j <= |Dictionary|
    requires forall m | 0 <= m < j :: Dictionary[m].0 != w
    ensures forall m | 0 <= m < j :: !HasWord(p + w + q, Dictionary[m].0)
  {
    forall m | 0 <= m < j ensures !HasWord(p + w + q, Dictionary[m].0) {
      KeyIsWord(m);
      OtherWordAbsent(p, w, q, Dictionary[m].0);
    }
  }

  lemma SoleWordMatches(p: string, w: string, q: string)
    requires NoLetters(p) && NoLetters(q) && AllLetters(w) && |w| > 0
    ensures FindWord(p + w + q, w, 0) == Some(|p|)
    ensures FindWord(p + w + q, w, |p| + |w|) == None
  {
    var s := p + w + q;
    SoleRunIsWord(p, w, q);
    var f := FindWord(s, w, 0);
    if f.Some? {
      WordInSoleRun(p, w, q, w, f.value);
    }
    var next := FindWord(s, w, |p| + |w|);
    if next.Some? {
      WordInSoleRun(p, w, q, w, next.value);
    }
  }

  lemma ReplaceSoleWord(p: string, w: string, q: string, rep: string)
    requires NoLetters(p) && NoLetters(q) && AllLetters(w) && |w| > 0
    ensures ReplaceWords(p + w + q, w, rep, 0) == p + rep + q
  {
    var s := p + w + q;
    SoleWordMatches(p, w, q);
    assert ReplaceWords(s, w, rep, |p| + |w|) == s[|p| + |w|..];
    assert s[|p| + |w|..] == q;
    assert s[0..|p|] == p;
  }

  /** Every month number is a pair of digits, with no letter in it. */
  lemma NumbersHaveNoLetters(j: nat)
    requires j < |Dictionary|
    ensures NoLetters(Dictionary[j].1)
  {
    if j < |FullNames| {
      assert Dictionary[j] == FullNames[j];
    } else {
      assert Dictionary[j] == Abbreviations[j - |FullNames|];
    }
  }

  /** The month that was found no longer occurs as a whole word in the result:
      every match was replaced, and the digits put in its place cannot make a new
      match of a word made of letters. */
  lemma MonthWordGone(s: string)
    requires FirstEntry(s, 0).Some?
    ensures var k := Dictionary[FirstEntry(s, 0).value].0;
      forall t :: !IsWordAt(Spec(s).0, k, t)
  {
    var j := FirstEntry(s, 0).value;
    KeyIsWord(j);
    NumbersHaveNoLetters(j);
    ReplacedWordGone(s, Dictionary[j].0, Dictionary[j].1, 0);
  }

  /** `ReplaceWords` from `from` leaves no whole-word occurrence of the key, when
      the key is made of letters, the replacement has none, and `from` does not
      fall inside a run of letters. */
  lemma {:induction false} ReplacedWordGone(s: string, k: string, rep: string, from: nat)
    requires |k| > 0 && AllLetters(k) && NoLetters(rep) && from <= |s|
    requires from == 0 || from == |s| || !IsLowerLetter(s[from])
    ensures forall t :: !IsWordAt(ReplaceWords(s, k, rep, from), k, t)
    decreases |s| - from
  {
    match FindWord(s, k, from)
    case None =>
      SegmentHasNoWord(s, k, from, |s|);
      assert s[from..] == s[from..|s|];
    case Some(i) =>
      assert IsWordAt(s, k, i);
      var a, b := s[from..i], ReplaceWords(s, k, rep, i + |k|);
      assert forall t :: !IsWordAt(a, k, t) by {
        SegmentHasNoWord(s, k, from, i);
      }
      assert forall t :: !IsWordAt(b, k, t) by {
        ReplacedWordGone(s, k, rep, i + |k|);
      }
      NoWordInJoin(a, rep, b, k);
      ReplaceAt(s, k, rep, from);
  }

  /** One step of `ReplaceWords`: the text up to the match, then the replacement. */
  lemma ReplaceAt(s: string, k: string, rep: string, from: nat)
    requires |k| > 0 && from <= |s| && FindWord(s, k, from).Some?
    ensures var i := FindWord(s, k, from).value;
      i + |k| <= |s| && ReplaceWords(s, k, rep, from) == s[from..i] + rep + ReplaceWords(s, k, rep, i + |k|)
  {
  }

  /** A stretch of the text that holds no match, and whose ends do not cut a run
      of letters, holds no match on its own either. */
  lemma SegmentHasNoWord(s: string, k: string, from: nat, end: nat)
    requires |k| > 0 && AllLetters(k) && from <= end <= |s|
    requires from == 0 || from == |s| || !IsLowerLetter(s[from])
    requires end == |s| || end == from || !IsLowerLetter(s[end - 1])
    requires forall j | from <= j < end :: !IsWordAt(s, k, j)
    ensures forall t :: !IsWordAt(s[from..end], k, t)
  {
    forall t | IsWordAt(s[from..end], k, t) ensures false {
      WordInSegment(s, k, from, end, t);
      assert false;
    }
  }

  /** A match in a stretch that does not cut a run of letters is a match in the text. */
  lemma WordInSegment(s: string, k: string, from: nat, end: nat, t: int)
    requires |k| > 0 && AllLetters(k) && from <= end <= |s|
    requires from == 0 || from == |s| || !IsLowerLetter(s[from])
    requires end == |s| || end == from || !IsLowerLetter(s[end - 1])
    requires IsWordAt(s[from..end], k, t)
    ensures from <= from + t < end && IsWordAt(s, k, from + t)
  {
    var a := s[from..end];
    assert a[t] == k[0] && a[t + |k| - 1] == k[|k| - 1];
    forall n | t <= n < t + |k| ensures a[n] == s[from + n] {
    }
    assert a[t..t + |k|] == s[from + t..from + t + |k|];
    if t + |k| < |a| {
      assert a[t + |k|] == s[from + t + |k|];
    }
    if t > 0 {
      assert a[t - 1] == s[from + t - 1];
    }
  }

  /** Joining two stretches without a match through a replacement without letters
      makes no match, when the first stretch does not end in a letter. */
  lemma NoWordInJoin(a: string, rep: string, b: string, k: string)
    requires |k| > 0 && AllLetters(k) && NoLetters(rep)
    requires |a| == 0 || !IsLowerLetter(a[|a| - 1])
    requires forall t :: !IsWordAt(a, k, t)
    requires forall t :: !IsWordAt(b, k, t)
    ensures forall t :: !IsWordAt(a + rep + b, k, t)
  {
    forall t | IsWordAt(a + rep + b, k, t) ensures false {
      if t < |a| {
        WordInJoinLeft(a, rep, b, k, t);
      } else {
        WordInJoinRight(a, rep, b, k, t);
      }
      assert false;
    }
  }

  /** A match that starts in the first stretch lies inside it. */
  lemma WordInJoinLeft(a: string, rep: string, b: string, k: string, t: int)
    requires |k| > 0 && AllLetters(k) && NoLetters(rep)
    requires |a| == 0 || !IsLowerLetter(a[|a| - 1])
    requires IsWordAt(a + rep + b, k, t) && t < |a|
    ensures IsWordAt(a, k, t)
  {
    var o := a + rep + b;
    if t + |k| >= |a| {
      LetterInOccurrence(o, k, t, |a| - 1);
      assert false;
    }
    assert o[t..t + |k|] == k;
    assert a[t..t + |k|] == o[t..t + |k|];
    assert a[t + |k|] == o[t + |k|];
    if t > 0 {
      assert a[t - 1] == o[t - 1];
    }
  }

  /** A match that starts after the first stretch lies inside the second. */
  lemma WordInJoinRight(a: string, rep: string, b: string, k: string, t: int)
    requires |k| > 0 && AllLetters(k) && NoLetters(rep)
    requires IsWordAt(a + rep + b, k, t) && t >= |a|
    ensures t >= |a| + |rep| && IsWordAt(b, k, t - |a| - |rep|)
  {
    var o := a + rep + b;
    if t < |a| + |rep| {
      LetterInOccurrence(o, k, t, t);
      assert false;
    }
    assert o[t..t + |k|] == k;
    var u := t - |a| - |rep|;
    assert b[u..u + |k|] == o[t..t + |k|];
    if u > 0 {
      assert b[u - 1] == o[t - 1];
    }
    if u + |k| < |b| {
      assert b[u + |k|] == o[t + |k|];
    }
  }

  /** Inside an occurrence of a key made of letters every character is a letter. */
  lemma LetterInOccurrence(s: string, k: string, t: int, n: int)
    requires AllLetters(k) && OccursAt(s, k, t) && t <= n < t + |k|
    ensures IsLowerLetter(s[n])
  {
    assert s[n] == s[t..t + |k|][n - t];
  }

  /** A text `p + w + m + w + q` whose only letters are the two runs `w`, kept
      apart by a non-empty `m`. */
  predicate TwoRuns(p: string, w: string, m: string, q: string) {
    NoLetters(p) && NoLetters(m) && NoLetters(q) && |m| > 0 && AllLetters(w) && |w| > 0
  }

  /** A text whose only letters are two runs `w` apart: a run of letters matches
      as a whole word only as `w`, at the start of one of the two runs. */
  lemma WordInTwoRuns(p: string, w: string, m: string, q: string, k: string, i: int)
    requires TwoRuns(p, w, m, q) && AllLetters(k) && |k| > 0
    requires IsWordAt(p + w + m + w + q, k, i)
    ensures k == w && (i == |p| || i == |p| + |w| + |m|)
  {
    var x, y := p + w + m, w + q;
    assert p + w + m + w + q == x + "" + y;
    if i < |x| {
      WordInJoinLeft(x, "", y, k, i);
      WordInSoleRun(p, w, m, k, i);
    } else {
      WordInJoinRight(x, "", y, k, i);
      assert "" + w + q == y;
      WordInSoleRun("", w, q, k, i - |x|);
    }
  }

  /** A word between two characters that are not letters is a whole word. */
  lemma WordBetween(l: string, w: string, r: string)
    requires AllLetters(w) && |w| > 0
    requires |l| > 0 ==> !IsLowerLetter(l[|l| - 1])
    requires |r| > 0 ==> !IsLowerLetter(r[0])
    ensures IsWordAt(l + w + r, w, |l|)
  {
    var s := l + w + r;
    assert s[|l|..|l| + |w|] == w;
    if |l| > 0 {
      assert s[|l| - 1] == l[|l| - 1];
    }
    if |r| > 0 {
      assert s[|l| + |w|] == r[0];
    }
  }

  /** Both runs of such a text are whole words. */
  lemma TwoRunsAreWords(p: string, w: string, m: string, q: string)
    requires TwoRuns(p, w, m, q)
    ensures IsWordAt(p + w + m + w + q, w, |p|)
    ensures IsWordAt(p + w + m + w + q, w, |p| + |w| + |m|)
  {
    var s := p + w + m + w + q;
    assert s == p + w + (m + w + q);
    assert (m + w + q)[0] == m[0];
    WordBetween(p, w, m + w + q);
    assert s == (p + w + m) + w + q;
    assert (p + w + m)[|p + w + m| - 1] == m[|m| - 1];
    WordBetween(p + w + m, w, q);
  }

  /** A text whose only letters are the key of entry `j` twice, apart: the month is
      found, the digits before the first occurrence are counted, and the digits
      counted after it stop at the second occurrence. */
  lemma TwoMonthWords(p: string, w: string, m: string, q: string, j: nat)
    requires NoLetters(p) && NoLetters(m) && NoLetters(q) && |m| > 0
    requires j < |Dictionary| && Dictionary[j].0 == w
    requires forall n | 0 <= n < j :: Dictionary[n].0 != w
    ensures Spec(p + w + m + w + q).1 == EnglishMonthInfo(true, Dictionary[j].1, CountDigits(p), CountDigits(m))
  {
    var s := p + w + m + w + q;
    var num := Dictionary[j].1;
    KeyIsWord(j);
    FirstWordFound(p, w, m, q);
    forall n | 0 <= n < j ensures !HasWord(s, Dictionary[n].0) {
      KeyIsWord(n);
      var f := FindWord(s, Dictionary[n].0, 0);
      if f.Some? {
        WordInTwoRuns(p, w, m, q, Dictionary[n].0, f.value);
      }
    }
    FirstEntryIs(s, j);
    SpecAtFirst(s, j);
    TwoWordsInfo(p, w, m, q, num);
  }

  /** Where `FindWord` stops in such a text: at the first run from the start, ... */
  lemma FirstWordFound(p: string, w: string, m: string, q: string)
    requires TwoRuns(p, w, m, q)
    ensures FindWord(p + w + m + w + q, w, 0) == Some(|p|)
  {
    var s := p + w + m + w + q;
    TwoRunsAreWords(p, w, m, q);
    var f := FindWord(s, w, 0);
    assert f.Some? by {
      assert IsWordAt(s, w, |p|);
    }
    WordInTwoRuns(p, w, m, q, w, f.value);
  }

  /** ... and at the second from the end of the first. */
  lemma SecondWordFound(p: string, w: string, m: string, q: string)
    requires TwoRuns(p, w, m, q)
    ensures FindWord(p + w + m + w + q, w, |p| + |w|) == Some(|p| + |w| + |m|)
  {
    var s := p + w + m + w + q;
    TwoRunsAreWords(p, w, m, q);
    var f := FindWord(s, w, |p| + |w|);
    assert f.Some? by {
      assert IsWordAt(s, w, |p| + |w| + |m|);
    }
    WordInTwoRuns(p, w, m, q, w, f.value);
  }

  lemma TwoWordsInfo(p: string, w: string, m: string, q: string, rep: string)
    requires TwoRuns(p, w, m, q)
    ensures IsWordAt(p + w + m + w + q, w, |p|)
    ensures MatchInfo(p + w + m + w + q, w, rep, |p|) == EnglishMonthInfo(true, rep, CountDigits(p), CountDigits(m))
  {
    var s, i1 := p + w + m + w + q, |p| + |w| + |m|;
    assert |w| > 0 && IsWordAt(s, w, |p|) by {
      TwoRunsAreWords(p, w, m, q);
    }
    assert FindWord(s, w, |p| + |w|) == Some(i1) by {
      SecondWordFound(p, w, m, q);
    }
    assert s[..|p|] == p && s[|p| + |w|..i1] == m by {
      TwoRunsSlices(p, w, m, q);
    }
    MatchInfoBetween(s, w, rep, |p|, i1, p, m);
  }

  /** `MatchInfo` when the text before the match is `a` and the next match lies at
      `i1`, with `b` between the two. */
  lemma MatchInfoBetween(s: string, k: string, rep: string, i0: nat, i1: nat, a: string, b: string)
    requires |k| > 0 && IsWordAt(s, k, i0) && FindWord(s, k, i0 + |k|) == Some(i1)
    requires i0 + |k| <= i1 <= |s| && s[..i0] == a && s[i0 + |k|..i1] == b
    ensures MatchInfo(s, k, rep, i0) == EnglishMonthInfo(true, rep, CountDigits(a), CountDigits(b))
  {
  }

  /** The pieces of `p + w + m + w + q` around the two runs. */
  lemma TwoRunsSlices(p: string, w: string, m: string, q: string)
    ensures var s := p + w + m + w + q;
      s[..|p|] == p && s[|p| + |w|..|p| + |w| + |m|] == m
  {
  }

  /** Tests' examples: "2022/january/12" becomes "2022/01/12" with four digits before
      the month and two after; the misspelt "janary" is left alone. */
  lemma JanuaryExample(p: string, w: string, q: string)
    requires p == "2022/" && w == "january" && q == "/12"
    ensures Spec(p + w + q) == (p + "01" + q, EnglishMonthInfo(true, "01", 4, 2))
  {
    JanuaryExampleParts(p, w, q);
    KnownWordReplaced(p, w, q, 0);
  }

  lemma JanuaryExampleParts(p: string, w: string, q: string)
    requires p == "2022/" && w == "january" && q == "/12"
    ensures Dictionary[0] == (w, "01") && NoLetters(p) && NoLetters(q)
    ensures CountDigits(p) == 4 && CountDigits(q) == 2
  {
    assert p[..4] == "2022" && p[..3] == "202" && p[..2] == "20" && p[..1] == "2";
    assert q[..2] == "/1" && q[..1] == "/" && q[..0] == "";
    assert CountDigits(q[..1]) == 0;
    assert CountDigits(q[..2]) == 1;
  }

  /** "jan 2021 - jan 10": the month is January, no digit comes before it, and
      the digits counted after it are the four up to the second "jan", not the
      six up to the end. */
  lemma TwoJanuariesExample(p: string, w: string, m: string, q: string)
    requires p == "" && w == "jan" && m == " " + "2021" + " - " && q == " 10"
    ensures Spec(p + w + m + w + q).1 == EnglishMonthInfo(true, "01", 0, 4)
  {
    TwoJanuariesParts(p, m, q);
    JanIsAbbreviation();
    TwoMonthWords(p, w, m, q, 12);
  }

  lemma TwoJanuariesParts(p: string, m: string, q: string)
    requires p == "" && m == " " + "2021" + " - " && q == " 10"
    ensures NoLetters(p) && NoLetters(m) && NoLetters(q) && |m| > 0
    ensures CountDigits(p) == 0 && CountDigits(m) == 4
  {
    assert AllDigits("2021");
    NoDigitCount(" ");
    NoDigitCount(" - ");
    CountDigitsConcat(" ", "2021");
    CountDigitsConcat(" " + "2021", " - ");
  }

  /** The digits of two texts side by side are counted one text after the other. */
  lemma {:induction false} CountDigitsConcat(a: string, b: string)
    ensures CountDigits(a + b) == CountDigits(a) + CountDigits(b)
    decreases |b|
  {
    if |b| > 0 {
      var b' := b[..|b| - 1];
      assert (a + b)[..|a + b| - 1] == a + b';
      CountDigitsConcat(a, b');
    } else {
      assert a + b == a;
    }
  }

  lemma {:induction false} NoDigitCount(t: string)
    requires forall i | 0 <= i < |t| :: !IsAsciiDigit(t[i])
    ensures CountDigits(t) == 0
  {
    if |t| > 0 {
      NoDigitCount(t[..|t| - 1]);
    }
  }

  /** "jan" is entry 12, the first abbreviation, and no full name is "jan". */
  lemma JanIsAbbreviation()
    ensures Dictionary[12] == ("jan", "01")
    ensures forall n | 0 <= n < 12 :: Dictionary[n].0 != "jan"
  {
    assert Dictionary[12] == Abbreviations[0];
    forall n | 0 <= n < 12 ensures Dictionary[n].0 != "jan" {
      assert Dictionary[n] == FullNames[n];
    }
  }

  lemma MisspeltExamples(p: string, w: string, q: string)
    requires p == "2022/" && q == "/11"
    requires w in {"janary", "jjanuary", "januaryy", "my", "mmay", "mayy"}
    ensures Spec(p + w + q) == (p + w + q, Init)
  {
    forall j | 0 <= j < |Dictionary| ensures Dictionary[j].0 != w {
      if j < |FullNames| {
        assert Dictionary[j] == FullNames[j];
      } else {
        assert Dictionary[j] == Abbreviations[j - |FullNames|];
      }
    }
    UnknownWordUnchanged(p, w, q);
  }
}
