/** The date parser: lower-casing, full-width Latin to ASCII, and the
    ordered replacement table that turns full-width and kanji numerals into ASCII
    digits. */
module DateNormalize {
  import opened JavaText

  // ---------------------------------------------------------------- case and width

  predicate IsAsciiUpper(c: char) { 'A' <= c <= 'Z' }
  predicate IsFullUpper(c: char) { 'Ａ' <= c <= 'Ｚ' }
  predicate IsFullLower(c: char) { 'ａ' <= c <= 'ｚ' }
  predicate IsAsciiLower(c: char) { 'a' <= c <= 'z' }

  /** `Character.toLowerCase` on the letters the parser meets: ASCII A-Z and full-width
      Ａ-Ｚ move to their lower-case forms; every other character is kept. */
  function LowerChar(c: char): (r: char)
    ensures !IsAsciiUpper(r) && !IsFullUpper(r)
    ensures !IsAsciiUpper(c) && !IsFullUpper(c) ==> r == c
    ensures IsAsciiUpper(c) ==> IsAsciiLower(r)
    ensures IsFullUpper(c) ==> IsFullLower(r)
  {
    if IsAsciiUpper(c) || IsFullUpper(c) then (c as int + 32) as char else c
  }

  /** `String.toLowerCase`, character by character. */
  function Lower(s: string): (r: string)
    ensures |r| == |s| && forall i | 0 <= i < |s| :: r[i] == LowerChar(s[i])
  {
    seq(|s|, i requires 0 <= i < |s| => LowerChar(s[i]))
  }

  /** One character of `ToHalfLowerCaseFromFullUpperCaseForAlphabet`: lower-case it,
      then fold full-width ａ-ｚ onto ASCII a-z. */
  function HalfLowerChar(c: char): (r: char)
    ensures !IsAsciiUpper(r) && !IsFullUpper(r) && !IsFullLower(r)
    ensures (IsAsciiUpper(c) || IsFullUpper(c) || IsFullLower(c)) ==> IsAsciiLower(r)
    ensures !(IsAsciiUpper(c) || IsFullUpper(c) || IsFullLower(c)) ==> r == c
  {
    var l := LowerChar(c);
    if IsFullLower(l) then (l as int - 0xFF41 + 0x61) as char else l
  }

  /** The whole-string map that the loop below computes. */
  function HalfLower(s: string): (r: string)
    ensures |r| == |s| && forall i | 0 <= i < |s| :: r[i] == HalfLowerChar(s[i])
  {
    seq(|s|, i requires 0 <= i < |s| => HalfLowerChar(s[i]))
  }

  /** `ToHalfLowerCaseFromFullUpperCaseForAlphabet`: one pass over the lower-cased
      text, appending each character or its ASCII counterpart. */
  method ToHalfLowerCase(src: string) returns (r: string)
    ensures r == HalfLower(src)
    ensures forall i | 0 <= i < |r| :: !IsAsciiUpper(r[i]) && !IsFullUpper(r[i]) && !IsFullLower(r[i])
  {
    var p := Lower(src);
    var sb: string := "";
    for i := 0 to |p|
      invariant sb == HalfLower(src[..i])
    {
      var c := p[i];
      if IsFullLower(c) {
        sb := sb + [(c as int - 0xFF41 + 0x61) as char];
      } else {
        sb := sb + [c];
      }
    }
    assert src[..|p|] == src;
    r := sb;
  }

  // ---------------------------------------------------------------- the replacement table

  /** `halfToFullDictionary`, in insertion order: longer kanji numerals before the
      shorter ones they contain, so 二十一 becomes 21 rather than 2 + 10 + 1. */
  const Table: seq<(string, string)> := FullWidthDigits + AfterFullWidthDigits

  const AfterFullWidthDigits: seq<(string, string)> :=
    Twenties + Thirties + Teens + Units + [("元", "1")] + FullWidthEraLetters

  const FullWidthDigits: seq<(string, string)> := [
    ("０", "0"), ("１", "1"), ("２", "2"), ("３", "3"), ("４", "4"),
    ("５", "5"), ("６", "6"), ("７", "7"), ("８", "8"), ("９", "9")]

  const Twenties: seq<(string, string)> := [
    ("二十一", "21"), ("二十二", "22"), ("二十三", "23"), ("二十四", "24"), ("二十五", "25"),
    ("二十六", "26"), ("二十七", "27"), ("二十八", "28"), ("二十九", "29"), ("二十", "20")]

  const Thirties: seq<(string, string)> := [("三十一", "31"), ("三十", "30")]

  const Teens: seq<(string, string)> := [
    ("十一", "11"), ("十二", "12"), ("十三", "13"), ("十四", "14"), ("十五", "15"),
    ("十六", "16"), ("十七", "17"), ("十八", "18"), ("十九", "19"), ("十", "10")]

  const Units: seq<(string, string)> := [
    ("〇", "0"), ("零", "0"), ("一", "1"), ("二", "2"), ("三", "3"), ("四", "4"),
    ("五", "5"), ("六", "6"), ("七", "7"), ("八", "8"), ("九", "9")]

  /** Full-width era initials: never met, since lower-casing runs first. */
  const FullWidthEraLetters: seq<(string, string)> := [("Ｓ", "S"), ("Ｈ", "H"), ("Ｒ", "R"), ("Ｌ", "L")]

  predicate IsAscii(c: char) { c <= '\U{7F}' }

  predicate AllAscii(s: string) { forall i | 0 <= i < |s| :: IsAscii(s[i]) }

  predicate NoAscii(s: string) { forall i | 0 <= i < |s| :: !IsAscii(s[i]) }

  /** A key that is non-empty and non-ASCII, with a non-empty ASCII replacement. */
  predicate WellShapedEntry(e: (string, string)) {
    |e.0| > 0 && |e.1| > 0 && NoAscii(e.0) && AllAscii(e.1)
  }

  predicate WellShaped(t: seq<(string, string)>) {
    forall j | 0 <= j < |t| :: WellShapedEntry(t[j])
  }

  lemma WellShapedConcat(a: seq<(string, string)>, b: seq<(string, string)>)
    requires WellShaped(a) && WellShaped(b)
    ensures WellShaped(a + b)
  {
    forall j | 0 <= j < |a + b| ensures WellShapedEntry((a + b)[j]) {
      if j < |a| {
        assert (a + b)[j] == a[j];
      } else {
        assert (a + b)[j] == b[j - |a|];
      }
    }
  }

  lemma FullWidthDigitsWellShaped()
    ensures WellShaped(FullWidthDigits)
  {
    assert WellShapedEntry(FullWidthDigits[0]);
    assert WellShapedEntry(FullWidthDigits[1]);
    assert WellShapedEntry(FullWidthDigits[2]);
    assert WellShapedEntry(FullWidthDigits[3]);
    assert WellShapedEntry(FullWidthDigits[4]);
    assert WellShapedEntry(FullWidthDigits[5]);
    assert WellShapedEntry(FullWidthDigits[6]);
    assert WellShapedEntry(FullWidthDigits[7]);
    assert WellShapedEntry(FullWidthDigits[8]);
    assert WellShapedEntry(FullWidthDigits[9]);
  }

  lemma TwentiesWellShaped()
    ensures WellShaped(Twenties)
  {
    assert WellShapedEntry(Twenties[0]);
    assert WellShapedEntry(Twenties[1]);
    assert WellShapedEntry(Twenties[2]);
    assert WellShapedEntry(Twenties[3]);
    assert WellShapedEntry(Twenties[4]);
    assert WellShapedEntry(Twenties[5]);
    assert WellShapedEntry(Twenties[6]);
    assert WellShapedEntry(Twenties[7]);
    assert WellShapedEntry(Twenties[8]);
    assert WellShapedEntry(Twenties[9]);
  }

  lemma ThirtiesWellShaped()
    ensures WellShaped(Thirties)
  {
    assert WellShapedEntry(Thirties[0]);
    assert WellShapedEntry(Thirties[1]);
  }

  lemma TeensWellShaped()
    ensures WellShaped(Teens)
  {
    assert WellShapedEntry(Teens[0]);
    assert WellShapedEntry(Teens[1]);
    assert WellShapedEntry(Teens[2]);
    assert WellShapedEntry(Teens[3]);
    assert WellShapedEntry(Teens[4]);
    assert WellShapedEntry(Teens[5]);
    assert WellShapedEntry(Teens[6]);
    assert WellShapedEntry(Teens[7]);
    assert WellShapedEntry(Teens[8]);
    assert WellShapedEntry(Teens[9]);
  }

  lemma UnitsWellShaped()
    ensures WellShaped(Units)
  {
    assert WellShapedEntry(Units[0]);
    assert WellShapedEntry(Units[1]);
    assert WellShapedEntry(Units[2]);
    assert WellShapedEntry(Units[3]);
    assert WellShapedEntry(Units[4]);
    assert WellShapedEntry(Units[5]);
    assert WellShapedEntry(Units[6]);
    assert WellShapedEntry(Units[7]);
    assert WellShapedEntry(Units[8]);
    assert WellShapedEntry(Units[9]);
    assert WellShapedEntry(Units[10]);
  }

  lemma FullWidthEraLettersWellShaped()
    ensures WellShaped(FullWidthEraLetters)
  {
    assert WellShapedEntry(FullWidthEraLetters[0]);
    assert WellShapedEntry(FullWidthEraLetters[1]);
    assert WellShapedEntry(FullWidthEraLetters[2]);
    assert WellShapedEntry(FullWidthEraLetters[3]);
  }

  lemma TableWellShaped()
    ensures WellShaped(Table)
  {
    FullWidthDigitsWellShaped();
    AfterFullWidthDigitsWellShaped();
    WellShapedConcat(FullWidthDigits, AfterFullWidthDigits);
  }

  lemma AfterFullWidthDigitsWellShaped()
    ensures WellShaped(AfterFullWidthDigits)
  {
    TwentiesWellShaped();
    ThirtiesWellShaped();
    TeensWellShaped();
    UnitsWellShaped();
    FullWidthEraLettersWellShaped();
    assert WellShaped([("元", "1")]) by {
      assert WellShapedEntry(("元", "1"));
    }
    WellShapedConcat(Twenties, Thirties);
    WellShapedConcat(Twenties + Thirties, Teens);
    WellShapedConcat(Twenties + Thirties + Teens, Units);
    WellShapedConcat(Twenties + Thirties + Teens + Units, [("元", "1")]);
    WellShapedConcat(Twenties + Thirties + Teens + Units + [("元", "1")], FullWidthEraLetters);
  }

  /** An ASCII text shares no character with a text that has none. */
  lemma AsciiDisjoint(k: string, rep: string)
    requires NoAscii(k) && AllAscii(rep)
    ensures forall c | c in k :: c !in rep
  {
  }

  /** The table's replacements applied in order: what remains to be done after
      some prefix of the table has already been applied. */
  function ApplyTable(s: string, t: seq<(string, string)>): string
    requires forall j | 0 <= j < |t| :: |t[j].0| > 0
    decreases |t|
  {
    if |t| == 0 then s else ApplyTable(ReplaceAll(s, t[0].0, t[0].1), t[1..])
  }

  /** What `ReplaceFullToHalf` computes. */
  function Normalized(s: string): string {
    TableWellShaped();
    ApplyTable(HalfLower(s), Table)
  }

  /** `ReplaceFullToHalf`: lower-case and fold full-width letters, then run every
      table entry, in order, as a `String.replace`. */
  method ReplaceFullToHalf(src0: string) returns (src: string)
    ensures src == Normalized(src0)
  {
    TableWellShaped();
    src := ToHalfLowerCase(src0);
    for j := 0 to |Table|
      invariant ApplyTable(src, Table[j..]) == ApplyTable(HalfLower(src0), Table)
    {
      assert Table[j..][1..] == Table[j + 1..];
      src := ReplaceAll(src, Table[j].0, Table[j].1);
    }
  }

  // ---------------------------------------------------------------- properties

  /** A text that shares no character with any key passes through the table unchanged;
      in particular an all-ASCII text (for example a pure digit string). */
  lemma {:induction false} ApplyTableAscii(s: string, t: seq<(string, string)>)
    requires WellShaped(t) && AllAscii(s)
    ensures ApplyTable(s, t) == s
    decreases |t|
  {
    if |t| > 0 {
      assert t[0].0[0] !in s by {
        assert !IsAscii(t[0].0[0]);
      }
      if Contains(s, t[0].0) {
        var i := ContainsWitness(s, t[0].0);
        assert false;
      }
      ReplaceAbsent(s, t[0].0, t[0].1);
      ApplyTableAscii(s, t[1..]);
    }
  }

  /** An ASCII text without capitals (digits, blanks, slashes, lower-case words)
      is left as it is by the whole normalisation. */
  lemma LowerAsciiUnchanged(s: string)
    requires AllAscii(s) && forall i | 0 <= i < |s| :: !IsAsciiUpper(s[i])
    ensures Normalized(s) == s
  {
    assert HalfLower(s) == s;
    TableWellShaped();
    ApplyTableAscii(s, Table);
  }

  /** A key the text does not contain stays absent: no replacement brings it back,
      since replacements are ASCII and keys are not. */
  lemma {:induction false} AbsentStaysAbsent(s: string, t: seq<(string, string)>, k: string)
    requires WellShaped(t) && |k| > 0 && NoAscii(k) && !Contains(s, k)
    ensures !Contains(ApplyTable(s, t), k)
    decreases |t|
  {
    if |t| > 0 {
      AsciiDisjoint(k, t[0].1);
      ReplaceLeavesNoOccurrence(s, t[0].0, t[0].1, k);
      AbsentStaysAbsent(ReplaceAll(s, t[0].0, t[0].1), t[1..], k);
    }
  }

  /** After the table has run, none of its keys is left in the text. */
  lemma {:induction false} NoKeyRemains(s: string, t: seq<(string, string)>, j: nat)
    requires WellShaped(t) && j < |t|
    ensures !Contains(ApplyTable(s, t), t[j].0)
    decreases |t|
  {
    var s' := ReplaceAll(s, t[0].0, t[0].1);
    if j == 0 {
      var k := t[0].0;
      AsciiDisjoint(k, t[0].1);
      ReplaceLeavesNoOccurrence(s, k, t[0].1, k);
      AbsentStaysAbsent(s', t[1..], k);
    } else {
      NoKeyRemains(s', t[1..], j - 1);
    }
  }

  /** After normalisation the text holds none of the table's keys. */
  lemma NormalizedHasNoKey(src: string, j: nat)
    requires j < |Table|
    ensures !Contains(Normalized(src), Table[j].0)
  {
    TableWellShaped();
    NoKeyRemains(HalfLower(src), Table, j);
  }

  lemma {:induction false} ApplyTableConcat(s: string, a: seq<(string, string)>, b: seq<(string, string)>)
    requires WellShaped(a) && WellShaped(b)
    ensures WellShaped(a + b)
    ensures ApplyTable(s, a + b) == ApplyTable(ApplyTable(s, a), b)
    decreases |a|
  {
    WellShapedConcat(a, b);
    if |a| > 0 {
      assert (a + b)[0] == a[0];
      assert (a + b)[1..] == a[1..] + b;
      ApplyTableConcat(ReplaceAll(s, a[0].0, a[0].1), a[1..], b);
    } else {
      assert a + b == b;
    }
  }

  /** A non-ASCII character absent from the text is absent after the table too. */
  lemma {:induction false} CharStaysAbsent(s: string, t: seq<(string, string)>, c: char)
    requires WellShaped(t) && !IsAscii(c) && c !in s
    ensures c !in ApplyTable(s, t)
    decreases |t|
  {
    if |t| > 0 {
      var s' := ReplaceAll(s, t[0].0, t[0].1);
      if c in s' {
        ReplaceChars(s, t[0].0, t[0].1, c);
        assert false;
      }
      CharStaysAbsent(s', t[1..], c);
    }
  }

  /** Table entries whose one-character keys are all absent from the text do nothing. */
  lemma {:induction false} SingleCharKeysAbsent(s: string, t: seq<(string, string)>)
    requires WellShaped(t)
    requires forall j | 0 <= j < |t| :: |t[j].0| == 1 && t[j].0[0] !in s
    ensures ApplyTable(s, t) == s
    decreases |t|
  {
    if |t| > 0 {
      ContainsSingle(s, t[0].0[0]);
      assert [t[0].0[0]] == t[0].0;
      ReplaceAbsent(s, t[0].0, t[0].1);
      SingleCharKeysAbsent(s, t[1..]);
    }
  }

  /** The four full-width era initials at the end of the table are dead entries:
      lower-casing has already removed every full-width capital, and no earlier
      replacement inserts one. */
  lemma FullWidthEraLettersAreDead(src: string)
    ensures Normalized(src) == ApplyTable(HalfLower(src), Table[..|Table| - 4])
  {
    TableWellShaped();
    FullWidthEraLettersWellShaped();
    var head := Table[..|Table| - 4];
    assert Table == head + FullWidthEraLetters;
    assert WellShaped(head);
    ApplyTableConcat(HalfLower(src), head, FullWidthEraLetters);
    var x := ApplyTable(HalfLower(src), head);
    forall j | 0 <= j < |FullWidthEraLetters|
      ensures |FullWidthEraLetters[j].0| == 1 && FullWidthEraLetters[j].0[0] !in x
    {
      var c := FullWidthEraLetters[j].0[0];
      assert IsFullUpper(c);
      CharStaysAbsent(HalfLower(src), head, c);
    }
    SingleCharKeysAbsent(x, FullWidthEraLetters);
  }

  /** Longer numerals go first: 二十一 becomes "21", not "2" "10" "1". */
  lemma TwentyOne(s: string)
    requires s == "二十一"
    ensures Normalized(s) == "21"
  {
    AfterFullWidthDigitsWellShaped();
    NoFullWidthDigitInTwentyOne(s);
    TwentyOneAfterFullWidthDigits(s);
    KanjiKeepCase(s);
    ApplyTableConcat(s, FullWidthDigits, AfterFullWidthDigits);
  }

  lemma KanjiKeepCase(s: string)
    requires s == "二十一"
    ensures HalfLower(s) == s
  {
    assert HalfLower(s)[0] == s[0] && HalfLower(s)[1] == s[1] && HalfLower(s)[2] == s[2];
  }

  lemma NoFullWidthDigitInTwentyOne(s: string)
    requires s == "二十一"
    ensures WellShaped(FullWidthDigits) && ApplyTable(s, FullWidthDigits) == s
  {
    FullWidthDigitsWellShaped();
    FullWidthDigitKeys();
    SingleCharKeysAbsent(s, FullWidthDigits);
  }

  lemma TwentyOneAfterFullWidthDigits(s: string)
    requires s == "二十一"
    requires WellShaped(AfterFullWidthDigits)
    ensures ApplyTable(s, AfterFullWidthDigits) == "21"
  {
    var rest := AfterFullWidthDigits;
    assert rest[0] == ("二十一", "21");
    ReplaceWhole(s, "21");
    WellShapedSuffix(rest, 1);
    ApplyTableAscii("21", rest[1..]);
  }

  lemma FullWidthDigitKeys()
    ensures forall j | 0 <= j < |FullWidthDigits| ::
      |FullWidthDigits[j].0| == 1 && '０' <= FullWidthDigits[j].0[0] <= '９'
  {
    assert |FullWidthDigits[0].0| == 1 && '０' <= FullWidthDigits[0].0[0] <= '９';
    assert |FullWidthDigits[1].0| == 1 && '０' <= FullWidthDigits[1].0[0] <= '９';
    assert |FullWidthDigits[2].0| == 1 && '０' <= FullWidthDigits[2].0[0] <= '９';
    assert |FullWidthDigits[3].0| == 1 && '０' <= FullWidthDigits[3].0[0] <= '９';
    assert |FullWidthDigits[4].0| == 1 && '０' <= FullWidthDigits[4].0[0] <= '９';
    assert |FullWidthDigits[5].0| == 1 && '０' <= FullWidthDigits[5].0[0] <= '９';
    assert |FullWidthDigits[6].0| == 1 && '０' <= FullWidthDigits[6].0[0] <= '９';
    assert |FullWidthDigits[7].0| == 1 && '０' <= FullWidthDigits[7].0[0] <= '９';
    assert |FullWidthDigits[8].0| == 1 && '０' <= FullWidthDigits[8].0[0] <= '９';
    assert |FullWidthDigits[9].0| == 1 && '０' <= FullWidthDigits[9].0[0] <= '９';
  }

  lemma WellShapedSuffix(t: seq<(string, string)>, k: nat)
    requires WellShaped(t) && k <= |t|
    ensures WellShaped(t[k..])
  {
    forall j | 0 <= j < |t[k..]| ensures WellShapedEntry(t[k..][j]) {
      assert t[k..][j] == t[k + j];
    }
  }
}
