/** The date parser: the era prefix and the end-of-month marker. */
module DateDetect {
  import opened Wrappers
  import opened JavaText
  import opened GengoYearTable
  import DateNormalize

  /** The era table entry `g` names a prefix of `src`, compared in lower case. */
  predicate NamesPrefix(src: string, g: Gengo) {
    StartsWith(DateNormalize.Lower(src), DateNormalize.Lower(g.gengo))
  }

  /** Index of the first table entry at or after `i` whose name starts `src`. */
  function FirstEra(src: string, i: nat): (r: Option<nat>)
    requires i <= |Table|
    ensures r.Some? ==> i <= r.value < |Table| && NamesPrefix(src, Table[r.value])
    ensures r.Some? ==> forall j | i <= j < r.value :: !NamesPrefix(src, Table[j])
    ensures r.None? ==> forall j | i <= j < |Table| :: !NamesPrefix(src, Table[j])
    decreases |Table| - i
  {
    if i == |Table| then None
    else if NamesPrefix(src, Table[i]) then Some(i)
    else FirstEra(src, i + 1)
  }

  /** `FindGengo`: the first era in table order whose name is a case-insensitive
      prefix of the text, or none (Java `null`). */
  function FindGengo(src: string): (r: Option<Gengo>)
    ensures r.Some? <==> exists j | 0 <= j < |Table| :: NamesPrefix(src, Table[j])
    ensures r.Some? ==> exists j | 0 <= j < |Table| ::
      Table[j] == r.value && NamesPrefix(src, Table[j]) &&
      forall m | 0 <= m < j :: !NamesPrefix(src, Table[m])
  {
    match FirstEra(src, 0)
    case None => None
    case Some(j) => Some(Table[j])
  }

  /** `HasMatsujitsu`: once trimmed, the text ends in 末 or 末日. The marker is
      then in the text, and a text that ends in a digit never has it. */
  predicate HasMatsujitsu(src: string)
    ensures HasMatsujitsu(src) ==> '末' in src
    ensures |src| > 0 && IsAsciiDigit(src[|src| - 1]) ==> !HasMatsujitsu(src)
  {
    TrimInside(src);
    var r := Trim(src);
    assert EndsWith(r, "末") ==> r[|r| - 1] == '末';
    assert EndsWith(r, "末日") ==> r[|r| - 2] == '末';
    EndsWith(r, "末") || EndsWith(r, "末日")
  }

  /** A text that starts with an ASCII digit names no era: every era name starts
      with a kanji or a capital Latin letter. */
  lemma NoEraBeforeDigit(src: string)
    requires |src| > 0 && IsAsciiDigit(src[0])
    ensures FindGengo(src).None?
  {
    forall j | 0 <= j < |Table| ensures !NamesPrefix(src, Table[j]) {
      assert DateNormalize.Lower(src)[0] == src[0];
      assert DateNormalize.Lower(Table[j].gengo)[0] == DateNormalize.LowerChar(Table[j].gengo[0]);
    }
  }

  /** Trailing blanks do not hide the marker. */
  lemma MatsujitsuExample(s: string)
    requires s == "2020年9月末日 "
    ensures HasMatsujitsu(s)
  {
    assert TrimStart(s, 0) == 0;
    assert TrimEnd(s, 0, |s| - 1) == |s| - 1;
    assert TrimEnd(s, 0, |s|) == |s| - 1;
    assert Trim(s) == s[0..|s| - 1];
    assert Trim(s)[|Trim(s)| - 2..] == "末日";
  }

  /** 令和 at the head of a text is found as Reiwa, before its Latin initials. */
  lemma ReiwaPrefix(rest: string)
    ensures FindGengo("令和" + rest) == Some(REIWA)
  {
    var src := "令和" + rest;
    assert DateNormalize.Lower(src)[..2] == "令和";
    assert NamesPrefix(src, Table[4]);
    assert !NamesPrefix(src, Table[0]) by { assert DateNormalize.Lower(src)[0] == '令'; }
    assert !NamesPrefix(src, Table[1]) by { assert DateNormalize.Lower(src)[0] == '令'; }
    assert !NamesPrefix(src, Table[2]) by { assert DateNormalize.Lower(src)[0] == '令'; }
    assert !NamesPrefix(src, Table[3]) by { assert DateNormalize.Lower(src)[0] == '令'; }
    assert FirstEra(src, 0) == Some(4);
  }
}
