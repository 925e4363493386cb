/** The parts of java.lang.String and java.lang.Integer that the date parser relies on,
    written out on Dafny strings (a Java char of the Basic Multilingual Plane is one
    Dafny char). Every operation that can throw in Java returns an Option here. */
module JavaText {
  import opened Wrappers

  /** Java's 32-bit `int`. */
  type Int32 = x: int | -0x8000_0000 <= x < 0x8000_0000

  /** Two's-complement wrap-around of Java `int` addition. */
  function Wrap32(x: int): (r: Int32)
    ensures -0x8000_0000 <= x < 0x8000_0000 ==> r == x
    ensures (r - x) % 0x1_0000_0000 == 0
  {
    (x + 0x8000_0000) % 0x1_0000_0000 - 0x8000_0000
  }

  // ---------------------------------------------------------------- digits

  predicate IsAsciiDigit(c: char) {
    '0' <= c <= '9'
  }

  predicate AllDigits(s: string) {
    forall i | 0 <= i < |s| :: IsAsciiDigit(s[i])
  }

  function DigitValue(c: char): (d: nat)
    requires IsAsciiDigit(c)
    ensures d < 10
  {
    c as int - '0' as int
  }

  function DigitChar(d: nat): (c: char)
    requires d < 10
    ensures IsAsciiDigit(c) && DigitValue(c) == d
  {
    ('0' as int + d) as char
  }

  /** The number a run of ASCII digits denotes (leading zeros allowed). */
  function DigitsValue(s: string): nat
    requires AllDigits(s)
  {
    if |s| == 0 then 0 else DigitsValue(s[..|s| - 1]) * 10 + DigitValue(s[|s| - 1])
  }

  function Pow10(n: nat): (r: nat)
    ensures r >= 1
  {
    if n == 0 then 1 else 10 * Pow10(n - 1)
  }

  /** A run of n digits denotes less than 10^n. */
  lemma {:induction false} DigitsValueBound(s: string)
    requires AllDigits(s)
    ensures DigitsValue(s) < Pow10(|s|)
  {
    if |s| > 0 {
      DigitsValueBound(s[..|s| - 1]);
    }
  }

  /** Nine digits or fewer always fit in an `int`, so `parseInt` cannot throw. */
  lemma ShortDigitsParse(s: string)
    requires AllDigits(s) && 0 < |s| <= 9
    ensures ParseInt(s) == Some(DigitsValue(s))
  {
    DigitsValueBound(s);
    assert Pow10(9) == 1000000000;
    PowMonotone(|s|, 9);
  }

  lemma {:induction false} PowMonotone(a: nat, b: nat)
    requires a <= b
    ensures Pow10(a) <= Pow10(b)
  {
    if a < b {
      PowMonotone(a, b - 1);
    }
  }

  /** `Integer.parseInt`: an optional sign and at least one ASCII digit, within the
      32-bit range; anything else throws NumberFormatException (here: None).
      (Java also accepts non-ASCII Unicode digits; the parser never passes any.) */
  function ParseInt(s: string): (r: Option<Int32>)
    ensures r.Some? && AllDigits(s) ==> r.value == DigitsValue(s)
    ensures |s| == 0 ==> r.None?
    ensures AllDigits(s) && |s| > 0 && DigitsValue(s) < 0x8000_0000 ==> r.Some?
  {
    if |s| == 0 then None
    else if s[0] == '-' || s[0] == '+' then
      if |s| == 1 || !AllDigits(s[1..]) then None
      else
        var v: int := if s[0] == '-' then -(DigitsValue(s[1..]) as int) else DigitsValue(s[1..]);
        if -0x8000_0000 <= v < 0x8000_0000 then Some(v) else None
    else if !AllDigits(s) then None
    else if DigitsValue(s) < 0x8000_0000 then Some(DigitsValue(s))
    else None
  }

  /** Decimal digits of a natural number, most significant first, no leading zero. */
  function NatToString(n: nat): (s: string)
    ensures |s| > 0 && AllDigits(s)
    ensures |s| > 1 ==> s[0] != '0'
  {
    if n < 10 then [DigitChar(n)] else NatToString(n / 10) + [DigitChar(n % 10)]
  }

  /** A digit string without a leading zero is at least `10^(|s|-1)`. */
  lemma {:induction false} LeadingDigitBound(s: string)
    requires AllDigits(s) && |s| > 0 && s[0] != '0'
    ensures DigitsValue(s) >= Pow10(|s| - 1)
  {
    if |s| > 1 {
      var p := s[..|s| - 1];
      assert p[0] == s[0];
      LeadingDigitBound(p);
    }
  }

  /** Zero-padding on the left to at least `width` characters, as a fixed-width
      number printer does. */
  function PadZeros(s: string, width: nat): (r: string)
    ensures |r| == if |s| >= width then |s| else width
    decreases width - |s|
  {
    if |s| >= width then s else PadZeros("0" + s, width)
  }

  /** Leading zeros add nothing to the value. */
  lemma {:induction false} LeadingZero(s: string)
    requires AllDigits(s)
    ensures AllDigits("0" + s) && DigitsValue("0" + s) == DigitsValue(s)
  {
    var t := "0" + s;
    if |s| > 0 {
      assert t[..|t| - 1] == "0" + s[..|s| - 1];
      assert t[|t| - 1] == s[|s| - 1];
      LeadingZero(s[..|s| - 1]);
    } else {
      assert t[..0] == [];
    }
  }

  lemma {:induction false} PadZerosValue(s: string, width: nat)
    requires AllDigits(s)
    ensures AllDigits(PadZeros(s, width)) && DigitsValue(PadZeros(s, width)) == DigitsValue(s)
    decreases width - |s|
  {
    if |s| < width {
      LeadingZero(s);
      PadZerosValue("0" + s, width);
    }
  }

  /** `String.valueOf(int)`. */
  function IntToString(n: int): string {
    if n < 0 then "-" + NatToString(-n) else NatToString(n)
  }

  lemma {:induction false} NatToStringValue(n: nat)
    ensures DigitsValue(NatToString(n)) == n
  {
    if n >= 10 {
      var s := NatToString(n);
      assert s[..|s| - 1] == NatToString(n / 10);
      NatToStringValue(n / 10);
    }
  }

  /** `Integer.parseInt(String.valueOf(n)) == n` for every Java int. */
  lemma ParseIntRoundTrip(n: Int32)
    ensures ParseInt(IntToString(n)) == Some(n)
  {
    if n < 0 {
      var s := IntToString(n);
      var m: nat := -(n as int);
      assert s[1..] == NatToString(m);
      NatToStringValue(m);
    } else {
      NatToStringValue(n);
    }
  }

  /** The value of two digits. */
  lemma TwoDigitsValue(s: string)
    requires AllDigits(s) && |s| == 2
    ensures DigitsValue(s) == 10 * DigitValue(s[0]) + DigitValue(s[1])
  {
    var p := s[..1];
    assert p[..0] == [];
    assert DigitsValue(p) == DigitValue(s[0]);
  }

  /** One or two digits denote less than a hundred. */
  lemma TwoDigitsBound(s: string)
    requires AllDigits(s) && |s| <= 2
    ensures DigitsValue(s) < 100
  {
    DigitsValueBound(s);
    PowMonotone(|s|, 2);
    assert Pow10(2) == 100;
  }

  /** The value of four digits. */
  lemma FourDigitsValue(s: string)
    requires AllDigits(s) && |s| == 4
    ensures DigitsValue(s) == 1000 * DigitValue(s[0]) + 100 * DigitValue(s[1]) + 10 * DigitValue(s[2]) + DigitValue(s[3])
  {
    TwoDigitsValue(s[..2]);
    assert s[..3][..2] == s[..2];
  }

  /** A prefix of a digit run denotes no more than the whole run. */
  lemma {:induction false} PrefixValueBound(s: string, k: nat)
    requires AllDigits(s) && k <= |s|
    ensures DigitsValue(s[..k]) <= DigitsValue(s)
    decreases |s|
  {
    if k < |s| {
      var p := s[..|s| - 1];
      assert p[..k] == s[..k];
      PrefixValueBound(p, k);
    } else {
      assert s[..k] == s;
    }
  }

  /** A suffix of a digit run denotes no more than the whole run. */
  lemma {:induction false} SuffixValueBound(s: string, k: nat)
    requires AllDigits(s) && k <= |s|
    ensures DigitsValue(s[k..]) <= DigitsValue(s)
    decreases |s|
  {
    if k < |s| {
      var p := s[..|s| - 1];
      SuffixValueBound(p, k);
      assert s[k..][..|s[k..]| - 1] == p[k..];
    }
  }

  /** Any non-empty slice of a digit run that `parseInt` accepts is accepted too,
      with the value of its own digits. */
  lemma DigitSlice(s: string, a: nat, b: nat)
    requires AllDigits(s) && ParseInt(s).Some? && a < b <= |s|
    ensures ParseInt(s[a..b]) == Some(DigitsValue(s[a..b]))
  {
    PrefixValueBound(s, b);
    assert s[..b][a..] == s[a..b];
    SuffixValueBound(s[..b], a);
  }

  /** A digit run denoting at least 10^n has more than n digits. */
  lemma DigitsForValue(s: string, n: nat)
    requires AllDigits(s) && DigitsValue(s) >= Pow10(n)
    ensures |s| > n
  {
    DigitsValueBound(s);
    if |s| <= n {
      PowMonotone(|s|, n);
    }
  }

  // ---------------------------------------------------------------- searching

  predicate StartsWith(s: string, p: string) {
    |p| <= |s| && s[..|p|] == p
  }

  predicate EndsWith(s: string, p: string) {
    |p| <= |s| && s[|s| - |p|..] == p
  }

  /** `String.contains`, as a scan that tries every start position. */
  predicate Contains(s: string, p: string)
    decreases |s|
  {
    StartsWith(s, p) || (|s| > 0 && Contains(s[1..], p))
  }

  lemma {:induction false} ContainsAt(s: string, p: string, i: nat)
    requires i + |p| <= |s| && s[i..i + |p|] == p
    ensures Contains(s, p)
  {
    if i > 0 {
      assert s[1..][i - 1..i - 1 + |p|] == s[i..i + |p|];
      ContainsAt(s[1..], p, i - 1);
    }
  }

  lemma {:induction false} ContainsWitness(s: string, p: string) returns (i: nat)
    requires Contains(s, p)
    ensures i + |p| <= |s| && s[i..i + |p|] == p
    decreases |s|
  {
    if StartsWith(s, p) {
      i := 0;
    } else {
      var j := ContainsWitness(s[1..], p);
      i := j + 1;
      assert s[1..][j..j + |p|] == s[i..i + |p|];
    }
  }

  /** `p` occurs in `s` starting at index `i`. */
  predicate OccursAt(s: string, p: string, i: int) {
    0 <= i && i + |p| <= |s| && s[i..i + |p|] == p
  }

  /** `Contains` holds exactly when the pattern occurs at some position. */
  lemma ContainsIff(s: string, p: string)
    ensures Contains(s, p) <==> exists i :: OccursAt(s, p, i)
  {
    if Contains(s, p) {
      var i := ContainsWitness(s, p);
      assert OccursAt(s, p, i);
    }
    if exists i :: OccursAt(s, p, i) {
      var i :| OccursAt(s, p, i);
      ContainsAt(s, p, i);
    }
  }

  lemma ContainsSingle(s: string, c: char)
    ensures Contains(s, [c]) <==> c in s
  {
    ContainsIff(s, [c]);
    if c in s {
      var i :| 0 <= i < |s| && s[i] == c;
      assert OccursAt(s, [c], i);
    }
    if Contains(s, [c]) {
      var i :| OccursAt(s, [c], i);
      assert s[i] == c;
    }
  }

  // ---------------------------------------------------------------- substrings

  /** `String.substring(b, e)`: throws unless 0 <= b <= e <= length. */
  function Substring(s: string, b: int, e: int): (r: Option<string>)
    ensures r.Some? <==> 0 <= b <= e <= |s|
    ensures r.Some? ==> |r.value| == e - b && r.value == s[b..e]
  {
    if 0 <= b <= e <= |s| then Some(s[b..e]) else None
  }

  /** `String.substring(b)`. */
  function SubstringFrom(s: string, b: int): (r: Option<string>)
    ensures r.Some? <==> 0 <= b <= |s|
    ensures r.Some? ==> r.value == s[b..]
  {
    Substring(s, b, |s|)
  }

  /** `new StringBuilder(s).delete(start, start + count)`: throws when start is
      negative, beyond the length, or past the end; an end past the length is
      clamped to the length. */
  function DeleteStr(s: string, start: int, count: int): (r: Option<string>)
    ensures r.Some? <==> 0 <= start <= |s| && 0 <= count
    ensures r.Some? && start + count <= |s| ==> r.value == s[..start] + s[start + count..]
    ensures r.Some? && start + count > |s| ==> r.value == s[..start]
  {
    if start < 0 || start > |s| || count < 0 then None
    else if start + count > |s| then Some(s[..start])
    else Some(s[..start] + s[start + count..])
  }

  // ---------------------------------------------------------------- trim

  /** A character `String.trim` strips: everything up to and including U+0020. */
  predicate IsTrimmable(c: char) {
    c <= ' '
  }

  /** Index of the first character at or after `i` that `trim` keeps, or `|s|`. */
  function TrimStart(s: string, i: nat): (j: nat)
    requires i <= |s|
    ensures i <= j <= |s|
    ensures j == |s| || !IsTrimmable(s[j])
    ensures forall k | i <= k < j :: IsTrimmable(s[k])
    decreases |s| - i
  {
    if i < |s| && IsTrimmable(s[i]) then TrimStart(s, i + 1) else i
  }

  /** One past the last character before `j` (and not before `lo`) that `trim` keeps. */
  function TrimEnd(s: string, lo: nat, j: nat): (e: nat)
    requires lo <= j <= |s|
    ensures lo <= e <= j
    ensures e == lo || !IsTrimmable(s[e - 1])
    ensures forall k | e <= k < j :: IsTrimmable(s[k])
    decreases j
  {
    if j > lo && IsTrimmable(s[j - 1]) then TrimEnd(s, lo, j - 1) else j
  }

  /** `String.trim`. */
  function Trim(s: string): (r: string)
    ensures r == [] <==> forall k | 0 <= k < |s| :: IsTrimmable(s[k])
    ensures r == [] || (!IsTrimmable(r[0]) && !IsTrimmable(r[|r| - 1]))
    ensures exists i :: OccursAt(s, r, i)
  {
    var i := TrimStart(s, 0);
    var e := TrimEnd(s, i, |s|);
    assert OccursAt(s, s[i..e], i);
    s[i..e]
  }

  /** A text that starts and ends with a character `trim` keeps is its own trim. */
  lemma TrimKeeps(s: string)
    requires |s| > 0 && !IsTrimmable(s[0]) && !IsTrimmable(s[|s| - 1])
    ensures Trim(s) == s
  {
    assert TrimStart(s, 0) == 0;
    assert TrimEnd(s, 0, |s|) == |s|;
    assert s[0..|s|] == s;
  }

  /** `trim` only removes characters: what it returns is made of characters of the
      text, and a last character it keeps stays last. */
  lemma TrimInside(s: string)
    ensures forall k | 0 <= k < |Trim(s)| :: Trim(s)[k] in s
    ensures |s| > 0 && !IsTrimmable(s[|s| - 1]) ==> |Trim(s)| > 0 && Trim(s)[|Trim(s)| - 1] == s[|s| - 1]
  {
    var i := TrimStart(s, 0);
    var e := TrimEnd(s, i, |s|);
    assert Trim(s) == s[i..e];
    forall k | 0 <= k < |Trim(s)| ensures Trim(s)[k] in s {
      assert Trim(s)[k] == s[i + k];
    }
    if |s| > 0 && !IsTrimmable(s[|s| - 1]) {
      assert i < |s|;
      assert e == |s|;
    }
  }

  // ---------------------------------------------------------------- replace

  /** `String.replace(CharSequence, CharSequence)`: every non-overlapping occurrence of
      `pat`, found left to right, is replaced by `rep`. */
  function ReplaceAll(s: string, pat: string, rep: string): string
    requires |pat| > 0
    decreases |s|
  {
    if |s| < |pat| then s
    else if s[..|pat|] == pat then rep + ReplaceAll(s[|pat|..], pat, rep)
    else [s[0]] + ReplaceAll(s[1..], pat, rep)
  }

  /** A text that is exactly the pattern becomes the replacement. */
  lemma ReplaceWhole(pat: string, rep: string)
    requires |pat| > 0
    ensures ReplaceAll(pat, pat, rep) == rep
  {
    assert pat[..|pat|] == pat;
    assert pat[|pat|..] == [];
  }

  /** `String.replace` for any target: an empty target matches before every
      character and at the end, so the replacement is inserted at each of those
      positions. */
  function Replace(s: string, target: string, replacement: string): string {
    if |target| > 0 then ReplaceAll(s, target, replacement) else InsertEverywhere(s, replacement)
  }

  function InsertEverywhere(s: string, rep: string): (r: string)
    ensures |r| == |s| + (|s| + 1) * |rep|
  {
    if |s| == 0 then rep else rep + [s[0]] + InsertEverywhere(s[1..], rep)
  }

  /** Replacing the empty string by the empty string gives the text back. */
  lemma {:induction false} ReplaceEmptyByEmpty(s: string)
    ensures Replace(s, "", "") == s
  {
    if |s| > 0 {
      ReplaceEmptyByEmpty(s[1..]);
      assert [s[0]] + s[1..] == s;
    }
  }

  /** Replacing a pattern that does not occur changes nothing. */
  lemma {:induction false} ReplaceAbsent(s: string, pat: string, rep: string)
    requires |pat| > 0 && !Contains(s, pat)
    ensures ReplaceAll(s, pat, rep) == s
    decreases |s|
  {
    if |s| >= |pat| {
      ReplaceAbsent(s[1..], pat, rep);
    }
  }

  /** Every character of the result comes from the input or from the replacement. */
  lemma {:induction false} ReplaceChars(s: string, pat: string, rep: string, c: char)
    requires |pat| > 0
    requires c in ReplaceAll(s, pat, rep)
    ensures c in s || c in rep
    decreases |s|
  {
    if |s| >= |pat| {
      if s[..|pat|] == pat {
        if c !in rep {
          ReplaceChars(s[|pat|..], pat, rep, c);
          assert s[|pat|..] == s[|pat|..];
        }
      } else if c != s[0] {
        ReplaceChars(s[1..], pat, rep, c);
      }
    }
  }

  /** Replacing one character by text without it removes every occurrence of it. */
  lemma {:induction false} ReplaceCharRemoves(s: string, c: char, rep: string)
    requires c !in rep
    ensures c !in ReplaceAll(s, [c], rep)
    decreases |s|
  {
    if |s| >= 1 {
      ReplaceCharRemoves(s[1..], c, rep);
    }
  }

  /** Up to the first character of `rep`, the output is a copy of the input. */
  lemma {:induction false} ReplacePrefix(t: string, pat: string, rep: string, m: nat)
    requires |pat| > 0 && |rep| > 0
    requires m <= |ReplaceAll(t, pat, rep)|
    requires forall j | 0 <= j < m :: ReplaceAll(t, pat, rep)[j] !in rep
    ensures m <= |t| && ReplaceAll(t, pat, rep)[..m] == t[..m]
    decreases |t|
  {
    var r := ReplaceAll(t, pat, rep);
    if m > 0 {
      assert r[0] !in rep;
    }
    if |t| < |pat| {
    } else if t[..|pat|] == pat {
      if m > 0 {
        assert false;
      }
    } else if m > 0 {
      var r' := ReplaceAll(t[1..], pat, rep);
      assert r == [t[0]] + r';
      forall j | 0 <= j < m - 1 ensures r'[j] !in rep {
        assert r'[j] == r[j + 1];
      }
      ReplacePrefix(t[1..], pat, rep, m - 1);
      assert r[..m] == [t[0]] + r'[..m - 1];
    }
  }

  /** A text whose first character is not in `a` occurs in `a + b` only inside `b`. */
  lemma {:induction false} ContainsSkipPrefix(a: string, b: string, k: string)
    requires |k| > 0 && k[0] !in a
    requires Contains(a + b, k)
    ensures Contains(b, k)
    decreases |a|
  {
    if |a| == 0 {
      assert a + b == b;
    } else {
      assert (a + b)[0] == a[0];
      assert (a + b)[1..] == a[1..] + b;
      ContainsSkipPrefix(a[1..], b, k);
    }
  }

  lemma {:induction false} ContainsTail(s: string, k: string, n: nat)
    requires n <= |s| && Contains(s[n..], k)
    ensures Contains(s, k)
  {
    var i := ContainsWitness(s[n..], k);
    assert s[n + i..n + i + |k|] == s[n..][i..i + |k|];
    ContainsAt(s, k, n + i);
  }

  /** After `ReplaceAll(s, pat, rep)`, a text `k` that shares no character with a
      non-empty `rep` occurs only if it occurred before, and `pat` itself never
      occurs again. This is why the normalisation table leaves none of its keys. */
  lemma {:induction false} ReplaceLeavesNoOccurrence(s: string, pat: string, rep: string, k: string)
    requires |pat| > 0 && |rep| > 0 && |k| > 0
    requires forall c | c in k :: c !in rep
    requires k == pat || !Contains(s, k)
    ensures !Contains(ReplaceAll(s, pat, rep), k)
    decreases |s|
  {
    var r := ReplaceAll(s, pat, rep);
    if |s| < |pat| {
      if k == pat && Contains(s, k) {
        var i := ContainsWitness(s, k);
      }
    } else if s[..|pat|] == pat {
      var t := ReplaceAll(s[|pat|..], pat, rep);
      if k != pat && Contains(s[|pat|..], k) {
        ContainsTail(s, k, |pat|);
      }
      ReplaceLeavesNoOccurrence(s[|pat|..], pat, rep, k);
      if Contains(r, k) {
        ContainsSkipPrefix(rep, t, k);
      }
    } else {
      var t := ReplaceAll(s[1..], pat, rep);
      ReplaceLeavesNoOccurrence(s[1..], pat, rep, k);
      assert r == [s[0]] + t;
      if Contains(r, k) {
        assert StartsWith(r, k);
        assert r[1..] == t;
        forall j | 0 <= j < |k| - 1 ensures t[j] !in rep {
          assert t[j] == r[j + 1] == k[j + 1];
        }
        ReplacePrefix(s[1..], pat, rep, |k| - 1);
        assert false;
      }
    }
  }

  // ---------------------------------------------------------------- one-character replace

  /** The text with every `c` left out. */
  function RemoveChar(s: string, c: char): (r: string)
    ensures c !in r && |r| <= |s|
    ensures forall x | x in r :: x in s
  {
    if |s| == 0 then [] else (if s[0] == c then [] else [s[0]]) + RemoveChar(s[1..], c)
  }

  /** The text with every `c` turned into `d`. */
  function MapChar(s: string, c: char, d: char): (r: string)
    ensures |r| == |s|
    ensures c != d ==> c !in r
    ensures forall x | x in r :: x in s || x == d
  {
    if |s| == 0 then [] else [if s[0] == c then d else s[0]] + MapChar(s[1..], c, d)
  }

  /** `s.replace(c, "")`: the one-character target is dropped wherever it occurs. */
  lemma {:induction false} ReplaceCharByNothing(s: string, c: char)
    ensures ReplaceAll(s, [c], []) == RemoveChar(s, c)
  {
    if |s| > 0 {
      ReplaceCharByNothing(s[1..], c);
    }
  }

  /** `s.replace(c, d)`: each occurrence of the one character becomes the other. */
  lemma {:induction false} ReplaceCharByChar(s: string, c: char, d: char)
    ensures ReplaceAll(s, [c], [d]) == MapChar(s, c, d)
  {
    if |s| > 0 {
      ReplaceCharByChar(s[1..], c, d);
    }
  }

  lemma {:induction false} RemoveCharSnoc(s: string, x: char, c: char)
    ensures RemoveChar(s + [x], c) == RemoveChar(s, c) + (if x == c then [] else [x])
  {
    if |s| > 0 {
      assert (s + [x])[1..] == s[1..] + [x];
      RemoveCharSnoc(s[1..], x, c);
    } else {
      assert s + [x] == [x];
    }
  }

  /** Mapping a character that does not occur changes nothing. */
  lemma {:induction false} MapAbsentChar(s: string, c: char, d: char)
    requires c !in s
    ensures MapChar(s, c, d) == s
  {
    if |s| > 0 {
      MapAbsentChar(s[1..], c, d);
      assert [s[0]] + s[1..] == s;
    }
  }

  /** A character in neither the text nor the replacement is not in the result. */
  lemma KeepsAbsent(s: string, pat: string, rep: string)
    requires |pat| > 0
    ensures forall c | c !in s && c !in rep :: c !in ReplaceAll(s, pat, rep)
  {
    forall c | c !in s && c !in rep ensures c !in ReplaceAll(s, pat, rep) {
      if c in ReplaceAll(s, pat, rep) {
        ReplaceChars(s, pat, rep, c);
      }
    }
  }

  /** Replacing a one-character target that does not occur changes nothing. */
  lemma ReplaceAbsentChar(s: string, c: char, rep: string)
    requires c !in s
    ensures ReplaceAll(s, [c], rep) == s
  {
    ContainsSingle(s, c);
    ReplaceAbsent(s, [c], rep);
  }

  /** Removing a character that does not occur changes nothing. */
  lemma {:induction false} RemoveAbsentChar(s: string, c: char)
    requires c !in s
    ensures RemoveChar(s, c) == s
  {
    if |s| > 0 {
      RemoveAbsentChar(s[1..], c);
      assert [s[0]] + s[1..] == s;
    }
  }
}
