/** The date parser: choosing a year by its distance from a reference
    date (the caller's `basisDate`, or the current time when none is given). */
module YearChoice {
  import opened Wrappers
  import opened JavaText
  import opened Calendar
  import opened GengoYearTable

  /** The year and month of the reference date; the other fields are never read. */
  datatype RefDate = RefDate(year: int, month: int)
  type Reference = r: RefDate | JodaMinYear <= r.year <= JodaMaxYear && IsMonth(r.month)
    witness RefDate(2000, 1)

  function Abs(x: int): (r: nat)
    ensures r == x || r == -x
  {
    if x < 0 then -x else x
  }

  /** `IsNearYearNowThan`: `src` is strictly closer to the reference year than
      `target`. (The differences stay far inside the `int` range for every call the
      parser makes, so Java's `Math.abs` cannot overflow here.) */
  predicate IsNearYearNowThan(src: int, target: int, ref: Reference) {
    Abs(src - ref.year) < Abs(target - ref.year)
  }

  /** Nearness is a strict comparison: no year is nearer than itself, of two years
      at most one is the nearer, and the reference year is nearer than any other. */
  lemma NearerYearOrder(a: int, b: int, ref: Reference)
    ensures !IsNearYearNowThan(a, a, ref)
    ensures IsNearYearNowThan(a, b, ref) ==> !IsNearYearNowThan(b, a, ref)
    ensures b != ref.year ==> IsNearYearNowThan(ref.year, b, ref)
  {
  }

  /** `CalcNealyYearFromWarekiOrYear`: read a short year `n` as Reiwa `n` (n + 2018)
      when that is strictly nearer the reference year, otherwise as 20nn. */
  function CalcNealyYearFromWarekiOrYear(n: int, ref: Reference): (r: int)
    ensures r == n + REIWA_YEAR_ADDITION || r == n + 2000
    ensures r == n + REIWA_YEAR_ADDITION <==> IsNearYearNowThan(n + REIWA_YEAR_ADDITION, n + 2000, ref)
  {
    var candidateWareki := n + REIWA_YEAR_ADDITION;
    var candidateYear := n + 2000;
    if IsNearYearNowThan(candidateWareki, candidateYear, ref) then candidateWareki else candidateYear
  }

  /** The Reiwa reading wins exactly when the reference year is past n + 2009, the
      midpoint of the two candidates; at the midpoint itself the tie keeps 20nn. */
  lemma NealyThreshold(n: int, ref: Reference)
    ensures CalcNealyYearFromWarekiOrYear(n, ref) == n + 2018 <==> ref.year > n + 2009
    ensures ref.year == n + 2009 ==> CalcNealyYearFromWarekiOrYear(n, ref) == n + 2000
  {
  }

  /** `GetNearYear`: a month-day with no year belongs to the reference year, except
      that December against a January reference means last year. */
  function GetNearYear(month: int, ref: Reference): (r: int)
    ensures r == ref.year || r == ref.year - 1
    ensures r == ref.year - 1 <==> month == 12 && ref.month == 1
  {
    if month == 12 && ref.month == 1 then ref.year - 1 else ref.year
  }

  /** `CalcStart3WordNenAndMonthByNearNowData`. */
  datatype Start3 = Start3(suspectGengo: Option<Gengo>, nen: Int32, month: Int32)

  /** `CalcStart3WordNenAndMonthByNearNow` on a three-character digit string: split it
      into a year (one or two digits) and a month, with or without a known era.
      Every `substring` and `parseInt` it performs can throw; then the result is None. */
  function CalcStart3(src: string, knownGengo: Option<Gengo>, ref: Reference): (r: Option<Start3>)
    ensures r.Some? ==> r.value.suspectGengo == if knownGengo.Some? then knownGengo else Some(REIWA)
    ensures r.Some? ==> |src| >= 3 && ParseInt(src[..1]) == Some(r.value.nen)
    ensures r.Some? && knownGengo.None? ==> ParseInt(src[1..3]) == Some(r.value.month)
    ensures r.Some? && knownGengo.Some? ==>
      ParseInt(src[..2]).Some? &&
      ParseInt(if IsNearYearNowThan(r.value.nen + knownGengo.value.yearAdd, ParseInt(src[..2]).value + knownGengo.value.yearAdd, ref)
               then src[1..3] else src[2..3]) == Some(r.value.month)
  {
    var s1 :- Substring(src, 0, 1);
    var oneWordNen :- ParseInt(s1);
    var s2 :- Substring(src, 0, 2);
    var twoWordNen :- ParseInt(s2);
    if knownGengo.Some? then
      var add := knownGengo.value.yearAdd;
      if IsNearYearNowThan(oneWordNen + add, twoWordNen + add, ref) then
        var m :- Substring(src, 1, 3);
        var month :- ParseInt(m);
        Some(Start3(knownGengo, oneWordNen, month))
      else
        var m :- Substring(src, 2, 3);
        var month :- ParseInt(m);
        Some(Start3(knownGengo, oneWordNen, month))
    else
      // The "two-digit" candidates are built from the one-digit year, as in the source.
      var oneWordNenAsYear := oneWordNen + 2000;
      var oneWordNenAsWareki := oneWordNen + REIWA_YEAR_ADDITION;
      var twoWordNenAsYear := oneWordNen + 2000;
      var twoWordNenAsWareki := oneWordNen + REIWA_YEAR_ADDITION;
      var nowYear := ref.year;
      var absOneYear := nowYear - oneWordNenAsYear;
      var absOneWareki := nowYear - oneWordNenAsWareki;
      var absTwoYear := nowYear - twoWordNenAsYear;
      var absTwoWareki := nowYear - twoWordNenAsWareki;
      var mostNear := Min(absOneYear, Min(absOneWareki, Min(absTwoYear, absTwoWareki)));
      // absOneWareki is always 18 below absOneYear, and the "two" values copy the
      // "one" values, so only the Reiwa branch of the source can be taken.
      if mostNear == absOneYear then
        assert false; None
      else if mostNear == absOneWareki then
        var m :- Substring(src, 1, 3);
        var month :- ParseInt(m);
        Some(Start3(Some(REIWA), oneWordNen, month))
      else
        assert false; None
  }

  function Min(a: int, b: int): int {
    if a <= b then a else b
  }

  /** On three digits none of those calls can throw. */
  lemma Start3Total(src: string, known: Option<Gengo>, ref: Reference)
    requires AllDigits(src) && |src| == 3
    ensures CalcStart3(src, known, ref).Some?
  {
    ShortDigitsParse(src[0..1]);
    ShortDigitsParse(src[0..2]);
    ShortDigitsParse(src[1..3]);
    ShortDigitsParse(src[2..3]);
  }

  /** With no era, the signed differences always make the Reiwa reading the
      "nearest": the result is Reiwa, the first digit is the year and the last two
      digits are the month, whatever the reference date. */
  lemma Start3WithoutEraIsReiwa(src: string, ref: Reference)
    requires AllDigits(src) && |src| == 3
    ensures CalcStart3(src, None, ref).Some?
    ensures CalcStart3(src, None, ref).value.suspectGengo == Some(REIWA)
    ensures CalcStart3(src, None, ref).value.nen == DigitValue(src[0])
    ensures CalcStart3(src, None, ref).value.month == DigitsValue(src[1..3])
  {
    assert src[0..1][..0] == [];
    assert DigitsValue(src[0..1]) == DigitValue(src[0]);
    Start3Total(src, None, ref);
    ShortDigitsParse(src[1..3]);
  }

  /** With a known era, the year is still always the first digit; only the month
      depends on the comparison: the last two digits when the one-digit era year is
      nearer the reference than the two-digit one, otherwise the last digit alone
      ("h112" read in 2025 is Heisei 1, February). */
  lemma Start3WithEraKeepsFirstDigit(src: string, g: Gengo, ref: Reference)
    requires AllDigits(src) && |src| == 3
    ensures CalcStart3(src, Some(g), ref).Some?
    ensures CalcStart3(src, Some(g), ref).value.nen == DigitValue(src[0])
    ensures CalcStart3(src, Some(g), ref).value.suspectGengo == Some(g)
    ensures CalcStart3(src, Some(g), ref).value.month ==
      if IsNearYearNowThan(DigitValue(src[0]) + g.yearAdd, DigitsValue(src[0..2]) + g.yearAdd, ref)
      then DigitsValue(src[1..3]) else DigitValue(src[2])
  {
    assert src[0..1][..0] == [];
    assert DigitsValue(src[0..1]) == DigitValue(src[0]);
    assert src[2..3][..0] == [];
    assert DigitsValue(src[2..3]) == DigitValue(src[2]);
    Start3Total(src, Some(g), ref);
    ShortDigitsParse(src[0..1]);
    ShortDigitsParse(src[0..2]);
    ShortDigitsParse(src[1..3]);
    ShortDigitsParse(src[2..3]);
  }

  const MINIMUM_YEAR := 1000
  const MAXIMUM_YEAR := 9999

  /** `IsCollectYear`: a four-digit year. */
  predicate IsCollectYear(year: int) {
    MINIMUM_YEAR <= year <= MAXIMUM_YEAR
  }

  /** A collectable year is exactly one whose decimal form has four digits. */
  lemma CollectYearHasFourDigits(year: nat)
    ensures IsCollectYear(year) <==> |NatToString(year)| == 4
  {
    DecimalLength(year, 4);
    DecimalLength(year, 3);
  }

  /** The decimal form of n has at most k digits exactly when n < 10^k. */
  lemma {:induction false} DecimalLength(n: nat, k: nat)
    requires k >= 1
    ensures |NatToString(n)| <= k <==> n < Pow10(k)
  {
    if n >= 10 && k > 1 {
      DecimalLength(n / 10, k - 1);
      assert n / 10 < Pow10(k - 1) <==> n < 10 * Pow10(k - 1);
    } else if n < 10 {
      PowerAtLeastTen(k);
    }
  }

  lemma {:induction false} PowerAtLeastTen(k: nat)
    requires k >= 1
    ensures Pow10(k) >= 10
  {
    if k > 1 {
      PowerAtLeastTen(k - 1);
    }
  }

  /** `IsCollectMonth`. */
  predicate IsCollectMonth(month: int) {
    1 <= month <= 12
  }

  /** `IsCollectDate`: a plausible day of `month` when the year is not yet known
      (February allows 29); a month outside 1..12 accepts no day. */
  predicate IsCollectDate(date: int, month: int) {
    if month == 2 then 1 <= date <= 29
    else if month in [4, 6, 9, 11] then 1 <= date <= 30
    else if month in [1, 3, 5, 7, 8, 10, 12] then 1 <= date <= 31
    else false
  }

  /** A day passes `IsCollectDate` exactly when it exists in that month of some
      leap year, i.e. when it fits the month in at least one year. */
  lemma CollectDateIsLeapYearDay(date: int, month: int, leap: int)
    requires IsLeapYear(leap)
    ensures IsCollectDate(date, month) <==> IsMonth(month) && 1 <= date <= DaysInMonth(leap, month)
  {
  }

  /** Every day that exists in some year passes `IsCollectDate`. */
  lemma ValidDateIsCollect(y: int, m: int, d: int)
    requires IsValidDate(y, m, d)
    ensures IsCollectDate(d, m) && IsCollectMonth(m)
  {
  }
}
