/** The Japanese era table: each era's name (full kanji or Latin initial) and the
    number added to an in-era year to get the Gregorian year. */
module GengoYearTable {

  datatype Gengo = Gengo(gengo: string, yearAdd: int)

  const REIWA_YEAR_ADDITION: int := 2018

  const MEIJI := Gengo("明治", 1867)
  const TAISHO := Gengo("大正", 1911)
  const SHOWA := Gengo("昭和", 1925)
  const HEISEI := Gengo("平成", 1988)
  const REIWA := Gengo("令和", 2018)

  const MEIJI_S := Gengo("M", 1867)
  const TAISHO_T := Gengo("T", 1911)
  const SHOWA_S := Gengo("S", 1925)
  const HEISEI_H := Gengo("H", 1988)
  const REIWA_R := Gengo("R", 2018)
  const REIWA_L := Gengo("L", 2018)

  /** Full names first, then the abbreviations, in this fixed search order. */
  const Table: seq<Gengo> := [MEIJI, TAISHO, SHOWA, HEISEI, REIWA,
                              MEIJI_S, TAISHO_T, SHOWA_S, HEISEI_H, REIWA_R, REIWA_L]

  /** Gregorian year of year `n` of era `g`. */
  function GregorianYear(g: Gengo, n: int): int {
    n + g.yearAdd
  }

  /** The first year of each era, and the Reiwa constant. */
  lemma FirstYears()
    ensures GregorianYear(MEIJI, 1) == 1868 && GregorianYear(TAISHO, 1) == 1912
    ensures GregorianYear(SHOWA, 1) == 1926 && GregorianYear(HEISEI, 1) == 1989
    ensures GregorianYear(REIWA, 1) == 2019
    ensures REIWA_YEAR_ADDITION == REIWA.yearAdd
  {
  }

  /** Each Latin abbreviation carries the offset of its era; R and L both stand for Reiwa. */
  lemma AbbreviationsShareOffsets()
    ensures MEIJI_S.yearAdd == MEIJI.yearAdd && TAISHO_T.yearAdd == TAISHO.yearAdd
    ensures SHOWA_S.yearAdd == SHOWA.yearAdd && HEISEI_H.yearAdd == HEISEI.yearAdd
    ensures REIWA_R.yearAdd == REIWA.yearAdd && REIWA_L.yearAdd == REIWA.yearAdd
  {
  }

  /** The table holds the five two-kanji names, then the six one-letter forms. */
  lemma TableLayout()
    ensures |Table| == 11
    ensures forall i | 0 <= i < 5 :: |Table[i].gengo| == 2
    ensures forall i | 5 <= i < 11 :: |Table[i].gengo| == 1
  {
  }
}
