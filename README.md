# Japanese date parser, modelled in Dafny

This project models the date-resolution engine of a Java OCR back end. `DateParser.Parse`
reads free text such as `令和3年5月末日`, `H10.5`, `2022/january/12` or `20200229`.
It normalises full-width and kanji numerals and replaces an English month name by its number.
It detects an era prefix and the end-of-month marker 末日, and splits the text into digit runs.
It then decides from a decision table which digits are the year, the month and the day.
A short year is read as Western or Reiwa, whichever is nearer a reference date.
The last step checks the date against the Gregorian calendar.

The model also covers:
- the era table;
- the immutable number token and its factory overloads;
- the null/blank string helpers;
- the pure helpers of the CSV converter: splitting and writing one CSV line, tidying OCR'd dates and column labels, and printing a parsed date as `yyyyMM`.

Modules follow the pipeline:
- `JavaText`: Java `String` and `Integer` semantics;
- `Calendar`, `GengoYearTable`, `AIReadEEUtil`, `NumberTokens`;
- `DateNormalize`, `EnglishMonth`, `DateDetect`, `DateTokenize`, `YearChoice` and `DateReconstruct`: the stages;
- `DateParser`;
- `CsvDateConverter`.

Where the source works by loops, the model has a method with loop invariants proved equal to a specification function. Those are `ToHalfLowerCase`, `ReplaceFullToHalf`, `ReplaceEnglishMonthToNumber`, `TokenizeWithNumber`, the fallback loops of `ParseInner`, `parseCsvLine`, `convertToCsvLine` and the `CreateArray` overloads.

Every Java exception inside `ParseInner` becomes "no date", as the catch in `Parse` turns it into a format error. This covers a `parseInt` overflow, a bad `substring` or `delete`, and the `YearMonth` and `DateTime` constructors.

`CalcStart3WordNenAndMonthByNearNow` follows the code rather than its intent. The code copies the one-digit candidates into the two-digit ones and compares signed differences. So a three-digit run without an era is always Reiwa, and is never chosen by nearest distance.

## Model

| member | source | states |
|---|---|---|
| JavaText.ParseInt | src/main/java/co/jp/ariseinnovation/AIReadR/Util/NumberToken.java:28 | `Integer.parseInt`: fails on the empty string, succeeds on every digit string whose value fits in an `int`, and then gives that value |
| JavaText.ParseIntRoundTrip | src/main/java/co/jp/ariseinnovation/AIReadR/Util/NumberToken.java:16-20 | `parseInt(String.valueOf(n)) == n` for every `int` n, so a token built from an int has a digit string that reads back as the same int |
| JavaText.ShortDigitsParse | src/main/java/co/jp/ariseinnovation/AIReadR/Util/DateParser.java:700-701 | one to nine ASCII digits always parse, to the value they denote, so these `parseInt` calls cannot throw |
| JavaText.NatToString | src/main/java/co/jp/ariseinnovation/AIReadR/Util/NumberToken.java:18 | the decimal form of a natural number is non-empty, all digits, and has no leading zero |
| JavaText.Wrap32 | src/main/java/co/jp/ariseinnovation/AIReadR/Util/DateParser.java:635 | Java `int` addition wraps modulo 2^32 and changes nothing in range |
| JavaText.Substring | src/main/java/co/jp/ariseinnovation/AIReadR/Util/DateParser.java:700-701 | `substring(b, e)` succeeds exactly when 0 <= b <= e <= length, and gives the characters b..e |
| JavaText.SubstringFrom | src/main/java/co/jp/ariseinnovation/AIReadR/Util/DateParser.java:192 | `substring(b)` succeeds exactly when 0 <= b <= length, and gives the tail from b |
| JavaText.DeleteStr | src/main/java/co/jp/ariseinnovation/AIReadR/Util/DateParser.java:940-943 | `deleteStr` fails exactly when start is outside 0..length or count is negative; otherwise it removes count characters from start, clamped to the end of the text |
| JavaText.Trim | src/main/java/co/jp/ariseinnovation/AIReadR/Util/DateParser.java:850 | `trim` gives the empty string exactly when every character is at most U+0020; otherwise it starts and ends with a kept character and is a slice of the text |
| JavaText.ContainsIff | src/main/java/co/jp/ariseinnovation/AIReadR/Util/NumberToken.java:58 | `contains` holds exactly when the pattern occurs at some index |
| JavaText.ReplaceAbsent | src/main/java/co/jp/ariseinnovation/AIReadR/Util/DateParser.java:780 | `replace` of a pattern that does not occur changes nothing |
| JavaText.ReplaceLeavesNoOccurrence | src/main/java/co/jp/ariseinnovation/AIReadR/Util/DateParser.java:778-781 | after `replace`, a key that was the pattern or was absent does not occur, provided its characters are not in the replacement |
| JavaText.ReplaceCharByNothing | src/main/java/co/jp/ariseinnovation/AIReadR/Util/CsvDateConverter.java:150 | `replace(c, "")` with one character is the text with that character removed |
| JavaText.ReplaceCharByChar | src/main/java/co/jp/ariseinnovation/AIReadR/Util/CsvDateConverter.java:188 | `replace(c, d)` maps every c to d and changes nothing else |
| JavaText.RemoveChar | src/main/java/co/jp/ariseinnovation/AIReadR/Util/CsvDateConverter.java:150 | removing a character leaves none of it, and every remaining character comes from the input |
| JavaText.MapChar | src/main/java/co/jp/ariseinnovation/AIReadR/Util/CsvDateConverter.java:188 | mapping c to d keeps the length, leaves no c (when c differs from d), and introduces no character but d |
| JavaText.PadZerosValue | src/main/java/co/jp/ariseinnovation/AIReadR/Util/CsvDateConverter.java:24 | zero-padding a digit string to a width keeps it all digits and keeps its value |
| Calendar.DaysInMonth | src/main/java/co/jp/ariseinnovation/AIReadR/Util/DateParser.java:654-655 | the length of a month is 28 to 31; February has 29 days exactly in Gregorian leap years; the 30-day months are April, June, September and November |
| GengoYearTable.FirstYears | src/main/java/co/jp/ariseinnovation/AIReadR/Util/GengoYearTable.java:11-26 | year 1 of Meiji, Taisho, Showa, Heisei and Reiwa is 1868, 1912, 1926, 1989 and 2019, and `REIWA_YEAR_ADDITION` is Reiwa's offset |
| GengoYearTable.AbbreviationsShareOffsets | src/main/java/co/jp/ariseinnovation/AIReadR/Util/GengoYearTable.java:29-34 | each Latin letter carries its era's offset; R and L are both Reiwa |
| GengoYearTable.TableLayout | src/main/java/co/jp/ariseinnovation/AIReadR/Util/GengoYearTable.java:37-40 | the table has eleven entries: the five two-kanji names, then the six one-letter forms |
| AIReadEEUtil.IsNullOrWhiteSpace | src/main/java/co/jp/ariseinnovation/AIReadEE/AIReadEEUtil.java:22-24 | blank exactly when null or made only of characters at most U+0020 |
| AIReadEEUtil.EmptyIsWhiteSpace | src/main/java/co/jp/ariseinnovation/AIReadEE/AIReadEEUtil.java:13-24 | `isNullOrEmpty` (`IsNullOrEmpty`: null or of length zero) implies `isNullOrWhiteSpace` |
| AIReadEEUtil.IdeographicSpaceIsNotBlank | src/main/java/co/jp/ariseinnovation/AIReadEE/AIReadEEUtil.java:23 | text made only of U+3000 spaces is not blank, since `trim` leaves it |
| NumberTokens.OfInt | src/main/java/co/jp/ariseinnovation/AIReadR/Util/NumberToken.java:16-20 | the token of an int holds that int, no trailing text, and as its string `String.valueOf` of the int, which parses back to it |
| NumberTokens.OfIntCanonical | src/main/java/co/jp/ariseinnovation/AIReadR/Util/NumberToken.java:16-20 | that string is the canonical decimal form: a minus sign exactly for a negative value, then digits with no leading zero |
| NumberTokens.OfString | src/main/java/co/jp/ariseinnovation/AIReadR/Util/NumberToken.java:26-30 | the token of a string exists exactly when `parseInt` accepts it, keeps the string verbatim and holds its value |
| NumberTokens.OfStringWith | src/main/java/co/jp/ariseinnovation/AIReadR/Util/NumberToken.java:37-41 | as OfString, and the trailing text is kept as given |
| NumberTokens.LeadingZerosKept | src/main/java/co/jp/ariseinnovation/AIReadR/Util/NumberToken.java:26-30 | "05" keeps its leading zero in the string while its value is 5 |
| NumberTokens.DefaultIsZero | src/main/java/co/jp/ariseinnovation/AIReadR/Util/NumberToken.java:46-50 | the default token (0, "0", "") equals the token of the int 0 |
| NumberTokens.HasAfter | src/main/java/co/jp/ariseinnovation/AIReadR/Util/NumberToken.java:57-59 | true exactly when the word occurs somewhere in the trailing text |
| NumberTokens.CreateArrayOfInts | src/main/java/co/jp/ariseinnovation/AIReadR/Util/NumberToken.java:66-72 | a new array of the same length whose element i is the token of argument i |
| NumberTokens.CreateArrayOfStrings | src/main/java/co/jp/ariseinnovation/AIReadR/Util/NumberToken.java:79-85 | succeeds exactly when every string parses; then a new array whose element i is the token of string i |
| NumberTokens.CreateArrayOfTokens | src/main/java/co/jp/ariseinnovation/AIReadR/Util/NumberToken.java:92-94 | returns the argument array itself |
| NumberTokens.StrStrStr | src/main/java/co/jp/ariseinnovation/AIReadR/Util/NumberToken.java:79-85 | three strings give three tokens in argument order, keeping the strings; fails exactly when one does not parse |
| NumberTokens.StrStrInt | src/main/java/co/jp/ariseinnovation/AIReadR/Util/NumberToken.java:103-109 | two strings and an int give three tokens in argument order: each string kept verbatim with its `parseInt` value and no trailing text, then the token of the int; fails exactly when one of the two strings does not parse |
| NumberTokens.StrStrToken | src/main/java/co/jp/ariseinnovation/AIReadR/Util/NumberToken.java:118-124 | two strings and a token give three tokens: each string kept verbatim with its `parseInt` value and no trailing text, then the token itself, unchanged; fails exactly when one of the two strings does not parse |
| NumberTokens.TokenStrStr | src/main/java/co/jp/ariseinnovation/AIReadR/Util/NumberToken.java:163-169 | a token and two strings give three tokens: the token itself, unchanged, then each string kept verbatim with its `parseInt` value and no trailing text; fails exactly when one of the two strings does not parse |
| NumberTokens.CreateArrayStrStrInt | src/main/java/co/jp/ariseinnovation/AIReadR/Util/NumberToken.java:103-109 | a new three-element array holding exactly the row StrStrInt describes |
| NumberTokens.CreateArrayStrStrToken | src/main/java/co/jp/ariseinnovation/AIReadR/Util/NumberToken.java:118-124 | a new three-element array holding exactly the row StrStrToken describes |
| NumberTokens.CreateArrayTokenTokenInt | src/main/java/co/jp/ariseinnovation/AIReadR/Util/NumberToken.java:133-139 | a new array [first, second, token of third] |
| NumberTokens.CreateArrayIntTokenToken | src/main/java/co/jp/ariseinnovation/AIReadR/Util/NumberToken.java:148-154 | a new array [token of first, second, third] |
| NumberTokens.CreateArrayTokenStrStr | src/main/java/co/jp/ariseinnovation/AIReadR/Util/NumberToken.java:163-169 | a new three-element array holding exactly the row TokenStrStr describes |
| DateNormalize.LowerChar | src/main/java/co/jp/ariseinnovation/AIReadR/Util/DateParser.java:820 | lower-casing leaves no upper-case ASCII or full-width letter, maps those to lower case and keeps every other character |
| DateNormalize.HalfLowerChar | src/main/java/co/jp/ariseinnovation/AIReadR/Util/DateParser.java:823-831 | after lower-casing, full-width a-z become ASCII a-z; no upper-case or full-width letter remains; other characters are kept |
| DateNormalize.ToHalfLowerCase | src/main/java/co/jp/ariseinnovation/AIReadR/Util/DateParser.java:817-835 | the loop produces the character-wise map HalfLower, and its result holds no upper-case or full-width letter |
| DateNormalize.ReplaceFullToHalf | src/main/java/co/jp/ariseinnovation/AIReadR/Util/DateParser.java:775-783 | the loop over the table produces Normalized: HalfLower, then every table entry in insertion order |
| DateNormalize.TableWellShaped | src/main/java/co/jp/ariseinnovation/AIReadR/Util/DateParser.java:36-45 | every table key is non-empty and non-ASCII and every replacement is ASCII |
| DateNormalize.ApplyTableAscii | src/main/java/co/jp/ariseinnovation/AIReadR/Util/DateParser.java:778-781 | an all-ASCII text passes through the table unchanged |
| DateNormalize.LowerAsciiUnchanged | src/main/java/co/jp/ariseinnovation/AIReadR/Util/DateParser.java:775-783 | `ReplaceFullToHalf` (the function `Normalized`) leaves an ASCII text without capitals exactly as it is |
| DateNormalize.NoKeyRemains | src/main/java/co/jp/ariseinnovation/AIReadR/Util/DateParser.java:778-781 | after the table has run, none of its keys occurs in the text |
| DateNormalize.NormalizedHasNoKey | src/main/java/co/jp/ariseinnovation/AIReadR/Util/DateParser.java:775-783 | no text returned by `ReplaceFullToHalf` (the function `Normalized`) contains any table key |
| DateNormalize.AbsentStaysAbsent | src/main/java/co/jp/ariseinnovation/AIReadR/Util/DateParser.java:778-781 | a non-ASCII key absent from the text stays absent through the table |
| DateNormalize.FullWidthEraLettersAreDead | src/main/java/co/jp/ariseinnovation/AIReadR/Util/DateParser.java:44 | the four full-width era letter entries never fire: the normalisation equals the table without them, since lower-casing removed those letters |
| DateNormalize.TwentyOne | src/main/java/co/jp/ariseinnovation/AIReadR/Util/DateParser.java:38 | 二十一 normalises to "21", because the longer numerals come first |
| EnglishMonth.FindWord | src/main/java/co/jp/ariseinnovation/AIReadR/Util/DateParser.java:795-798 | the first position at or after `from` where the key occurs with no a-z letter on either side, or none when there is no such position |
| EnglishMonth.CountDigits | src/main/java/co/jp/ariseinnovation/AIReadR/Util/DateParser.java:802-803 | the number of ASCII digits, equal to the length exactly when the text is all digits |
| EnglishMonth.FirstEntry | src/main/java/co/jp/ariseinnovation/AIReadR/Util/DateParser.java:47-71 | the first dictionary entry at or after j whose key occurs as a whole word |
| EnglishMonth.ReplaceEnglishMonthToNumber | src/main/java/co/jp/ariseinnovation/AIReadR/Util/DateParser.java:790-810 | the loop returns exactly Spec: the first matching entry's replacement and information, or the text unchanged with the initial information |
| EnglishMonth.NoMonthMeansUnchanged | src/main/java/co/jp/ariseinnovation/AIReadR/Util/DateParser.java:790-810 | a month is found exactly when some key occurs as a whole word; otherwise the text and information are unchanged |
| EnglishMonth.FirstEntryWins | src/main/java/co/jp/ariseinnovation/AIReadR/Util/DateParser.java:791-808 | the first entry that occurs decides the month, even when a later one also occurs |
| EnglishMonth.KnownWordReplaced | src/main/java/co/jp/ariseinnovation/AIReadR/Util/DateParser.java:799-804 | in a text whose only letters are a key, the key becomes the month number and the digits on each side are counted |
| EnglishMonth.MonthWordGone | src/main/java/co/jp/ariseinnovation/AIReadR/Util/DateParser.java:790-810 | when a month is found, the key that matched no longer occurs as a whole word in the text `ReplaceEnglishMonthToNumber` (the function `Spec`) returns |
| EnglishMonth.ReplacedWordGone | src/main/java/co/jp/ariseinnovation/AIReadR/Util/DateParser.java:799-801 | `replaceAll` of a letter word by a letter-free replacement leaves no whole-word occurrence of it, from any position that is not inside a letter run |
| EnglishMonth.TwoMonthWords | src/main/java/co/jp/ariseinnovation/AIReadR/Util/DateParser.java:799-804 | with the month word twice, the digits counted before the month are those before the first occurrence, and those counted after it stop at the second occurrence |
| EnglishMonth.NoLettersUnchanged | src/main/java/co/jp/ariseinnovation/AIReadR/Util/DateParser.java:795-798 | a text with no lower-case letter is returned unchanged, with no month |
| EnglishMonth.UnknownWordUnchanged | src/main/java/co/jp/ariseinnovation/AIReadR/Util/DateParser.java:795-798 | a text whose only letters form a word that is no key is unchanged, with no month |
| EnglishMonth.KeysAreWords | src/main/java/co/jp/ariseinnovation/AIReadR/Util/DateParser.java:47-71 | every key is a non-empty run of lower-case letters |
| EnglishMonth.JanuaryExample | src/main/java/co/jp/ariseinnovation/AIReadR/Util/DateParser.java:790-810 | "2022/january/12" becomes "2022/01/12" with four digits before the month and two after |
| EnglishMonth.TwoJanuariesExample | src/main/java/co/jp/ariseinnovation/AIReadR/Util/DateParser.java:790-810 | "jan 2021 - jan 10" has month 01, no digit before it and four digits after it (up to the second "jan", not the six up to the end) |
| EnglishMonth.MisspeltExamples | src/main/java/co/jp/ariseinnovation/AIReadR/Util/DateParser.java:795-798 | "janary", "jjanuary", "januaryy", "my", "mmay" and "mayy" leave the text unchanged with no month |
| DateDetect.FirstEra | src/main/java/co/jp/ariseinnovation/AIReadR/Util/DateParser.java:844-845 | the first table entry at or after i whose name is a case-insensitive prefix of the text |
| DateDetect.FindGengo | src/main/java/co/jp/ariseinnovation/AIReadR/Util/DateParser.java:842-846 | some era is found exactly when some entry names a prefix, and the one found is the first such entry in table order |
| DateDetect.ReiwaPrefix | src/main/java/co/jp/ariseinnovation/AIReadR/Util/DateParser.java:842-846 | a text starting with 令和 is read as Reiwa |
| DateDetect.HasMatsujitsu | src/main/java/co/jp/ariseinnovation/AIReadR/Util/DateParser.java:848-852 | a text with the end-of-month marker contains 末, and a text whose last character is an ASCII digit never has the marker |
| DateDetect.NoEraBeforeDigit | src/main/java/co/jp/ariseinnovation/AIReadR/Util/DateParser.java:842-846 | a text that starts with an ASCII digit names no era |
| DateDetect.MatsujitsuExample | src/main/java/co/jp/ariseinnovation/AIReadR/Util/DateParser.java:848-852 | trailing blanks do not hide the marker in "2020年9月末日 " |
| DateTokenize.DigitRunEnd | src/main/java/co/jp/ariseinnovation/AIReadR/Util/DateParser.java:856 | the end of the maximal ASCII-digit run from i |
| DateTokenize.TextRunEnd | src/main/java/co/jp/ariseinnovation/AIReadR/Util/DateParser.java:856 | the end of the maximal non-digit run from i |
| DateTokenize.ParseAll | src/main/java/co/jp/ariseinnovation/AIReadR/Util/DateParser.java:858-860 | succeeds exactly when every digit run parses; then one token per group, in order, token i holding run i verbatim, its `parseInt` value and trailing text i |
| DateTokenize.TokenizeWithNumber | src/main/java/co/jp/ariseinnovation/AIReadR/Util/DateParser.java:854-863 | the loop produces `Tokens`: the parse of every (digit run, trailing text) group of the text |
| DateTokenize.RawFromCovers | src/main/java/co/jp/ariseinnovation/AIReadR/Util/DateParser.java:856-860 | the groups from a digit position concatenate back to the text from there, and are maximal runs |
| DateTokenize.TokensCoverInput | src/main/java/co/jp/ariseinnovation/AIReadR/Util/DateParser.java:854-863 | the groups concatenate to the input without its leading digit-free prefix |
| DateTokenize.NoTokensIffNoDigit | src/main/java/co/jp/ariseinnovation/AIReadR/Util/DateParser.java:126-129 | there are no tokens exactly when the text has no ASCII digit |
| DateTokenize.OneRunToken | src/main/java/co/jp/ariseinnovation/AIReadR/Util/DateParser.java:854-863 | a text of one to nine digits gives exactly one token: the digits, their value and no trailing text |
| DateTokenize.TwoRunTokens | src/main/java/co/jp/ariseinnovation/AIReadR/Util/DateParser.java:854-863 | `a p b` (digit runs around digit-free text) gives two tokens: a followed by p, then b followed by nothing |
| DateTokenize.ThreeRunTokens | src/main/java/co/jp/ariseinnovation/AIReadR/Util/DateParser.java:854-863 | `a p b q c` gives three tokens: a followed by p, b followed by q, c followed by nothing |
| DateTokenize.LeadingRun | src/main/java/co/jp/ariseinnovation/AIReadR/Util/DateParser.java:856-860 | a leading digit run and the digit-free text after it form the first group; the rest of the groups are those of the remaining text |
| DateTokenize.ShiftRaw | src/main/java/co/jp/ariseinnovation/AIReadR/Util/DateParser.java:856-860 | the groups found in a text from a digit position do not depend on what text comes before it |
| YearChoice.CalcNealyYearFromWarekiOrYear | src/main/java/co/jp/ariseinnovation/AIReadR/Util/DateParser.java:762-773 | the result is n+2018 or n+2000, and n+2018 exactly when that is strictly nearer the reference year |
| YearChoice.NearerYearOrder | src/main/java/co/jp/ariseinnovation/AIReadR/Util/DateParser.java:769-773 | `IsNearYearNowThan` is a strict comparison: no year is nearer than itself, of two years at most one is nearer, and the reference year is nearer than any other |
| YearChoice.NealyThreshold | src/main/java/co/jp/ariseinnovation/AIReadR/Util/DateParser.java:762-773 | Reiwa wins exactly when the reference year exceeds n+2009; the tie at n+2009 keeps n+2000 |
| YearChoice.GetNearYear | src/main/java/co/jp/ariseinnovation/AIReadR/Util/DateParser.java:679-686 | the reference year, or the year before exactly when the month is December and the reference month January |
| YearChoice.CalcStart3 | src/main/java/co/jp/ariseinnovation/AIReadR/Util/DateParser.java:697-755 | when `CalcStart3WordNenAndMonthByNearNow` succeeds, the text has at least three characters, the year is the value of its first character and the era is the known one, or Reiwa when none is known; the month is the parse of characters 1-2 with no era, and with an era the parse of characters 1-2 when the one-character era year is nearer the reference (`IsNearYearNowThan`) than the two-character one, otherwise of character 2 alone |
| YearChoice.Start3Total | src/main/java/co/jp/ariseinnovation/AIReadR/Util/DateParser.java:697-755 | on three ASCII digits none of the substring or parseInt calls can fail |
| YearChoice.Start3WithoutEraIsReiwa | src/main/java/co/jp/ariseinnovation/AIReadR/Util/DateParser.java:718-754 | with no era, three digits always read as Reiwa, first digit the year, the other two the month |
| YearChoice.Start3WithEraKeepsFirstDigit | src/main/java/co/jp/ariseinnovation/AIReadR/Util/DateParser.java:702-717 | with an era, three digits always succeed, the year is the first digit, the era is kept, and the month is the last two digits when the one-digit era year is nearer the reference than the two-digit one, otherwise the last digit alone |
| YearChoice.CollectYearHasFourDigits | src/main/java/co/jp/ariseinnovation/AIReadR/Util/DateParser.java:901-904 | `IsCollectYear(int)` holds for a natural number exactly when its decimal form has four digits |
| YearChoice.CollectDateIsLeapYearDay | src/main/java/co/jp/ariseinnovation/AIReadR/Util/DateParser.java:916-931 | `IsCollectDate` holds exactly when the month is 1..12 and the day exists in that month of a leap year |
| YearChoice.ValidDateIsCollect | src/main/java/co/jp/ariseinnovation/AIReadR/Util/DateParser.java:870-931 | every real date passes `IsCollectDate` and `IsCollectMonth`, both the int and the token overloads |
| DateReconstruct.SingleRun | src/main/java/co/jp/ariseinnovation/AIReadR/Util/DateParser.java:165-427 | one digit run gives a three-token row only when it has 2 to 8 digits, and only three digits can change the era; the reading of each length is stated by the lemmas below |
| DateReconstruct.FiveDigits | src/main/java/co/jp/ariseinnovation/AIReadR/Util/DateParser.java:230-261 | five digits give a row whose month is a real month, or with an English month a row whose day fits that month; the readings are stated by `FiveDigitsReadings` and `FiveDigitsWithEnglishMonth` |
| DateReconstruct.FiveDigitsReadings | src/main/java/co/jp/ariseinnovation/AIReadR/Util/DateParser.java:248-259 | five plain digits are accepted exactly when digits 1-2 or digits 2-3 are a month; they are eMMdd when digits 1-2 are a month, otherwise eeMMd |
| DateReconstruct.FiveDigitsWithEnglishMonth | src/main/java/co/jp/ariseinnovation/AIReadR/Util/DateParser.java:232-246 | with an English month, the three digits left once its two are deleted are accepted exactly when ydd or yyd gives a day that fits the month; the month is the English month, and the row is ydd when that day fits, otherwise yyd |
| DateReconstruct.SixDigits | src/main/java/co/jp/ariseinnovation/AIReadR/Util/DateParser.java:262-337 | six digits give a three-token row or fail; the readings are stated by `SixDigitsReadings` and `SixDigitsWithEnglishMonth` |
| DateReconstruct.TwoTokens | src/main/java/co/jp/ariseinnovation/AIReadR/Util/DateParser.java:429-494 | two digit runs give a three-token row or fail; the readings are stated by the `TwoRuns` lemmas below |
| DateReconstruct.ThreeTokens | src/main/java/co/jp/ariseinnovation/AIReadR/Util/DateParser.java:495-572 | three digit runs give a row that is a rearrangement of the same three tokens; the placements are stated by `ThreeRunsOrder` and `ThreeRunsEnglishMonth` |
| DateReconstruct.Rearrangements | src/main/java/co/jp/ariseinnovation/AIReadR/Util/DateParser.java:495-572 | every order of three tokens holds the same tokens |
| DateReconstruct.FourTokens | src/main/java/co/jp/ariseinnovation/AIReadR/Util/DateParser.java:573-626 | four digit runs give a row whose year is a four-digit year, and never with an era; the readings are stated by the `FourRuns` lemmas |
| DateReconstruct.FourRunsJoinYear | src/main/java/co/jp/ariseinnovation/AIReadR/Util/DateParser.java:580-625 | with no era and no English month, the year is `parseInt` of the first two runs written together, kept only when the first run is followed by blanks alone and the year has four digits; the last two runs are the month and the day |
| DateReconstruct.FourRunsEnglishMonth | src/main/java/co/jp/ariseinnovation/AIReadR/Util/DateParser.java:587-625 | with an English month in the two-digit third run the runs read as [yy, yy, MM, dd]; in the two-digit second run as [dd, MM, yy, yy]; anywhere else they are refused |
| DateReconstruct.FourRunsExample | src/main/java/co/jp/ariseinnovation/AIReadR/Util/DateParser.java:580-625 | the runs of "20 21/05/03" give the year 2021 with 05 and 03 as month and day |
| DateReconstruct.Reconstruct | src/main/java/co/jp/ariseinnovation/AIReadR/Util/DateParser.java:165-630 | a row comes only from one to four runs, and only a single run can change the era |
| DateReconstruct.EightDigitsAreYearMonthDay | src/main/java/co/jp/ariseinnovation/AIReadR/Util/DateParser.java:381-423 | eight plain digits read as yyyyMMdd |
| DateReconstruct.SevenDigitsAreYearMonthDay | src/main/java/co/jp/ariseinnovation/AIReadR/Util/DateParser.java:338-378 | seven plain digits read as yyyyMMd |
| DateReconstruct.SixDigitsReadings | src/main/java/co/jp/ariseinnovation/AIReadR/Util/DateParser.java:262-337 | six plain digits read as eeMMdd after an era; as yyyyMM with the end-of-month sign under 末日; otherwise as yyMMdd when the first two digits (as 20yy or Reiwa) are nearer the reference year than the first four, else as yyyyMM with no day |
| DateReconstruct.SixDigitsWithEnglishMonth | src/main/java/co/jp/ariseinnovation/AIReadR/Util/DateParser.java:262-337 | with an English month, six digits always give a row whose month is the English month; the four digits left once its two are deleted read as yyMMdd after an era, as yyyy with the end-of-month sign under 末日, otherwise as yy and dd when the first two are the nearer year, else as yyyy with no day |
| DateReconstruct.FourDigitsAreYearAndMonth | src/main/java/co/jp/ariseinnovation/AIReadR/Util/DateParser.java:216-229 | four plain digits read as yyMM (or eeMM) with no day |
| DateReconstruct.TwoDigitsAreEraYearAndMonth | src/main/java/co/jp/ariseinnovation/AIReadR/Util/DateParser.java:183-194 | two plain digits read as era year and month, the day the end-of-month sign or 1 |
| DateReconstruct.ThreeDigitsWithoutEraAreReiwa | src/main/java/co/jp/ariseinnovation/AIReadR/Util/DateParser.java:195-215 | three plain digits with no era succeed exactly when the last two are a month, and then read as Reiwa with no day |
| DateReconstruct.TwoRunsJoinedYearMonth | src/main/java/co/jp/ariseinnovation/AIReadR/Util/DateParser.java:455-459 | two runs without era or 末日 whose first is 10000 or more: its first four digits are the year, the rest the month, and the second run the day |
| DateReconstruct.TwoRunsWithMatsujitsu | src/main/java/co/jp/ariseinnovation/AIReadR/Util/DateParser.java:450-453 | two runs with 末日 are kept in order, the day being the end-of-month sign |
| DateReconstruct.TwoRunsJoinedEraYearMonth | src/main/java/co/jp/ariseinnovation/AIReadR/Util/DateParser.java:460-464 | two runs after an era, without 末日, whose first is 100 or more: its first digit is the era year, the rest the month, and the second run the day |
| DateReconstruct.TwoRunsJoinedMonthDay | src/main/java/co/jp/ariseinnovation/AIReadR/Util/DateParser.java:465-469 | two runs without 末日 whose first is no joined year and month and whose second is 100 or more: the first run is the year, and the second splits into a two-digit month and the day |
| DateReconstruct.TwoRunsYearMonth | src/main/java/co/jp/ariseinnovation/AIReadR/Util/DateParser.java:472-481 | [ee, MM] after an era, or [yyyy, MM] with no 日 in the text: the first of that month |
| DateReconstruct.TwoRunsMonthDay | src/main/java/co/jp/ariseinnovation/AIReadR/Util/DateParser.java:476-491 | with no era and a first run that is no year, [MM, dd] in the year `GetNearYear` picks exactly when the runs are followed by 月 and 日, or the month is plausible and the text has no 年; otherwise refused |
| DateReconstruct.ThreeRunsOrder | src/main/java/co/jp/ariseinnovation/AIReadR/Util/DateParser.java:560-572 | three runs without an English month keep their order, except [MM, dd, yyyy] (no era, only the last run a four-digit year) becomes [yyyy, MM, dd] |
| DateReconstruct.ThreeRunsEnglishMonth | src/main/java/co/jp/ariseinnovation/AIReadR/Util/DateParser.java:497-557 | with an English month, the first two-digit run the month can lie in is the month (the last run whenever it has two digits), the later of the two other runs is the year when it has four digits and the earlier one otherwise, the remaining run is the day; with no such run the runs are refused |
| DateReconstruct.RefusedShapes | src/main/java/co/jp/ariseinnovation/AIReadR/Util/DateParser.java:424-427 | four runs with an era, a single run outside 2..8 digits, and zero or more than four runs all fail |
| DateParser.ResolveYear | src/main/java/co/jp/ariseinnovation/AIReadR/Util/DateParser.java:633-650 | an era adds its offset; a four-digit or three-digit year is kept; a year below 100 becomes a year between 2000 and 2117 |
| DateParser.ShortYearReading | src/main/java/co/jp/ariseinnovation/AIReadR/Util/DateParser.java:637-650 | with an English month a short year becomes 20yy; otherwise Reiwa yy exactly when the reference year is past yy+2009 |
| DateParser.Finalize | src/main/java/co/jp/ariseinnovation/AIReadR/Util/DateParser.java:631-671 | a date is returned only if it is real and its year has four digits; its year is the resolved year, its month the row's; the day is the month's last day with the end-of-month marker, 1 when missing, else the row's; conversely, a resolved four-digit year with a real month and day is always returned |
| DateParser.MergeRuns | src/main/java/co/jp/ariseinnovation/AIReadR/Util/DateParser.java:136-162 | succeeds exactly when every trailing text is blank and the joined digits parse; then a single run of the joined digits |
| DateParser.JoinBlankRuns | src/main/java/co/jp/ariseinnovation/AIReadR/Util/DateParser.java:141-156 | the two loops compute MergeRuns |
| DateParser.ParseInnerSpec | src/main/java/co/jp/ariseinnovation/AIReadR/Util/DateParser.java:109-130 | an empty text gives no date; `ParsedDateIsValid`, `MatsujitsuIsLastDay` and the whole-text lemmas below state the rest |
| DateParser.FromText | src/main/java/co/jp/ariseinnovation/AIReadR/Util/DateParser.java:126-163 | a date not taken from the time-stamp parser is real, has a four-digit year, and is the last day of its month when the text ends in 末 or 末日; the lemmas below give the dates it returns for whole texts |
| DateParser.FromRuns | src/main/java/co/jp/ariseinnovation/AIReadR/Util/DateParser.java:165-671 | every date from the digit runs is real, has a four-digit year, and is the month's last day when the end-of-month marker is present |
| DateParser.ParseInner | src/main/java/co/jp/ariseinnovation/AIReadR/Util/DateParser.java:109-671 | the step-by-step method returns exactly ParseInnerSpec |
| DateParser.Parse | src/main/java/co/jp/ariseinnovation/AIReadR/Util/DateParser.java:77-107 | IllegalArgument exactly for a null text; a parsed date is ParseInner's result; a format error exactly when ParseInner gives none |
| DateParser.ParsedDateIsValid | src/main/java/co/jp/ariseinnovation/AIReadR/Util/DateParser.java:654-670 | every date that does not come from the time-stamp parser is real and has a four-digit year |
| DateParser.MatsujitsuIsLastDay | src/main/java/co/jp/ariseinnovation/AIReadR/Util/DateParser.java:652-657 | a text ending in 末 or 末日 gives the last day of its month |
| DateParser.NoDigitNoDate | src/main/java/co/jp/ariseinnovation/AIReadR/Util/DateParser.java:126-129 | a text with no ASCII digit once normalised gives no date |
| DateParser.FinalizePlainRow | src/main/java/co/jp/ariseinnovation/AIReadR/Util/DateParser.java:631-671 | with no era, English month or 末日, a row whose year and day are not negative gives exactly the real dates with a four-digit year, a year below 100 being first read as 20yy or Reiwa yy by nearness |
| DateParser.PlainRuns | src/main/java/co/jp/ariseinnovation/AIReadR/Util/DateParser.java:109-163 | a plain ASCII text that starts and ends with a digit and has one to four runs names no era, has no 末日, and goes straight to the ordering step |
| DateParser.EightDigitText | src/main/java/co/jp/ariseinnovation/AIReadR/Util/DateParser.java:109-671 | eight digits are exactly the date yyyyMMdd when it is real and has a four-digit year, and no date otherwise; a year below 100 ("00991231") is first read as 20yy or Reiwa yy, whichever is nearer the reference |
| DateParser.SeparatedDateText | src/main/java/co/jp/ariseinnovation/AIReadR/Util/DateParser.java:109-671 | three runs of one to nine digits separated by plain non-digit text are year, month and day, or month, day and year when only the last run is a four-digit year; a year below 100 is read by nearness; the date is returned exactly when it is real and its year has four digits |
| DateParser.MonthDayText | src/main/java/co/jp/ariseinnovation/AIReadR/Util/DateParser.java:109-671 | for a reference year of four digits above 1000, two runs of one or two digits separated by plain text are a month and a day in the year `GetNearYear` picks; the date is returned exactly when it is real |
| DateParser.EightDigitExample | src/main/java/co/jp/ariseinnovation/AIReadR/Util/DateParser.java:77-107 | "20180102" parses to 2 January 2018 for every reference date |
| DateParser.LeapDayExample | src/main/java/co/jp/ariseinnovation/AIReadR/Util/DateParser.java:77-107 | "2000/02/29" parses to 29 February 2000 for every reference date |
| DateParser.MissingLeapDayExample | src/main/java/co/jp/ariseinnovation/AIReadR/Util/DateParser.java:77-107 | "2001/02/29" is a format error |
| DateParser.MonthDayExample | src/main/java/co/jp/ariseinnovation/AIReadR/Util/DateParser.java:77-107 | read in January 2021, "01 10" parses to 10 January 2021 |
| DateParser.LastYearMonthDayExample | src/main/java/co/jp/ariseinnovation/AIReadR/Util/DateParser.java:77-107 | read in January 2021, "12 31" parses to 31 December 2020 |
| DateParser.ShortYearExample | src/main/java/co/jp/ariseinnovation/AIReadR/Util/DateParser.java:77-107 | read in 2025, "21/5/3" parses to 3 May 2021 |
| CsvDateConverter.SplitFields | src/main/java/co/jp/ariseinnovation/AIReadR/Util/CsvDateConverter.java:193-210 | `parseCsvLine` always returns at least one field |
| CsvDateConverter.ParseCsvLine | src/main/java/co/jp/ariseinnovation/AIReadR/Util/CsvDateConverter.java:193-210 | the loop returns exactly SplitFields |
| CsvDateConverter.FieldCount | src/main/java/co/jp/ariseinnovation/AIReadR/Util/CsvDateConverter.java:193-209 | the number of fields is the number of commas outside quotes plus one |
| CsvDateConverter.FieldsDropQuotes | src/main/java/co/jp/ariseinnovation/AIReadR/Util/CsvDateConverter.java:197-208 | no field keeps a quote, and the fields joined by commas are the line with its quotes removed |
| CsvDateConverter.ConvertToCsvLine | src/main/java/co/jp/ariseinnovation/AIReadR/Util/CsvDateConverter.java:212-224 | the loop returns exactly ToCsvLine: encoded fields separated by single commas |
| CsvDateConverter.EncodedQuotesPair | src/main/java/co/jp/ariseinnovation/AIReadR/Util/CsvDateConverter.java:212-224 | a field written by `convertToCsvLine` holds an even number of quotes: two around it and two for each of its own when it needs quoting, none otherwise |
| CsvDateConverter.Values | src/main/java/co/jp/ariseinnovation/AIReadR/Util/CsvDateConverter.java:216 | one text per field, a null field standing for the empty string |
| CsvDateConverter.RoundTrip | src/main/java/co/jp/ariseinnovation/AIReadR/Util/CsvDateConverter.java:193-224 | splitting a line written by `convertToCsvLine` (the function `ToCsvLine`, fields encoded by `EncodeField`) gives the fields back when none holds a quote, nulls as "" |
| CsvDateConverter.QuoteIsLost | src/main/java/co/jp/ariseinnovation/AIReadR/Util/CsvDateConverter.java:200-201 | a field `a"b` is written as `"a""b"` and read back as `ab` |
| CsvDateConverter.SplitFieldsQuoted | src/main/java/co/jp/ariseinnovation/AIReadR/Util/CsvDateConverter.java:193-210 | a reader that reads a doubled quote inside quotes as one quote returns at least one field |
| CsvDateConverter.QuotedRoundTrip | src/main/java/co/jp/ariseinnovation/AIReadR/Util/CsvDateConverter.java:212-224 | with that reader, every written line splits back into the fields it was written from, quotes, commas and line breaks included |
| CsvDateConverter.SplitsAgreeWithoutQuotes | src/main/java/co/jp/ariseinnovation/AIReadR/Util/CsvDateConverter.java:193-210 | on a line without quotes the corrected reader and `parseCsvLine` agree |
| CsvDateConverter.DotBeforeDot | src/main/java/co/jp/ariseinnovation/AIReadR/Util/CsvDateConverter.java:173 | replacing a dot that another dot follows by a dot leaves the text unchanged |
| CsvDateConverter.DropFinalDot | src/main/java/co/jp/ariseinnovation/AIReadR/Util/CsvDateConverter.java:174 | dropping one final dot (before an optional line terminator) removes at most one character and keeps any text that ends in another character |
| CsvDateConverter.OcrResultIsClean | src/main/java/co/jp/ariseinnovation/AIReadR/Util/CsvDateConverter.java:144-176 | the result of `normalizeOcrDateString` (the function `NormalizeOcrDateString`) holds no space of either width, no 年, 月 or 日, no slash and no hyphen |
| CsvDateConverter.EraTail | src/main/java/co/jp/ariseinnovation/AIReadR/Util/CsvDateConverter.java:159-174 | an era letter with three or four digits gets a dot after the two-digit era year and nothing else changes |
| CsvDateConverter.EraDigitsGetDot | src/main/java/co/jp/ariseinnovation/AIReadR/Util/CsvDateConverter.java:144-175 | "H106" becomes "H10.6" and "H1006" becomes "H10.06", for any of R, r, H, h, S, s |
| CsvDateConverter.SpacedEraDate | src/main/java/co/jp/ariseinnovation/AIReadR/Util/CsvDateConverter.java:144-175 | "H10 5" becomes "H10.5" |
| CsvDateConverter.LabelShape | src/main/java/co/jp/ariseinnovation/AIReadR/Util/CsvDateConverter.java:182-191 | `normalizeLabel` (the function `NormalizeLabel`) gives the empty string when the trim spells null in any case; otherwise the trim with ASCII spaces removed and full-width spaces turned into ASCII spaces, so no full-width space is left |
| CsvDateConverter.NormalizeLabelIntended | src/main/java/co/jp/ariseinnovation/AIReadR/Util/CsvDateConverter.java:187-189 | the corrected label holds neither ASCII nor full-width spaces |
| CsvDateConverter.LabelsAgreeWithoutFullWidthSpace | src/main/java/co/jp/ariseinnovation/AIReadR/Util/CsvDateConverter.java:182-191 | without a full-width space the label is the same under both definitions |
| CsvDateConverter.FullWidthSpaceBecomesSpace | src/main/java/co/jp/ariseinnovation/AIReadR/Util/CsvDateConverter.java:188-189 | "目標　" becomes "目標 " as written, "目標" as intended |
| CsvDateConverter.PaddedField | src/main/java/co/jp/ariseinnovation/AIReadR/Util/CsvDateConverter.java:24 | a value below 10^width prints as exactly width digits that denote it |
| CsvDateConverter.YearMonthText | src/main/java/co/jp/ariseinnovation/AIReadR/Util/CsvDateConverter.java:24 | a four-digit year and a month print as six digits, the year in the first four and the month in the last two |
| CsvDateConverter.ConvertWarekiToSeireki | src/main/java/co/jp/ariseinnovation/AIReadR/Util/CsvDateConverter.java:128-138 | null or blank gives null; otherwise there is a result exactly when the trimmed text parses |
| CsvDateConverter.ConvertedIsYearMonth | src/main/java/co/jp/ariseinnovation/AIReadR/Util/CsvDateConverter.java:128-138 | a converted date not taken from the time-stamp parser is six digits: the parsed year, then its month |

## Left out

- DateReconstruct.SingleRun: its own contract states only the row shape, the length range and when the era may change. The readings of two to eight plain digits, and of five and six digits with an English month, are separate lemmas. The readings of two, three, four, seven and eight digits with an English month are not stated as lemmas.
- DateReconstruct.TwoTokens: its own contract states only the row shape. The `TwoRuns` lemmas cover every branch without an English month. The branch that first moves an English month between the two runs (lines 434-448) is not stated as a lemma.
- The clock: `IfNullNowOrAsis` reads `DateTime.now()` on each call. The model reads it once, as the parameter `now`.
- The `yyyy/MM/dd HH:mm:ss.SSSSSS` time-stamp parser (Joda) is a function parameter `timestamp`, and its time of day is not kept. The date it returns is not range-checked, as in the source. So `DateParser.ParsedDateIsValid`, `DateParser.MatsujitsuIsLastDay`, `DateParser.FromText` and `CsvDateConverter.ConvertedIsYearMonth` exclude that result.
- Time zones and daylight-saving gaps at midnight in `new DateTime(y, m, d, 0, 0)`. A date is the triple (year, month, day).
- Full Unicode case mapping: lower-casing covers ASCII and full-width Latin letters only.
- Regular expressions are modelled as the specific scans they perform, not as a regex engine. These are the English-month word match, the digit-run tokenizer, the era prefix match and the OCR clean-ups.
- `DateParser.ParseInner` overwrites `orderedNumberTokens[0]` and `[2]` in place. The model computes the new row as a value (`Finalize`).
- JavaText.ParseInt: does not accept the non-ASCII Unicode digits Java's `parseInt` accepts; the tokenizer only ever passes ASCII digits.
- NumberTokens.HasAfter: a null `afterWord` cannot occur, because every constructor stores a non-null string, so it is not modelled.
- Logging and the debug print at the start of `ParseInner`.
- `CsvDateConverter.convertCsvDates` (file reading and writing) and `main`: I/O and command-line handling.
- `CsvWarekiConverter.java`, `DateParserSimpleTest.java` and `FormatException.java` are not part of this model. `FormatException` is the `FormatError` outcome of `DateParser.Parse`.

## Findings

| source | as written | input that shows it | evidently intended | confidence | as-written member | corrected member |
|---|---|---|---|---|---|---|
| src/main/java/co/jp/ariseinnovation/AIReadR/Util/CsvDateConverter.java:188-189 | a full-width space is turned into an ASCII space, and the following removal of full-width spaces finds none, so the ASCII space stays | `"目標　"` gives `"目標 "` (`trim` does not remove U+3000) | full-width spaces are removed, as the comment beside the two lines says, giving `"目標"` | not executed | CsvDateConverter.FullWidthSpaceBecomesSpace | CsvDateConverter.NormalizeLabelIntended |
| src/main/java/co/jp/ariseinnovation/AIReadR/Util/CsvDateConverter.java:200-201 | `parseCsvLine` only toggles on each quote, so it does not undo the quote doubling that `convertToCsvLine` applies at line 218 | the field `a"b` is written as `"a""b"` and read back as `ab` | a doubled quote inside quotes stands for one quote (RFC 4180, section 2, rule 7), so every written line reads back to its fields | not executed | CsvDateConverter.QuoteIsLost | CsvDateConverter.QuotedRoundTrip |
