/** Null/blank tests on Java strings; a Java `null` is `None`. */
module AIReadEEUtil {
  import opened Wrappers
  import opened JavaText

  /** `isNullOrEmpty`: null or of length zero. */
  predicate IsNullOrEmpty(s: Option<string>) {
    s == None || s.value == ""
  }

  /** `isNullOrWhiteSpace`: null, or empty once `trim` has removed every leading and
      trailing character up to U+0020; that is, made only of such characters. */
  predicate IsNullOrWhiteSpace(s: Option<string>)
    ensures IsNullOrWhiteSpace(s) <==> s.None? || forall k | 0 <= k < |s.value| :: s.value[k] <= ' '
  {
    s == None || Trim(s.value) == ""
  }

  /** An empty string is also blank. */
  lemma EmptyIsWhiteSpace(s: Option<string>)
    ensures IsNullOrEmpty(s) ==> IsNullOrWhiteSpace(s)
  {
  }

  /** `trim` does not strip U+3000 (the ideographic space), so text made only of
      ideographic spaces is not blank. */
  lemma IdeographicSpaceIsNotBlank(s: string)
    requires |s| > 0 && forall k | 0 <= k < |s| :: s[k] == '　'
    ensures !IsNullOrWhiteSpace(Some(s))
  {
    assert !IsTrimmable(s[0]);
  }
}
