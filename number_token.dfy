/** The immutable digit token the date parser works on: the `int` value, the digit
    string it was read from (leading zeros kept) and the text that followed it. */
module NumberTokens {
  import opened Wrappers
  import opened JavaText

  /** All three fields are immutable, as a datatype value is. */
  datatype NumberToken = NumberToken(token: Int32, tokenAsString: string, afterWord: string)

  /** `new NumberToken(int)`: the value, its decimal form (`String.valueOf`), no
      trailing text. */
  function OfInt(n: Int32): (t: NumberToken)
    ensures t.token == n && t.afterWord == ""
    ensures t.tokenAsString == IntToString(n)
    ensures ParseInt(t.tokenAsString) == Some(n)
  {
    ParseIntRoundTrip(n);
    NumberToken(n, IntToString(n), "")
  }

  /** The string of an int's token is canonical: a minus sign exactly for a
      negative value, then digits with no leading zero. */
  lemma OfIntCanonical(n: Int32)
    ensures var s := OfInt(n).tokenAsString;
      var digits := if n < 0 then s[1..] else s;
      |s| > 0 && (s[0] == '-' <==> n < 0) && AllDigits(digits) && (|digits| > 1 ==> digits[0] != '0')
  {
    if n < 0 {
      assert OfInt(n).tokenAsString[1..] == NatToString(-(n as int));
    }
  }

  /** `new NumberToken(String, String)`: keeps the string verbatim; throws (None)
      when `Integer.parseInt` does. */
  function OfStringWith(s: string, after: string): (r: Option<NumberToken>)
    ensures r.Some? <==> ParseInt(s).Some?
    ensures r.Some? ==> r.value.tokenAsString == s && r.value.afterWord == after
                        && Some(r.value.token) == ParseInt(s)
  {
    var v :- ParseInt(s);
    Some(NumberToken(v, s, after))
  }

  /** `new NumberToken(String)`. */
  function OfString(s: string): (r: Option<NumberToken>)
    ensures r.Some? <==> ParseInt(s).Some?
    ensures r.Some? ==> r.value.tokenAsString == s && r.value.afterWord == ""
                        && Some(r.value.token) == ParseInt(s)
  {
    OfStringWith(s, "")
  }

  /** `new NumberToken()`. */
  const Default: NumberToken := NumberToken(0, "0", "")

  /** A digit string keeps its leading zeros while its value drops them. */
  lemma LeadingZerosKept()
    ensures OfString("05") == Some(NumberToken(5, "05", ""))
  {
    assert DigitsValue("05") == 5 by {
      assert "05"[..1] == "0";
      assert "0"[..0] == "";
    }
  }

  /** The default token is the token of the integer 0. */
  lemma DefaultIsZero()
    ensures OfInt(0) == Default
  {
    assert NatToString(0) == "0";
  }

  /** `HasAfter(word)`: the trailing text contains `word` somewhere. */
  predicate HasAfter(t: NumberToken, word: string)
    ensures HasAfter(t, word) <==> exists i :: OccursAt(t.afterWord, word, i)
  {
    ContainsIff(t.afterWord, word);
    Contains(t.afterWord, word)
  }

  // ---------------------------------------------------------------- three-token rows
  // The parser always ends up with a [year, month, day] row built by one of the
  // `CreateArray` overloads below; these are the rows they fill, as values.

  /** `t` is what `new NumberToken(s)` builds: the string kept verbatim, its
      `parseInt` value, and no trailing text. */
  predicate ReadsAs(t: NumberToken, s: string) {
    t.tokenAsString == s && t.afterWord == "" && ParseInt(s) == Some(t.token)
  }

  /** The row `CreateArray(String, String, String)` fills. */
  function StrStrStr(first: string, second: string, third: string): (r: Option<seq<NumberToken>>)
    ensures r.Some? <==> ParseInt(first).Some? && ParseInt(second).Some? && ParseInt(third).Some?
    ensures r.Some? ==> (|r.value| == 3 && ReadsAs(r.value[0], first)
      && ReadsAs(r.value[1], second) && ReadsAs(r.value[2], third))
  {
    var a :- OfString(first);
    var b :- OfString(second);
    var c :- OfString(third);
    Some([a, b, c])
  }

  /** The row `CreateArray(String, String, int)` fills. */
  function StrStrInt(first: string, second: string, third: Int32): (r: Option<seq<NumberToken>>)
    ensures r.Some? <==> ParseInt(first).Some? && ParseInt(second).Some?
    ensures r.Some? ==> (|r.value| == 3 && ReadsAs(r.value[0], first)
      && ReadsAs(r.value[1], second) && r.value[2] == OfInt(third))
  {
    var a :- OfString(first);
    var b :- OfString(second);
    Some([a, b, OfInt(third)])
  }

  /** The row `CreateArray(String, String, NumberToken)` fills. */
  function StrStrToken(first: string, second: string, third: NumberToken): (r: Option<seq<NumberToken>>)
    ensures r.Some? <==> ParseInt(first).Some? && ParseInt(second).Some?
    ensures r.Some? ==> (|r.value| == 3 && ReadsAs(r.value[0], first)
      && ReadsAs(r.value[1], second) && r.value[2] == third)
  {
    var a :- OfString(first);
    var b :- OfString(second);
    Some([a, b, third])
  }

  /** The row `CreateArray(NumberToken, String, String)` fills. */
  function TokenStrStr(first: NumberToken, second: string, third: string): (r: Option<seq<NumberToken>>)
    ensures r.Some? <==> ParseInt(second).Some? && ParseInt(third).Some?
    ensures r.Some? ==> (|r.value| == 3 && r.value[0] == first
      && ReadsAs(r.value[1], second) && ReadsAs(r.value[2], third))
  {
    var b :- OfString(second);
    var c :- OfString(third);
    Some([first, b, c])
  }

  // ---------------------------------------------------------------- array factories

  /** `CreateArray(int...)`: a new array whose element i is built from argument i. */
  method CreateArrayOfInts(tokens: seq<Int32>) returns (result: array<NumberToken>)
    ensures fresh(result) && result.Length == |tokens|
    ensures forall i | 0 <= i < |tokens| :: result[i] == OfInt(tokens[i])
  {
    result := new NumberToken[|tokens|];
    for i := 0 to |tokens|
      invariant forall k | 0 <= k < i :: result[k] == OfInt(tokens[k])
    {
      var t := OfInt(tokens[i]);
      result[i] := t;
    }
  }

  /** `CreateArray(String...)`: the same for digit strings; the first string that
      `Integer.parseInt` rejects aborts the whole call (None). */
  method CreateArrayOfStrings(tokens: seq<string>) returns (result: Option<array<NumberToken>>)
    ensures result.Some? <==> forall i | 0 <= i < |tokens| :: ParseInt(tokens[i]).Some?
    ensures result.Some? ==> fresh(result.value) && result.value.Length == |tokens|
    ensures result.Some? ==> forall i | 0 <= i < |tokens| :: Some(result.value[i]) == OfString(tokens[i])
  {
    var a := new NumberToken[|tokens|];
    for i := 0 to |tokens|
      invariant forall k | 0 <= k < i :: ParseInt(tokens[k]).Some? && Some(a[k]) == OfString(tokens[k])
    {
      var t := OfString(tokens[i]);
      if t.None? {
        return None;
      }
      a[i] := t.value;
    }
    return Some(a);
  }

  /** `CreateArray(NumberToken...)`: the argument array itself, not a copy. */
  method CreateArrayOfTokens(tokens: array<NumberToken>) returns (result: array<NumberToken>)
    ensures result == tokens
  {
    result := tokens;
  }

  /** `CreateArray(String, String, int)`. */
  method CreateArrayStrStrInt(first: string, second: string, third: Int32)
    returns (result: Option<array<NumberToken>>)
    ensures result.Some? <==> ParseInt(first).Some? && ParseInt(second).Some?
    ensures result.Some? ==> fresh(result.value)
    ensures result.Some? ==> result.value[..] == StrStrInt(first, second, third).value
  {
    var a := OfString(first);
    var b := OfString(second);
    if a.None? || b.None? {
      return None;
    }
    var arr := new NumberToken[3] [a.value, b.value, OfInt(third)];
    return Some(arr);
  }

  /** `CreateArray(String, String, NumberToken)`. */
  method CreateArrayStrStrToken(first: string, second: string, third: NumberToken)
    returns (result: Option<array<NumberToken>>)
    ensures result.Some? <==> ParseInt(first).Some? && ParseInt(second).Some?
    ensures result.Some? ==> fresh(result.value)
    ensures result.Some? ==> result.value[..] == StrStrToken(first, second, third).value
  {
    var a := OfString(first);
    var b := OfString(second);
    if a.None? || b.None? {
      return None;
    }
    var arr := new NumberToken[3] [a.value, b.value, third];
    return Some(arr);
  }

  /** `CreateArray(NumberToken, NumberToken, int)`. */
  method CreateArrayTokenTokenInt(first: NumberToken, second: NumberToken, third: Int32)
    returns (result: array<NumberToken>)
    ensures fresh(result)
    ensures result[..] == [first, second, OfInt(third)]
  {
    result := new NumberToken[3] [first, second, OfInt(third)];
  }

  /** `CreateArray(int, NumberToken, NumberToken)`. */
  method CreateArrayIntTokenToken(first: Int32, second: NumberToken, third: NumberToken)
    returns (result: array<NumberToken>)
    ensures fresh(result)
    ensures result[..] == [OfInt(first), second, third]
  {
    result := new NumberToken[3] [OfInt(first), second, third];
  }

  /** `CreateArray(NumberToken, String, String)`. */
  method CreateArrayTokenStrStr(first: NumberToken, second: string, third: string)
    returns (result: Option<array<NumberToken>>)
    ensures result.Some? <==> ParseInt(second).Some? && ParseInt(third).Some?
    ensures result.Some? ==> fresh(result.value)
    ensures result.Some? ==> result.value[..] == TokenStrStr(first, second, third).value
  {
    var b := OfString(second);
    var c := OfString(third);
    if b.None? || c.None? {
      return None;
    }
    var arr := new NumberToken[3] [first, b.value, c.value];
    return Some(arr);
  }
}
