/** int.Parse / int.TryParse (NumberStyles.Integer) and bool.TryParse, as the
    descriptor uses them, with the renderings they invert. */
module Numbers {
  import opened Outcomes
  import opened Strings

  /** The white space NumberStyles.AllowLeadingWhite and AllowTrailingWhite accept:
      U+0009 to U+000D and U+0020 (narrower than Char.IsWhiteSpace). */
  predicate IsNumberWhite(c: char)
  {
    c == ' ' || ('\t' <= c <= '\r')
  }

  predicate IsDigit(c: char)
  {
    '0' <= c <= '9'
  }

  function DigitValue(c: char): (d: nat)
    requires IsDigit(c)
    ensures d < 10
  {
    (c as int) - ('0' as int)
  }

  /** The value of a string of decimal digits, most significant first. */
  function DigitsValue(s: string): nat
    requires AllSatisfy(s, IsDigit)
  {
    if s == [] then 0 else DigitsValue(s[..|s| - 1]) * 10 + DigitValue(s[|s| - 1])
  }

  /** int.Parse / int.TryParse with NumberStyles.Integer: optional number white space,
      an optional sign, one or more ASCII digits, optional number white space.
      None is the FormatException (or TryParse's false). */
  function ParseInt(s: string): Option<int>
  {
    ParseSigned(TrimBy(s, IsNumberWhite))
  }

  /** The trimmed text: an optional sign, then the digits. */
  function ParseSigned(t: string): Option<int>
  {
    if |t| > 0 && (t[0] == '-' || t[0] == '+') then
      match ParseDigits(t[1..])
      case None => None
      case Some(v) => var k: int := v; Some(if t[0] == '-' then -k else k)
    else ParseDigits(t)
  }

  /** One or more ASCII digits and nothing else. */
  function ParseDigits(d: string): Option<nat>
  {
    if |d| > 0 && AllSatisfy(d, IsDigit) then Some(DigitsValue(d)) else None
  }

  function DigitChar(d: nat): (c: char)
    requires d < 10
    ensures IsDigit(c) && DigitValue(c) == d
  {
    ('0' as int + d) as char
  }

  /** The decimal rendering of n, without leading zeros. */
  function NatToString(n: nat): (r: string)
    ensures |r| > 0 && AllSatisfy(r, IsDigit)
  {
    if n < 10 then [DigitChar(n)] else NatToString(n / 10) + [DigitChar(n % 10)]
  }

  /** int.ToString(): the decimal rendering of n, with a leading '-' when it is negative. */
  function IntToString(n: int): (r: string)
    ensures |r| > 0 && IsDigit(r[|r| - 1])
    ensures r[0] == '-' || IsDigit(r[0])
  {
    if n < 0 then "-" + NatToString(-n) else NatToString(n)
  }

  lemma {:induction false} DigitsValueOfNatToString(n: nat)
    ensures DigitsValue(NatToString(n)) == n
  {
    if n >= 10 {
      var s := NatToString(n);
      assert s[..|s| - 1] == NatToString(n / 10);
      DigitsValueOfNatToString(n / 10);
    }
  }

  lemma ParseDigitsOfNatToString(n: nat)
    ensures ParseDigits(NatToString(n)) == Some(n)
  {
    DigitsValueOfNatToString(n);
  }

  /** The sign and the digits of int.ToString read back as the integer. */
  lemma ParseSignedOfIntToString(n: int)
    ensures ParseSigned(IntToString(n)) == Some(n)
  {
    var s := IntToString(n);
    if n < 0 {
      TailOfCons('-', NatToString(-n));
      ParseDigitsOfNatToString(-n);
    } else {
      ParseDigitsOfNatToString(n);
    }
  }

  /** int.Parse undoes int.ToString, with any number white space around it. */
  lemma ParsePaddedIntToString(w1: string, n: int, w2: string)
    requires AllSatisfy(w1, IsNumberWhite) && AllSatisfy(w2, IsNumberWhite)
    ensures ParseInt(w1 + IntToString(n) + w2) == Some(n)
  {
    TrimOfPadded(w1, IntToString(n), w2, IsNumberWhite);
    ParseSignedOfIntToString(n);
  }

  /** int.Parse undoes int.ToString. */
  lemma ParseIntOfIntToString(n: int)
    ensures ParseInt(IntToString(n)) == Some(n)
  {
    TrimOfUnpadded(IntToString(n), IsNumberWhite);
    ParseSignedOfIntToString(n);
  }

  /** Digits with anything else among them are not a number. */
  lemma ParseDigitsRejects(d: string, k: nat)
    requires k < |d| && !IsDigit(d[k])
    ensures ParseDigits(d) == None
  {
  }

  /** A character that is not a digit after the first position rules out a number,
      with or without a sign. */
  lemma ParseSignedRejects(t: string, k: nat)
    requires 1 <= k < |t| && !IsDigit(t[k])
    ensures ParseSigned(t) == None
  {
    ParseDigitsRejects(t, k);
    assert t[1..][k - 1] == t[k];
    ParseDigitsRejects(t[1..], k - 1);
  }

  /** A number followed by white space and a word is not an integer: int.Parse
      does not skip white space inside the text. */
  lemma ParseIntRejectsNumberWithWord(n: int, w: string, word: string)
    requires |w| > 0 && AllSatisfy(w, IsNumberWhite)
    requires |word| > 0 && !IsNumberWhite(word[|word| - 1])
    ensures ParseInt(IntToString(n) + w + word) == None
  {
    var digits := IntToString(n);
    var s := digits + w + word;
    var p := |digits|;
    assert s[0] == digits[0] && s[p] == w[0] && s[|s| - 1] == word[|word| - 1];
    TrimOfUnpadded(s, IsNumberWhite);
    ParseSignedRejects(s, p);
  }

  function ToLowerAscii(c: char): char
  {
    if 'A' <= c <= 'Z' then (c as int + 32) as char else c
  }

  /** StringComparison.OrdinalIgnoreCase, for ASCII letters. */
  predicate EqualsIgnoreCase(a: string, b: string)
  {
    |a| == |b| && forall i :: 0 <= i < |a| ==> ToLowerAscii(a[i]) == ToLowerAscii(b[i])
  }

  predicate IsWhiteSpaceOrNull(c: char)
  {
    IsWhiteSpace(c) || c == '\0'
  }

  /** bool.TryParse: after trimming white space and NUL characters, "True" or "False"
      in any case; None (TryParse's false) for anything else and for null. */
  function TryParseBool(s: Option<string>): Option<bool>
  {
    if s.None? then None
    else
      var t := TrimBy(s.value, IsWhiteSpaceOrNull);
      if EqualsIgnoreCase(t, "True") then Some(true)
      else if EqualsIgnoreCase(t, "False") then Some(false)
      else None
  }

  /** bool.ToString(). */
  function BoolToString(b: bool): string
  {
    if b then "True" else "False"
  }

  /** The words bool.TryParse accepts, compared letter by letter. */
  lemma BoolWords()
    ensures EqualsIgnoreCase("True", "True") && EqualsIgnoreCase("true", "True")
    ensures EqualsIgnoreCase("False", "False") && EqualsIgnoreCase("false", "False")
    ensures !EqualsIgnoreCase("False", "True") && !EqualsIgnoreCase("false", "True")
  {
    assert ToLowerAscii('T') == 't' && ToLowerAscii('F') == 'f';
    assert ToLowerAscii('r') == 'r' && ToLowerAscii('u') == 'u' && ToLowerAscii('e') == 'e';
    assert ToLowerAscii('a') == 'a' && ToLowerAscii('l') == 'l' && ToLowerAscii('s') == 's';
  }

  /** bool.TryParse undoes bool.ToString, also in lower case and with any padding. */
  lemma TryParseBoolOfBoolToString(w1: string, b: bool, w2: string)
    requires AllSatisfy(w1, IsWhiteSpaceOrNull) && AllSatisfy(w2, IsWhiteSpaceOrNull)
    ensures TryParseBool(Some(w1 + BoolToString(b) + w2)) == Some(b)
    ensures TryParseBool(Some(w1 + (if b then "true" else "false") + w2)) == Some(b)
  {
    BoolWords();
    var word := BoolToString(b);
    var lower := if b then "true" else "false";
    assert !IsWhiteSpaceOrNull(word[0]) && !IsWhiteSpaceOrNull(word[|word| - 1]);
    assert !IsWhiteSpaceOrNull(lower[0]) && !IsWhiteSpaceOrNull(lower[|lower| - 1]);
    TrimOfPadded(w1, word, w2, IsWhiteSpaceOrNull);
    TrimOfPadded(w1, lower, w2, IsWhiteSpaceOrNull);
  }

  /** "true1" is not a boolean. */
  lemma TryParseBoolRejectsTrue1()
    ensures TryParseBool(Some("true1")) == None
  {
    var w := "true1";
    assert !IsWhiteSpaceOrNull(w[0]) && !IsWhiteSpaceOrNull(w[|w| - 1]);
    TrimOfPadded([], w, [], IsWhiteSpaceOrNull);
    assert [] + w + [] == w;
    assert ToLowerAscii(w[0]) == 't' && ToLowerAscii('F') == 'f';
    assert !EqualsIgnoreCase(w, "False");
  }
}
