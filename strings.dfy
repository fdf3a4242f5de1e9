/** The .NET string operations the descriptor relies on: Char.IsWhiteSpace,
    Trim, StartsWith, EndsWith. */
module Strings {

  /** Char.IsWhiteSpace: the Unicode space, line and paragraph separators,
      U+0009 to U+000D and U+0085. */
  predicate IsWhiteSpace(c: char)
  {
    || c == ' ' || ('\t' <= c <= '\r') || c == '\U{85}' || c == '\U{A0}' || c == '\U{1680}'
    || ('\U{2000}' <= c <= '\U{200A}') || c == '\U{2028}' || c == '\U{2029}'
    || c == '\U{202F}' || c == '\U{205F}' || c == '\U{3000}'
  }

  predicate AllSatisfy(s: string, p: char -> bool)
  {
    forall i :: 0 <= i < |s| ==> p(s[i])
  }

  /** Drops the leading characters that satisfy p. */
  function TrimStartBy(s: string, p: char -> bool): (r: string)
    ensures |r| <= |s| && r == s[|s| - |r|..]
    ensures r == [] || !p(r[0])
    ensures AllSatisfy(s[..|s| - |r|], p)
  {
    if |s| > 0 && p(s[0]) then TrimStartBy(s[1..], p) else s
  }

  /** Drops the trailing characters that satisfy p. */
  function TrimEndBy(s: string, p: char -> bool): (r: string)
    ensures |r| <= |s| && r == s[..|r|]
    ensures r == [] || !p(r[|r| - 1])
    ensures AllSatisfy(s[|r|..], p)
  {
    if |s| > 0 && p(s[|s| - 1]) then TrimEndBy(s[..|s| - 1], p) else s
  }

  /** Drops the leading and the trailing characters that satisfy p. */
  function TrimBy(s: string, p: char -> bool): (r: string)
    ensures r == [] || (!p(r[0]) && !p(r[|r| - 1]))
  {
    TrimEndBy(TrimStartBy(s, p), p)
  }

  /** string.Trim(). */
  function Trim(s: string): string
  {
    TrimBy(s, IsWhiteSpace)
  }

  /** Ordinal string.StartsWith. */
  predicate StartsWith(s: string, prefix: string)
  {
    |prefix| <= |s| && s[..|prefix|] == prefix
  }

  /** Ordinal string.EndsWith. */
  predicate EndsWith(s: string, suffix: string)
  {
    |suffix| <= |s| && s[|s| - |suffix|..] == suffix
  }

  lemma {:induction false} TrimStartOfPadded(w: string, x: string, p: char -> bool)
    requires AllSatisfy(w, p)
    requires x == [] || !p(x[0])
    ensures TrimStartBy(w + x, p) == x
  {
    if w == [] {
      assert w + x == x;
    } else {
      assert (w + x)[1..] == w[1..] + x;
      TrimStartOfPadded(w[1..], x, p);
    }
  }

  lemma {:induction false} TrimEndOfPadded(x: string, w: string, p: char -> bool)
    requires AllSatisfy(w, p)
    requires x == [] || !p(x[|x| - 1])
    ensures TrimEndBy(x + w, p) == x
  {
    if w == [] {
      assert x + w == x;
    } else {
      assert (x + w)[..|x + w| - 1] == x + w[..|w| - 1];
      TrimEndOfPadded(x, w[..|w| - 1], p);
    }
  }

  /** Trimming w1 + m + w2 yields m whenever the padding is all trimmed characters and m
      neither starts nor ends with one: trimming finds exactly the core of a padded text. */
  lemma TrimOfPadded(w1: string, m: string, w2: string, p: char -> bool)
    requires AllSatisfy(w1, p) && AllSatisfy(w2, p)
    requires m == [] || (!p(m[0]) && !p(m[|m| - 1]))
    ensures TrimBy(w1 + m + w2, p) == m
  {
    if m == [] {
      assert w1 + m + w2 == w1 + w2 + [];
      assert AllSatisfy(w1 + w2, p);
      TrimStartOfPadded(w1 + w2, [], p);
      assert TrimEndBy([], p) == [];
    } else {
      assert w1 + m + w2 == w1 + (m + w2);
      TrimStartOfPadded(w1, m + w2, p);
      TrimEndOfPadded(m, w2, p);
    }
  }

  /** A text that neither starts nor ends with a trimmed character is its own trim. */
  lemma TrimOfUnpadded(s: string, p: char -> bool)
    requires s == [] || (!p(s[0]) && !p(s[|s| - 1]))
    ensures TrimBy(s, p) == s
  {
    TrimOfPadded([], s, [], p);
    PadWithNothing(s);
  }

  /** Two suffixes of one string: the shorter is a suffix of the longer. */
  lemma SuffixesOfOneText(s: string, a: string, b: string)
    requires EndsWith(s, a) && EndsWith(s, b)
    ensures EndsWith(b, a) || EndsWith(a, b)
  {
    if |a| <= |b| {
      assert b[|b| - |a|..] == s[|s| - |a|..];
    } else {
      assert a[|a| - |b|..] == s[|s| - |b|..];
    }
  }

  /** Padding a sequence with nothing on both sides gives it back. */
  lemma PadWithNothing<T>(s: seq<T>)
    ensures [] + s + [] == s
  {
  }

  /** Five pieces, read with the middle three grouped. */
  lemma GroupMiddle<T>(a: seq<T>, b: seq<T>, c: seq<T>, d: seq<T>, e: seq<T>)
    ensures a + b + c + d + e == a + (b + c + d) + e
  {
  }

  /** Taking the front of x + k up to the length of x gives x. */
  lemma DropAppended<T>(x: seq<T>, k: seq<T>)
    ensures (x + k)[..|x + k| - |k|] == x
  {
  }

  /** Dropping the head of a sequence built from a head and a tail gives the tail. */
  lemma TailOfCons<T>(c: T, s: seq<T>)
    ensures ([c] + s)[1..] == s
  {
  }
}
