/** ServiceDescriptor.ParseTimeSpan and its Suffix table: a duration in
    milliseconds from a number with an optional unit. */
module Durations {
  import opened Outcomes
  import opened Strings
  import opened Numbers
  import opened Settings

  /** One entry of the Suffix table: a unit and its length in milliseconds. */
  datatype Unit = Unit(key: string, factor: nat)

  /** The Suffix table, in declaration order (the order its foreach visits it).
      The definitions below take the table as a parameter and ask only that its keys
      be disjoint, which this table is (SuffixKeysDisjoint). */
  const Suffix: seq<Unit> := [
    Unit("ms", 1),
    Unit("sec", 1000),
    Unit("secs", 1000),
    Unit("min", 1000 * 60),
    Unit("mins", 1000 * 60),
    Unit("hr", 1000 * 60 * 60),
    Unit("hrs", 1000 * 60 * 60),
    Unit("hour", 1000 * 60 * 60),
    Unit("hours", 1000 * 60 * 60),
    Unit("day", 1000 * 60 * 60 * 24),
    Unit("days", 1000 * 60 * 60 * 24)
  ]

  /** No key of the table ends with the key of a different entry. */
  predicate KeysDisjoint(table: seq<Unit>)
  {
    forall i, j :: 0 <= i < |table| && 0 <= j < |table| && table[i] != table[j] ==> !EndsWith(table[i].key, table[j].key)
  }

  lemma LastCharOfSuffix(a: string, b: string)
    ensures EndsWith(a, b) && |b| > 0 ==> a[|a| - 1] == b[|b| - 1]
  {
    if EndsWith(a, b) && |b| > 0 {
      assert a[|a| - |b|..] == b;
    }
  }

  /** A text does not end with a longer text, nor with one that differs from it k
      characters from the end. */
  lemma NotEndsWith(a: string, b: string, k: nat)
    requires |b| > |a| || (1 <= k <= |a| && k <= |b| && a[|a| - k] != b[|b| - k])
    ensures !EndsWith(a, b)
  {
    if |b| <= |a| {
      assert a[|a| - |b|..][|b| - k] == a[|a| - k];
    }
  }

  /** Keys i and j of the source's table, i among the first six, differ within their
      last three characters, or key j is the longer. */
  lemma SuffixPairDisjointLow(i: nat, j: nat)
    requires i < 6 && j < |Suffix| && Suffix[i] != Suffix[j]
    ensures !EndsWith(Suffix[i].key, Suffix[j].key)
  {
    var a, b := Suffix[i].key, Suffix[j].key;
    if |b| > |a| || a[|a| - 1] != b[|b| - 1] {
      NotEndsWith(a, b, 1);
    } else if a[|a| - 2] != b[|b| - 2] {
      NotEndsWith(a, b, 2);
    } else {
      NotEndsWith(a, b, 3);
    }
  }

  /** The same for the last five keys of the source's table. */
  lemma SuffixPairDisjointHigh(i: nat, j: nat)
    requires 6 <= i < |Suffix| && j < |Suffix| && Suffix[i] != Suffix[j]
    ensures !EndsWith(Suffix[i].key, Suffix[j].key)
  {
    var a, b := Suffix[i].key, Suffix[j].key;
    if |b| > |a| || a[|a| - 1] != b[|b| - 1] {
      NotEndsWith(a, b, 1);
    } else if a[|a| - 2] != b[|b| - 2] {
      NotEndsWith(a, b, 2);
    } else {
      NotEndsWith(a, b, 3);
    }
  }

  /** The source's table has disjoint keys: "secs" does not end with "sec" nor "hours"
      with "hour", so at most one key matches any text. */
  lemma SuffixKeysDisjoint()
    ensures KeysDisjoint(Suffix)
  {
    forall i, j | 0 <= i < |Suffix| && 0 <= j < |Suffix| && Suffix[i] != Suffix[j]
      ensures !EndsWith(Suffix[i].key, Suffix[j].key)
    {
      if i < 6 {
        SuffixPairDisjointLow(i, j);
      } else {
        SuffixPairDisjointHigh(i, j);
      }
    }
  }

  /** Every key of the source's table ends in a lower-case letter, so neither
      white space nor a digit. */
  lemma SuffixKeysEndInLetters()
    ensures forall i :: 0 <= i < |Suffix| ==> |Suffix[i].key| > 0 && !IsWhiteSpace(Suffix[i].key[|Suffix[i].key| - 1])
    ensures forall u :: u in Suffix ==> |u.key| > 0 && !IsDigit(u.key[|u.key| - 1])
  {
    forall i | 0 <= i < |Suffix| ensures |Suffix[i].key| > 0 && 'a' <= Suffix[i].key[|Suffix[i].key| - 1] <= 'z' {
    }
    forall u | u in Suffix ensures |u.key| > 0 && !IsDigit(u.key[|u.key| - 1]) {
      var i :| 0 <= i < |Suffix| && Suffix[i] == u;
    }
  }

  /** At most one entry of a table with disjoint keys matches any text. */
  lemma {:induction false} AtMostOneMatch(table: seq<Unit>, t: string, a: Unit, b: Unit)
    requires KeysDisjoint(table)
    requires a in table && b in table && EndsWith(t, a.key) && EndsWith(t, b.key)
    ensures a == b
  {
    var i :| 0 <= i < |table| && table[i] == a;
    var j :| 0 <= j < |table| && table[j] == b;
    SuffixesOfOneText(t, a.key, b.key);
  }

  /** TimeSpan.FromMilliseconds(int.Parse(text) * factor). */
  function Scaled(text: string, factor: nat): (r: Result<int, Error>)
    ensures r.Failure? <==> ParseInt(text).None?
    ensures r.Failure? ==> r.error == Format(text)
    ensures r.Success? ==> r.value == ParseInt(text).value * factor
  {
    match ParseInt(text)
    case None => Failure(Format(text))
    case Some(n) => Success(n * factor)
  }

  /** The duration in t read with unit u: the text before the key, trimmed, times the factor. */
  function WithUnit(t: string, u: Unit): Result<int, Error>
    requires EndsWith(t, u.key)
  {
    Scaled(Trim(t[..|t| - |u.key|]), u.factor)
  }

  /** The first entry of the table whose key the text ends with. */
  function FirstMatch(table: seq<Unit>, t: string): (r: Option<Unit>)
    ensures r.Some? ==> r.value in table && EndsWith(t, r.value.key)
  {
    if table == [] then None
    else if EndsWith(t, table[0].key) then Some(table[0])
    else FirstMatch(table[1..], t)
  }

  /** There is no first match exactly when no key matches. */
  lemma {:induction false} FirstMatchNone(table: seq<Unit>, t: string)
    ensures FirstMatch(table, t).None? <==> forall u :: u in table ==> !EndsWith(t, u.key)
  {
    if table != [] {
      FirstMatchNone(table[1..], t);
      assert forall u :: u in table <==> u == table[0] || u in table[1..];
    }
  }

  /** Entry k is the first match when no earlier key matches and its key does. */
  lemma {:induction false} FirstMatchAt(table: seq<Unit>, t: string, k: nat)
    requires k < |table| && EndsWith(t, table[k].key)
    requires forall j :: 0 <= j < k ==> !EndsWith(t, table[j].key)
    ensures FirstMatch(table, t) == Some(table[k])
  {
    if k > 0 {
      FirstMatchAt(table[1..], t, k - 1);
    }
  }

  /** No key matches any entry: there is no first match. */
  lemma {:induction false} FirstMatchAbsent(table: seq<Unit>, t: string)
    requires forall j :: 0 <= j < |table| ==> !EndsWith(t, table[j].key)
    ensures FirstMatch(table, t) == None
  {
    if table != [] {
      FirstMatchAbsent(table[1..], t);
    }
  }

  /** What ParseTimeSpan computes: the trimmed text read with the first entry whose key
      it ends with, or else as plain milliseconds. */
  function DurationWith(table: seq<Unit>, v: string): Result<int, Error>
  {
    var t := Trim(v);
    match FirstMatch(table, t)
    case Some(u) => WithUnit(t, u)
    case None => Scaled(t, 1)
  }

  /** The duration of v with the source's table. */
  function Duration(v: string): Result<int, Error>
  {
    DurationWith(Suffix, v)
  }

  /** ServiceDescriptor.ParseTimeSpan, walking the given table (the source passes Suffix):
      trims, returns at the first entry whose key the text ends with and otherwise reads
      the text as a plain millisecond count. */
  method ParseTimeSpan(table: seq<Unit>, v: string) returns (r: Result<int, Error>)
    ensures r == DurationWith(table, v)
  {
    var t := Trim(v);
    for k := 0 to |table|
      invariant forall j :: 0 <= j < k ==> !EndsWith(t, table[j].key)
    {
      var s := table[k];
      if EndsWith(t, s.key) {
        r := Scaled(Trim(t[..|t| - |s.key|]), s.factor);
        FirstMatchAt(table, t, k);
        return;
      }
    }
    r := Scaled(t, 1);
    FirstMatchAbsent(table, t);
  }

  /** With disjoint keys the order of the table does not matter: a text that ends with
      the key of any entry is read with that entry. */
  lemma DurationOfMatch(table: seq<Unit>, v: string, u: Unit)
    requires KeysDisjoint(table)
    requires u in table && EndsWith(Trim(v), u.key)
    ensures DurationWith(table, v) == WithUnit(Trim(v), u)
  {
    var t := Trim(v);
    FirstMatchNone(table, t);
    AtMostOneMatch(table, t, u, FirstMatch(table, t).value);
  }

  /** A text that ends with no key is read as plain milliseconds. */
  lemma DurationOfNoMatch(table: seq<Unit>, v: string)
    requires forall u :: u in table ==> !EndsWith(Trim(v), u.key)
    ensures DurationWith(table, v) == Scaled(Trim(v), 1)
  {
    FirstMatchNone(table, Trim(v));
  }

  /** Any two enumeration orders of the same entries give the same durations: the
      Dictionary's iteration order does not matter. */
  lemma DurationIgnoresOrder(t1: seq<Unit>, t2: seq<Unit>, v: string)
    requires KeysDisjoint(t1) && KeysDisjoint(t2)
    requires forall u :: u in t1 <==> u in t2
    ensures DurationWith(t1, v) == DurationWith(t2, v)
  {
    var t := Trim(v);
    if exists u :: u in t1 && EndsWith(t, u.key) {
      var u :| u in t1 && EndsWith(t, u.key);
      DurationOfMatch(t1, v, u);
      DurationOfMatch(t2, v, u);
    } else {
      DurationOfNoMatch(t1, v);
      DurationOfNoMatch(t2, v);
    }
  }

  lemma ScaledOfParsed(s: string, n: int, f: nat)
    requires ParseInt(s) == Some(n)
    ensures Scaled(s, f) == Success(n * f)
  {
  }

  lemma TrimOfNumberAndKey(w1: string, n: int, w2: string, key: string, w3: string)
    requires |key| > 0 && !IsWhiteSpace(key[|key| - 1])
    requires AllSatisfy(w1, IsWhiteSpace) && AllSatisfy(w2, IsWhiteSpace) && AllSatisfy(w3, IsWhiteSpace)
    ensures Trim(w1 + IntToString(n) + w2 + key + w3) == IntToString(n) + w2 + key
  {
    var m := IntToString(n) + w2 + key;
    GroupMiddle(w1, IntToString(n), w2, key, w3);
    assert m[0] == IntToString(n)[0];
    assert m[|m| - 1] == key[|key| - 1];
    TrimOfPadded(w1, m, w3, IsWhiteSpace);
  }

  lemma TrimOfNumber(w1: string, n: int, w2: string)
    requires AllSatisfy(w1, IsWhiteSpace) && AllSatisfy(w2, IsWhiteSpace)
    ensures Trim(w1 + IntToString(n) + w2) == IntToString(n)
  {
    var digits := IntToString(n);
    assert !IsWhiteSpace(digits[0]) && !IsWhiteSpace(digits[|digits| - 1]);
    TrimOfPadded(w1, digits, w2, IsWhiteSpace);
  }

  lemma WithUnitOfNumber(n: int, w2: string, u: Unit)
    requires |u.key| > 0
    requires AllSatisfy(w2, IsWhiteSpace)
    ensures EndsWith(IntToString(n) + w2 + u.key, u.key)
    ensures WithUnit(IntToString(n) + w2 + u.key, u) == Success(n * u.factor)
  {
    var m := IntToString(n) + w2 + u.key;
    DropAppended(IntToString(n) + w2, u.key);
    TrimOfNumber([], n, w2);
    assert [] + IntToString(n) + w2 == IntToString(n) + w2;
    ParseIntOfIntToString(n);
    ScaledOfParsed(IntToString(n), n, u.factor);
  }

  /** A number, optional white space and the key of a table entry, padded with white
      space, is that number times the entry's factor ("60sec", "20 min", " 3 hrs "),
      for every entry whose key ends in a character that is not white space. */
  lemma DurationOfNumberAndUnit(table: seq<Unit>, w1: string, n: int, w2: string, u: Unit, w3: string)
    requires KeysDisjoint(table) && u in table
    requires |u.key| > 0 && !IsWhiteSpace(u.key[|u.key| - 1])
    requires AllSatisfy(w1, IsWhiteSpace) && AllSatisfy(w2, IsWhiteSpace) && AllSatisfy(w3, IsWhiteSpace)
    ensures DurationWith(table, w1 + IntToString(n) + w2 + u.key + w3) == Success(n * u.factor)
  {
    var v := w1 + IntToString(n) + w2 + u.key + w3;
    TrimOfNumberAndKey(w1, n, w2, u.key, w3);
    WithUnitOfNumber(n, w2, u);
    DurationOfMatch(table, v, u);
  }

  lemma NoKeyMatchesNumber(table: seq<Unit>, n: int)
    requires forall u :: u in table ==> |u.key| > 0 && !IsDigit(u.key[|u.key| - 1])
    ensures forall u :: u in table ==> !EndsWith(IntToString(n), u.key)
  {
    var digits := IntToString(n);
    forall u | u in table ensures !EndsWith(digits, u.key) {
      LastCharOfSuffix(digits, u.key);
    }
  }

  /** A bare number, padded with white space, is that many milliseconds ("500"), when no
      key ends in a digit. */
  lemma DurationOfPlainNumber(table: seq<Unit>, w1: string, n: int, w2: string)
    requires forall u :: u in table ==> |u.key| > 0 && !IsDigit(u.key[|u.key| - 1])
    requires AllSatisfy(w1, IsWhiteSpace) && AllSatisfy(w2, IsWhiteSpace)
    ensures DurationWith(table, w1 + IntToString(n) + w2) == Success(n)
  {
    TrimOfNumber(w1, n, w2);
    NoKeyMatchesNumber(table, n);
    DurationOfNoMatch(table, w1 + IntToString(n) + w2);
    ParseIntOfIntToString(n);
    ScaledOfParsed(IntToString(n), n, 1);
  }

  /** A unit whose number is not an integer is a FormatException carrying the number's
      text: the trimmed text t without the key, trimmed again. */
  lemma DurationWithBadNumber(table: seq<Unit>, v: string, u: Unit, t: string, number: string)
    requires KeysDisjoint(table) && u in table
    requires t == Trim(v) && EndsWith(t, u.key)
    requires number == Trim(t[..|t| - |u.key|]) && ParseInt(number).None?
    ensures DurationWith(table, v) == Failure(Format(number))
  {
    DurationOfMatch(table, v, u);
    WithUnitOfBadNumber(t, u);
  }

  lemma WithUnitOfBadNumber(t: string, u: Unit)
    requires EndsWith(t, u.key) && ParseInt(Trim(t[..|t| - |u.key|])).None?
    ensures WithUnit(t, u) == Failure(Format(Trim(t[..|t| - |u.key|])))
  {
  }

  /** With the source's table: a number, optional white space and any key of the table
      read as that number times the key's factor. */
  lemma DurationOfSuffixEntry(v: string, w1: string, n: int, w2: string, i: nat, w3: string)
    requires i < |Suffix|
    requires AllSatisfy(w1, IsWhiteSpace) && AllSatisfy(w2, IsWhiteSpace) && AllSatisfy(w3, IsWhiteSpace)
    requires v == w1 + IntToString(n) + w2 + Suffix[i].key + w3
    ensures Duration(v) == Success(n * Suffix[i].factor)
  {
    SuffixKeysDisjoint();
    SuffixKeysEndInLetters();
    DurationOfNumberAndUnit(Suffix, w1, n, w2, Suffix[i], w3);
  }

  /** With the source's table: a bare number is that many milliseconds. */
  lemma DurationOfNumber(v: string, w1: string, n: int, w2: string)
    requires AllSatisfy(w1, IsWhiteSpace) && AllSatisfy(w2, IsWhiteSpace)
    requires v == w1 + IntToString(n) + w2
    ensures Duration(v) == Success(n)
  {
    SuffixKeysDisjoint();
    SuffixKeysEndInLetters();
    DurationOfPlainNumber(Suffix, w1, n, w2);
  }

  /** "60sec", the stop timeout one descriptor test reads. */
  lemma DurationOfSixtySec()
    ensures Duration("60sec") == Success(60 * 1000)
  {
    assert IntToString(60) == "60";
    DurationOfSuffixEntry("60sec", [], 60, [], 1, []);
  }

  /** "10min", the other stop timeout of the tests. */
  lemma DurationOfTenMin()
    ensures Duration("10min") == Success(10 * 60 * 1000)
  {
    assert IntToString(10) == "10";
    DurationOfSuffixEntry("10min", [], 10, [], 3, []);
  }

  /** "20 min", a wait hint with a space before the unit. */
  lemma DurationOfTwentyMin()
    ensures Duration("20 min") == Success(20 * 60 * 1000)
  {
    assert IntToString(20) == "20";
    DurationOfSuffixEntry("20 min", [], 20, " ", 3, []);
  }

  /** "3 hrs", the sleep time of the tests. */
  lemma DurationOfThreeHrs()
    ensures Duration("3 hrs") == Success(3 * 60 * 60 * 1000)
  {
    assert IntToString(3) == "3";
    DurationOfSuffixEntry("3 hrs", [], 3, " ", 6, []);
  }

  /** "75 sec", the reset period of the tests. */
  lemma DurationOfSeventyFiveSec()
    ensures Duration("75 sec") == Success(75 * 1000)
  {
    assert IntToString(75) == "75";
    DurationOfSuffixEntry("75 sec", [], 75, " ", 1, []);
  }

  /** "35 secs": "secs" is read with its own entry, not as "sec" or "s". */
  lemma DurationOfThirtyFiveSecs()
    ensures Duration("35 secs") == Success(35 * 1000)
  {
    assert IntToString(35) == "35";
    DurationOfSuffixEntry("35 secs", [], 35, " ", 2, []);
  }

  /** "500": no unit means milliseconds. */
  lemma DurationOfFiveHundred()
    ensures Duration("500") == Success(500)
  {
    assert IntToString(500) == "500";
    DurationOfNumber("500", [], 500, []);
  }
}
