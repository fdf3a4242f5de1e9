/** The numeric settings of the log element: the element they are read from,
    the size threshold, the number of files to keep, the rolling period and the
    age after which rolled files are zipped. */
module LogSettings {
  import opened Outcomes
  import opened Settings
  import opened Strings
  import opened Numbers
  import opened Xml

  /** Bytes in a kilobyte, the unit of sizeThreshold. */
  const BytesPerKilobyte := 1024

  /** The element XmlLogSettings reads from: the first logmode element, else the first
      log element; with neither, reading it dereferences null. */
  function LogElement(root: Element): (r: Result<Element, Error>)
    ensures r.Failure? <==> SelectNodes(root, "logmode") == [] && SelectNodes(root, "log") == []
    ensures r.Failure? ==> r.error == NullReference
    ensures SelectNodes(root, "logmode") != [] ==> r == Success(SelectNodes(root, "logmode")[0])
    ensures SelectNodes(root, "logmode") == [] && SelectNodes(root, "log") != [] ==>
      r == Success(SelectNodes(root, "log")[0])
  {
    var e := SelectSingleNode(root, "logmode");
    if e.Some? then Success(e.value)
    else
      var l := SelectSingleNode(root, "log");
      if l.Some? then Success(l.value) else Failure(NullReference)
  }

  /** SingleIntElement: the default without a child of that tag, otherwise its text
      read by int.Parse, which throws FormatException on anything else. */
  function SingleIntElement(parent: Element, tagName: string, defaultValue: int): (r: Result<int, Error>)
    ensures ChildNode(parent, tagName).None? ==> r == Success(defaultValue)
    ensures ChildNode(parent, tagName).Some? ==>
      var text := ChildNode(parent, tagName).value.text;
      (r.Success? <==> ParseInt(text).Some?) &&
      (r.Success? ==> r.value == ParseInt(text).value) &&
      (r.Failure? ==> r.error == Format(text))
  {
    var e := ChildNode(parent, tagName);
    if e.None? then Success(defaultValue)
    else
      var n := ParseInt(e.value.text);
      if n.None? then Failure(Format(e.value.text)) else Success(n.value)
  }

  /** A child holding a written integer, with any padding, reads back as that integer. */
  lemma SingleIntElementOfIntToString(parent: Element, tagName: string, defaultValue: int, w1: string, n: int, w2: string)
    requires AllSatisfy(w1, IsNumberWhite) && AllSatisfy(w2, IsNumberWhite)
    requires ChildNode(parent, tagName).Some? && ChildNode(parent, tagName).value.text == w1 + IntToString(n) + w2
    ensures SingleIntElement(parent, tagName, defaultValue) == Success(n)
  {
    ParsePaddedIntToString(w1, n, w2);
  }

  /** SizeThreshold: the sizeThreshold child in kilobytes (default 10 * 1024), in bytes. */
  function SizeThreshold(root: Element): (r: Result<int, Error>)
    ensures LogElement(root).Failure? ==> r == Failure(LogElement(root).error)
    ensures LogElement(root).Success? ==>
      var kb := SingleIntElement(LogElement(root).value, "sizeThreshold", 10 * 1024);
      (r.Success? <==> kb.Success?) && (r.Success? ==> r.value == kb.value * BytesPerKilobyte)
  {
    var e :- LogElement(root);
    var kb :- SingleIntElement(e, "sizeThreshold", 10 * 1024);
    Success(kb * BytesPerKilobyte)
  }

  /** Without a sizeThreshold child the threshold is ten megabytes. */
  lemma SizeThresholdDefault(root: Element)
    requires LogElement(root).Success? && ChildNode(LogElement(root).value, "sizeThreshold").None?
    ensures SizeThreshold(root) == Success(10 * 1024 * 1024)
  {
  }

  /** A written number of kilobytes, such as 112 or 10240, is that many times 1024 bytes. */
  lemma SizeThresholdOfKilobytes(root: Element, n: int)
    requires LogElement(root).Success?
    requires ChildNode(LogElement(root).value, "sizeThreshold").Some?
    requires ChildNode(LogElement(root).value, "sizeThreshold").value.text == IntToString(n)
    ensures SizeThreshold(root) == Success(n * 1024)
  {
    ParseIntOfIntToString(n);
  }

  /** KeepFiles: the keepFiles child read by int.Parse; without one, the size-based
      appender's default. */
  function KeepFiles(root: Element, defaultFilesToKeep: int): (r: Result<int, Error>)
    ensures LogElement(root).Failure? ==> r == Failure(LogElement(root).error)
    ensures LogElement(root).Success? ==>
      var node := ChildNode(LogElement(root).value, "keepFiles");
      (node.None? ==> r == Success(defaultFilesToKeep)) &&
      (node.Some? && ParseInt(node.value.text).None? ==> r == Failure(Format(node.value.text))) &&
      (node.Some? && ParseInt(node.value.text).Some? ==> r == Success(ParseInt(node.value.text).value))
  {
    var e :- LogElement(root);
    SingleIntElement(e, "keepFiles", defaultFilesToKeep)
  }

  /** Without a keepFiles child the appender's default number of files is kept. */
  lemma KeepFilesDefault(root: Element, defaultFilesToKeep: int)
    requires LogElement(root).Success? && ChildNode(LogElement(root).value, "keepFiles").None?
    ensures KeepFiles(root, defaultFilesToKeep) == Success(defaultFilesToKeep)
  {
  }

  /** A written number of files, with any padding, is that number, whatever the default. */
  lemma KeepFilesOfIntToString(root: Element, defaultFilesToKeep: int, w1: string, n: int, w2: string)
    requires AllSatisfy(w1, IsNumberWhite) && AllSatisfy(w2, IsNumberWhite)
    requires LogElement(root).Success?
    requires ChildNode(LogElement(root).value, "keepFiles").Some?
    requires ChildNode(LogElement(root).value, "keepFiles").value.text == w1 + IntToString(n) + w2
    ensures KeepFiles(root, defaultFilesToKeep) == Success(n)
  {
    ParsePaddedIntToString(w1, n, w2);
  }

  /** 113 is written "113". */
  lemma WrittenOneHundredThirteen()
    ensures IntToString(113) == "113"
  {
    assert NatToString(11) == "11";
  }

  /** The keepFiles value 113 of the size-based rolling test. */
  lemma KeepFilesOfOneHundredThirteen(root: Element, defaultFilesToKeep: int)
    requires LogElement(root).Success?
    requires ChildNode(LogElement(root).value, "keepFiles").Some?
    requires ChildNode(LogElement(root).value, "keepFiles").value.text == "113"
    ensures KeepFiles(root, defaultFilesToKeep) == Success(113)
  {
    WrittenOneHundredThirteen();
    PadWithNothing("113");
    KeepFilesOfIntToString(root, defaultFilesToKeep, [], 113, []);
  }

  /** Period: the period child read by int.Parse, one without it. */
  function Period(root: Element): (r: Result<int, Error>)
    ensures LogElement(root).Failure? ==> r == Failure(LogElement(root).error)
    ensures LogElement(root).Success? ==>
      var node := ChildNode(LogElement(root).value, "period");
      (node.None? ==> r == Success(1)) &&
      (node.Some? && ParseInt(node.value.text).None? ==> r == Failure(Format(node.value.text))) &&
      (node.Some? && ParseInt(node.value.text).Some? ==> r == Success(ParseInt(node.value.text).value))
  {
    var e :- LogElement(root);
    SingleIntElement(e, "period", 1)
  }

  /** Without a period child the rolling period is one. */
  lemma PeriodDefault(root: Element)
    requires LogElement(root).Success? && ChildNode(LogElement(root).value, "period").None?
    ensures Period(root) == Success(1)
  {
  }

  /** A written period, with any padding, is that period. */
  lemma PeriodOfIntToString(root: Element, w1: string, n: int, w2: string)
    requires AllSatisfy(w1, IsNumberWhite) && AllSatisfy(w2, IsNumberWhite)
    requires LogElement(root).Success?
    requires ChildNode(LogElement(root).value, "period").Some?
    requires ChildNode(LogElement(root).value, "period").value.text == w1 + IntToString(n) + w2
    ensures Period(root) == Success(n)
  {
    ParsePaddedIntToString(w1, n, w2);
  }

  /** The period 7 of the time-based rolling test. */
  lemma PeriodOfSeven(root: Element)
    requires LogElement(root).Success?
    requires ChildNode(LogElement(root).value, "period").Some?
    requires ChildNode(LogElement(root).value, "period").value.text == "7"
    ensures Period(root) == Success(7)
  {
    assert IntToString(7) == "7";
    ParseIntOfIntToString(7);
  }

  /** The message of ZipOlderThanNumDays for text that is not an integer. */
  const ZipOlderThanNumDaysMessage :=
    "Roll-Size-Time Based rolling policy is specified but zipOlderThanNumDays does not match the int format found in configuration XML."

  /** ZipOlderThanNumDays: null without a zipOlderThanNumDays child, its integer when
      int.TryParse accepts the text, InvalidDataException otherwise. */
  function ZipOlderThanNumDays(root: Element): (r: Result<Option<int>, Error>)
    ensures LogElement(root).Failure? ==> r == Failure(LogElement(root).error)
    ensures LogElement(root).Success? ==>
      var node := ChildNode(LogElement(root).value, "zipOlderThanNumDays");
      (node.None? ==> r == Success(None)) &&
      (node.Some? && ParseInt(node.value.text).None? ==> r == Failure(InvalidData(ZipOlderThanNumDaysMessage))) &&
      (node.Some? && ParseInt(node.value.text).Some? ==> r == Success(Some(ParseInt(node.value.text).value)))
  {
    var e :- LogElement(root);
    var node := ChildNode(e, "zipOlderThanNumDays");
    if node.None? then Success(None)
    else
      var parsed := ParseInt(node.value.text);
      if parsed.None? then Failure(InvalidData(ZipOlderThanNumDaysMessage))
      else Success(Some(parsed.value))
  }

  /** Any written integer, padded with white space, is accepted back. */
  lemma ZipOlderThanNumDaysOfIntToString(root: Element, w1: string, n: int, w2: string)
    requires AllSatisfy(w1, IsNumberWhite) && AllSatisfy(w2, IsNumberWhite)
    requires LogElement(root).Success?
    requires ChildNode(LogElement(root).value, "zipOlderThanNumDays").Some?
    requires ChildNode(LogElement(root).value, "zipOlderThanNumDays").value.text == w1 + IntToString(n) + w2
    ensures ZipOlderThanNumDays(root) == Success(Some(n))
  {
    ParsePaddedIntToString(w1, n, w2);
  }

  /** An empty zipOlderThanNumDays element is rejected. */
  lemma ZipOlderThanNumDaysRejectsEmpty(root: Element)
    requires LogElement(root).Success?
    requires ChildNode(LogElement(root).value, "zipOlderThanNumDays").Some?
    requires ChildNode(LogElement(root).value, "zipOlderThanNumDays").value.text == ""
    ensures ZipOlderThanNumDays(root) == Failure(InvalidData(ZipOlderThanNumDaysMessage))
  {
  }

  /** A number of days written with a unit, such as "7 days", is rejected: unlike the
      durations, this setting takes a bare integer. */
  lemma ZipOlderThanNumDaysRejectsUnit(root: Element, n: int, w: string, word: string)
    requires |w| > 0 && AllSatisfy(w, IsNumberWhite)
    requires |word| > 0 && !IsNumberWhite(word[|word| - 1])
    requires LogElement(root).Success?
    requires ChildNode(LogElement(root).value, "zipOlderThanNumDays").Some?
    requires ChildNode(LogElement(root).value, "zipOlderThanNumDays").value.text == IntToString(n) + w + word
    ensures ZipOlderThanNumDays(root) == Failure(InvalidData(ZipOlderThanNumDaysMessage))
  {
    ParseIntRejectsNumberWithWord(n, w, word);
  }
}
