/** The single-valued settings of the service descriptor: required and optional
    elements, durations, the working directory, the log mode, the service
    account, the stop order and the dependencies. */
module Descriptor {
  import opened Outcomes
  import opened Settings
  import opened Strings
  import opened Numbers
  import opened Xml
  import opened Durations

  /** The base name of the configuration file with one trailing ".vshost" removed. */
  function StripVsHost(baseName: string): (r: string)
    ensures EndsWith(baseName, ".vshost") ==> r + ".vshost" == baseName
    ensures !EndsWith(baseName, ".vshost") ==> r == baseName
  {
    if EndsWith(baseName, ".vshost") then baseName[..|baseName| - 7] else baseName
  }

  /** Stripping undoes appending ".vshost", once: "a.vshost.vshost" keeps one ".vshost". */
  lemma StripVsHostOfAppended(name: string)
    ensures StripVsHost(name + ".vshost") == name
  {
    var s := name + ".vshost";
    assert s[|s| - 7..] == ".vshost";
    assert s[..|s| - 7] == name;
  }

  /** SingleElement: the expanded text of the first element with the tag; when there
      is none, null for an optional element and InvalidDataException otherwise. */
  function SingleElement(root: Element, tagName: string, optional: bool, expand: Expander): (r: Result<Option<string>, Error>)
    ensures r.Failure? <==> SelectNodes(root, tagName) == [] && !optional
    ensures r.Failure? ==> r.error == InvalidData("<" + tagName + "> is missing in configuration XML")
    ensures r.Success? ==> (r.value.None? <==> SelectNodes(root, tagName) == [])
    ensures r.Success? && r.value.Some? ==> r.value.value == expand(SelectNodes(root, tagName)[0].text)
  {
    var n := SelectSingleNode(root, tagName);
    if n.None? && !optional then Failure(InvalidData("<" + tagName + "> is missing in configuration XML"))
    else if n.None? then Success(None)
    else Success(Some(expand(n.value.text)))
  }

  /** SingleTimeSpanElement: the default when the element is absent, otherwise its
      expanded text read as a duration with the unit table. */
  function SingleTimeSpanElement(table: seq<Unit>, root: Element, tagName: string, defaultValue: int, expand: Expander)
    : (r: Result<int, Error>)
    ensures SelectNodes(root, tagName) == [] ==> r == Success(defaultValue)
    ensures SelectNodes(root, tagName) != [] ==> r == DurationWith(table, expand(SelectNodes(root, tagName)[0].text))
  {
    var value := SingleElement(root, tagName, true, expand);
    if value.Failure? || value.value.None? then Success(defaultValue)
    else DurationWith(table, value.value.value)
  }

  /** An element holding a number and a unit key, with white space around or between
      them, gives the number times the unit's factor. */
  lemma SingleTimeSpanElementOfNumberAndUnit(table: seq<Unit>, root: Element, tagName: string, defaultValue: int,
      expand: Expander, w1: string, n: int, w2: string, u: Unit, w3: string)
    requires KeysDisjoint(table) && u in table
    requires |u.key| > 0 && !IsWhiteSpace(u.key[|u.key| - 1])
    requires AllSatisfy(w1, IsWhiteSpace) && AllSatisfy(w2, IsWhiteSpace) && AllSatisfy(w3, IsWhiteSpace)
    requires SelectNodes(root, tagName) != []
    requires expand(SelectNodes(root, tagName)[0].text) == w1 + IntToString(n) + w2 + u.key + w3
    ensures SingleTimeSpanElement(table, root, tagName, defaultValue, expand) == Success(n * u.factor)
  {
    DurationOfNumberAndUnit(table, w1, n, w2, u, w3);
  }

  /** An element whose text is not a number before a unit key is a format error. */
  lemma SingleTimeSpanElementOfBadNumber(table: seq<Unit>, root: Element, tagName: string, defaultValue: int,
      expand: Expander, u: Unit, t: string, number: string)
    requires KeysDisjoint(table) && u in table
    requires SelectNodes(root, tagName) != []
    requires t == Trim(expand(SelectNodes(root, tagName)[0].text)) && EndsWith(t, u.key)
    requires number == Trim(t[..|t| - |u.key|]) && ParseInt(number).None?
    ensures SingleTimeSpanElement(table, root, tagName, defaultValue, expand) == Failure(Format(number))
  {
    DurationWithBadNumber(table, expand(SelectNodes(root, tagName)[0].text), u, t, number);
  }

  /** The time-span settings of ServiceDescriptor and the defaults they fall back on. */
  function WaitHint(table: seq<Unit>, root: Element, defaults: Defaults, expand: Expander): (r: Result<int, Error>)
    ensures SelectNodes(root, "waithint") == [] ==> r == Success(defaults.waitHint)
    ensures SelectNodes(root, "waithint") != [] ==> r == DurationWith(table, expand(SelectNodes(root, "waithint")[0].text))
  {
    SingleTimeSpanElement(table, root, "waithint", defaults.waitHint, expand)
  }

  function SleepTime(table: seq<Unit>, root: Element, defaults: Defaults, expand: Expander): (r: Result<int, Error>)
    ensures SelectNodes(root, "sleeptime") == [] ==> r == Success(defaults.sleepTime)
    ensures SelectNodes(root, "sleeptime") != [] ==> r == DurationWith(table, expand(SelectNodes(root, "sleeptime")[0].text))
  {
    SingleTimeSpanElement(table, root, "sleeptime", defaults.sleepTime, expand)
  }

  function ResetFailureAfter(table: seq<Unit>, root: Element, defaults: Defaults, expand: Expander): (r: Result<int, Error>)
    ensures SelectNodes(root, "resetfailure") == [] ==> r == Success(defaults.resetFailureAfter)
    ensures SelectNodes(root, "resetfailure") != [] ==> r == DurationWith(table, expand(SelectNodes(root, "resetfailure")[0].text))
  {
    SingleTimeSpanElement(table, root, "resetfailure", defaults.resetFailureAfter, expand)
  }

  function StopTimeout(table: seq<Unit>, root: Element, defaults: Defaults, expand: Expander): (r: Result<int, Error>)
    ensures SelectNodes(root, "stoptimeout") == [] ==> r == Success(defaults.stopTimeout)
    ensures SelectNodes(root, "stoptimeout") != [] ==> r == DurationWith(table, expand(SelectNodes(root, "stoptimeout")[0].text))
  {
    SingleTimeSpanElement(table, root, "stoptimeout", defaults.stopTimeout, expand)
  }

  /** WorkingDirectory: the expanded workingdirectory element unless it is absent or empty. */
  function WorkingDirectory(root: Element, defaults: Defaults, expand: Expander): (r: string)
    ensures SelectNodes(root, "workingdirectory") == [] ==> r == defaults.workingDirectory
    ensures SelectNodes(root, "workingdirectory") != [] ==>
      var wd := expand(SelectNodes(root, "workingdirectory")[0].text);
      r == if wd == "" then defaults.workingDirectory else wd
  {
    var wd := SingleElement(root, "workingdirectory", true, expand);
    if wd.Failure? || wd.value.None? || wd.value.value == "" then defaults.workingDirectory else wd.value.value
  }

  /** The working directory is never empty while the default is not. */
  lemma WorkingDirectoryNonEmpty(root: Element, defaults: Defaults, expand: Expander)
    requires defaults.workingDirectory != ""
    ensures WorkingDirectory(root, defaults, expand) != ""
  {
  }

  /** LogMode: the raw text of the legacy logmode element, else the mode attribute of
      the log element, read with GetAttribute, else the default. */
  function LogMode(root: Element, defaults: Defaults): (r: string)
    ensures SelectNodes(root, "logmode") != [] ==> r == SelectNodes(root, "logmode")[0].text
    ensures SelectNodes(root, "logmode") == [] && SelectNodes(root, "log") != [] ==>
      r == GetAttribute(SelectNodes(root, "log")[0], "mode")
    ensures SelectNodes(root, "logmode") == [] && SelectNodes(root, "log") == [] ==> r == defaults.logMode
  {
    var e := SelectSingleNode(root, "logmode");
    var mode: Option<string> :=
      if e.Some? then Some(e.value.text)
      else
        var l := SelectSingleNode(root, "log");
        if l.Some? then Some(GetAttribute(l.value, "mode")) else None;
    if mode.Some? then mode.value else defaults.logMode
  }

  /** A log element without a mode attribute gives the empty mode, not the default:
      GetAttribute answers "" for a missing attribute and only null falls back. */
  lemma LogModeOfLogWithoutMode(root: Element, defaults: Defaults)
    requires SelectNodes(root, "logmode") == [] && SelectNodes(root, "log") != []
    requires "mode" !in SelectNodes(root, "log")[0].attributes
    ensures LogMode(root, defaults) == ""
  {
  }

  /** GetServiceAccountPart: the raw text of the named child of the first serviceaccount element. */
  function ServiceAccountPart(root: Element, subNodeName: string): (r: Option<string>)
    ensures r.Some? <==> SelectNodes(root, "serviceaccount") != [] && ChildNode(SelectNodes(root, "serviceaccount")[0], subNodeName).Some?
    ensures r.Some? ==> r.value == ChildNode(SelectNodes(root, "serviceaccount")[0], subNodeName).value.text
  {
    var node := SelectSingleNode(root, "serviceaccount");
    if node.None? then None
    else
      var subNode := ChildNode(node.value, subNodeName);
      if subNode.None? then None else Some(subNode.value.text)
  }

  /** The domain prefix of the account: the domain element, or "." for the local machine. */
  function DomainOrLocal(root: Element): string
  {
    var domain := ServiceAccountPart(root, "domain");
    if domain.Some? then domain.value else "."
  }

  /** ServiceAccountUser: null without a user element, otherwise domain (or ".") + "\" + user. */
  function ServiceAccountUser(root: Element): (r: Option<string>)
    ensures r.None? <==> ServiceAccountPart(root, "user").None?
    ensures r.Some? ==> r.value == DomainOrLocal(root) + "\\" + ServiceAccountPart(root, "user").value
  {
    var name := ServiceAccountPart(root, "user");
    if name.None? then None else Some(DomainOrLocal(root) + "\\" + name.value)
  }

  /** The index of the last occurrence of c in s, or -1. */
  function LastIndexOf(s: string, c: char): (r: int)
    ensures -1 <= r < |s|
    ensures r >= 0 ==> s[r] == c
    ensures forall i :: r < i < |s| ==> s[i] != c
  {
    if s == [] then -1
    else if s[|s| - 1] == c then |s| - 1
    else LastIndexOf(s[..|s| - 1], c)
  }

  /** The last c of a + [c] + b is the one between them when b holds no c. */
  lemma LastIndexOfJoin(a: string, c: char, b: string)
    requires c !in b
    ensures LastIndexOf(a + [c] + b, c) == |a|
  {
    var s := a + [c] + b;
    var r := LastIndexOf(s, c);
    assert s[|a|] == c;
  }

  /** The parts around the separator of a + [c] + b are a and b. */
  lemma PartsOfJoin(a: string, c: char, b: string)
    ensures (a + [c] + b)[..|a|] == a && (a + [c] + b)[|a| + 1..] == b
  {
  }

  /** A user name without a backslash is recovered from ServiceAccountUser as the text
      after its last backslash, and the domain (or ".") as the text before it. */
  lemma ServiceAccountUserSplits(root: Element)
    requires ServiceAccountPart(root, "user").Some?
    requires '\\' !in ServiceAccountPart(root, "user").value
    ensures var s := ServiceAccountUser(root).value;
      var k := LastIndexOf(s, '\\');
      0 <= k && s[..k] == DomainOrLocal(root) && s[k + 1..] == ServiceAccountPart(root, "user").value
  {
    var d, u := DomainOrLocal(root), ServiceAccountPart(root, "user").value;
    var s := ServiceAccountUser(root).value;
    LastIndexOfJoin(d, '\\', u);
    assert s == d + ['\\'] + u;
    PartsOfJoin(d, '\\', u);
  }

  /** HasServiceAccount: there is a user element and its text is not empty. */
  function HasServiceAccount(root: Element): (r: bool)
    ensures r <==> ServiceAccountPart(root, "user").Some? && ServiceAccountPart(root, "user").value != ""
    ensures r ==> ServiceAccountUser(root).Some?
  {
    var name := ServiceAccountPart(root, "user");
    !(name.None? || name.value == "")
  }

  /** AllowServiceAcountLogonRight: true exactly when allowservicelogon parses as true. */
  function AllowServiceAcountLogonRight(root: Element): (r: bool)
    ensures r <==> TryParseBool(ServiceAccountPart(root, "allowservicelogon")) == Some(true)
    ensures ServiceAccountPart(root, "allowservicelogon").None? ==> !r
  {
    var allow := ServiceAccountPart(root, "allowservicelogon");
    if allow.Some? then
      var parsed := TryParseBool(allow);
      if parsed.Some? then parsed.value else false
    else false
  }

  /** "true1" does not grant the logon right; "true" or "True", with any padding, does. */
  lemma AllowServiceAcountLogonRightOfWords(root: Element, w1: string, w2: string)
    requires AllSatisfy(w1, IsWhiteSpaceOrNull) && AllSatisfy(w2, IsWhiteSpaceOrNull)
    ensures ServiceAccountPart(root, "allowservicelogon") == Some("true1") ==> !AllowServiceAcountLogonRight(root)
    ensures ServiceAccountPart(root, "allowservicelogon") == Some(w1 + "true" + w2) ==> AllowServiceAcountLogonRight(root)
    ensures ServiceAccountPart(root, "allowservicelogon") == Some(w1 + "True" + w2) ==> AllowServiceAcountLogonRight(root)
  {
    TryParseBoolRejectsTrue1();
    TryParseBoolOfBoolToString(w1, true, w2);
  }

  /** StopParentProcessFirst: the expanded element parsed as a boolean, else the default. */
  function StopParentProcessFirst(root: Element, defaults: Defaults, expand: Expander): (r: bool)
    ensures SelectNodes(root, "stopparentprocessfirst") == [] ==> r == defaults.stopParentProcessFirst
    ensures SelectNodes(root, "stopparentprocessfirst") != [] ==>
      var parsed := TryParseBool(Some(expand(SelectNodes(root, "stopparentprocessfirst")[0].text)));
      r == if parsed.Some? then parsed.value else defaults.stopParentProcessFirst
  {
    var value := SingleElement(root, "stopparentprocessfirst", true, expand);
    var parsed := if value.Success? then TryParseBool(value.value) else None;
    if parsed.Some? then parsed.value else defaults.stopParentProcessFirst
  }

  /** An element reading "true" or "false" (any case after bool.ToString, any padding)
      decides the stop order, whatever the default. */
  lemma StopParentProcessFirstOfWord(root: Element, defaults: Defaults, expand: Expander, w1: string, b: bool, w2: string)
    requires AllSatisfy(w1, IsWhiteSpaceOrNull) && AllSatisfy(w2, IsWhiteSpaceOrNull)
    requires SelectNodes(root, "stopparentprocessfirst") != []
    requires expand(SelectNodes(root, "stopparentprocessfirst")[0].text) == w1 + (if b then "true" else "false") + w2
    ensures StopParentProcessFirst(root, defaults, expand) == b
  {
    TryParseBoolOfBoolToString(w1, b, w2);
  }

  /** ServiceDependencies: the inner texts of all depend elements, in document order. */
  method ServiceDependencies(root: Element) returns (r: seq<string>)
    ensures |r| == |SelectNodes(root, "depend")|
    ensures forall i :: 0 <= i < |r| ==> r[i] == SelectNodes(root, "depend")[i].text
  {
    var nodeList := SelectNodes(root, "depend");
    var serviceDependencies := new string[|nodeList|];
    for i := 0 to |nodeList|
      invariant forall j :: 0 <= j < i ==> serviceDependencies[j] == nodeList[j].text
    {
      serviceDependencies[i] := nodeList[i].text;
    }
    r := serviceDependencies[..];
  }
}
