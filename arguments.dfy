/** The command lines of the service: the repeated argument elements, joined
    with a leading space each and quoted where they hold a space, and the
    single legacy arguments element they take precedence over. */
module Arguments {
  import opened Outcomes
  import opened Settings
  import opened Strings
  import opened Xml

  /** The token begins and ends with a double quote: it is passed on as written. */
  predicate IsQuoted(token: string)
  {
    StartsWith(token, "\"") && EndsWith(token, "\"")
  }

  /** What AppendTags writes for one token after its separating space. */
  function Quote(token: string): (r: string)
    ensures r == token || r == "\"" + token + "\""
    ensures ' ' in r ==> IsQuoted(r)
    ensures IsQuoted(token) || ' ' !in token ==> r == token
  {
    if IsQuoted(token) then token
    else if ' ' in token then "\"" + token + "\""
    else token
  }

  /** Every token preceded by one space and quoted where needed, in order. */
  function JoinArguments(tokens: seq<string>): string
  {
    if tokens == [] then ""
    else JoinArguments(tokens[..|tokens| - 1]) + " " + Quote(tokens[|tokens| - 1])
  }

  /** The line is empty exactly when there are no tokens, and otherwise it starts with
      the separating space, as in the " --arg1=2 ..." lines of the descriptor tests. */
  lemma {:induction false} JoinArgumentsLeadingSpace(tokens: seq<string>)
    ensures JoinArguments(tokens) == "" <==> tokens == []
    ensures tokens != [] ==> JoinArguments(tokens)[0] == ' '
  {
    if tokens != [] {
      JoinArgumentsLeadingSpace(tokens[..|tokens| - 1]);
    }
  }

  /** The expanded inner texts of the nodes, in their order. */
  function Texts(nodes: seq<Element>, expand: Expander): (r: seq<string>)
    ensures |r| == |nodes|
    ensures forall i :: 0 <= i < |nodes| ==> r[i] == expand(nodes[i].text)
  {
    seq(|nodes|, i requires 0 <= i < |nodes| => expand(nodes[i].text))
  }

  /** One more node adds its expanded text, quoted as needed, after one space. */
  lemma JoinArgumentsOfPrefix(nodes: seq<Element>, i: nat, expand: Expander)
    requires i < |nodes|
    ensures JoinArguments(Texts(nodes[..i + 1], expand))
      == JoinArguments(Texts(nodes[..i], expand)) + " " + Quote(expand(nodes[i].text))
  {
    var t := Texts(nodes[..i + 1], expand);
    assert t[..i] == Texts(nodes[..i], expand);
  }

  /** Appending a quote, the token and a quote is appending the wrapped token. */
  lemma AppendWrapped(line: string, token: string)
    ensures line + "\"" + token + "\"" == line + ("\"" + token + "\"")
  {
  }

  /** AppendTags: the default when the document has no element with the tag,
      otherwise the joined expanded texts of all of them, in document order. */
  method AppendTags(root: Element, tagName: string, defaultValue: Option<string>, expand: Expander)
    returns (r: Option<string>)
    ensures SelectNodes(root, tagName) == [] ==> r == defaultValue
    ensures SelectNodes(root, tagName) != [] ==> r == Some(JoinArguments(Texts(SelectNodes(root, tagName), expand)))
  {
    var argumentNode := SelectSingleNode(root, tagName);
    if argumentNode.None? {
      return defaultValue;
    }
    var arguments := "";
    var argumentNodeList := SelectNodes(root, tagName);
    for i := 0 to |argumentNodeList|
      invariant arguments == JoinArguments(Texts(argumentNodeList[..i], expand))
    {
      JoinArgumentsOfPrefix(argumentNodeList, i, expand);
      ghost var before := arguments;
      arguments := arguments + " ";
      var token := expand(argumentNodeList[i].text);
      if StartsWith(token, "\"") && EndsWith(token, "\"") {
        // an already quoted token is kept as it is
      } else {
        if ' ' in token {
          AppendWrapped(arguments, token);
          arguments := arguments + "\"" + token + "\"";
          continue;
        }
      }
      arguments := arguments + token;
      assert arguments == before + " " + Quote(token);
    }
    assert argumentNodeList[..|argumentNodeList|] == argumentNodeList;
    return Some(arguments);
  }

  /** Arguments: the argument elements if there is one, else the expanded text of
      the first arguments element, else the default. */
  method Arguments(root: Element, defaults: Defaults, expand: Expander) returns (r: string)
    ensures SelectNodes(root, "argument") != [] ==> r == JoinArguments(Texts(SelectNodes(root, "argument"), expand))
    ensures SelectNodes(root, "argument") == [] && SelectNodes(root, "arguments") != [] ==>
      r == expand(SelectNodes(root, "arguments")[0].text)
    ensures SelectNodes(root, "argument") == [] && SelectNodes(root, "arguments") == [] ==> r == defaults.arguments
  {
    var arguments := AppendTags(root, "argument", None, expand);
    if arguments.Some? {
      return arguments.value;
    }
    var argumentsNode := SelectSingleNode(root, "arguments");
    r := if argumentsNode.None? then defaults.arguments else expand(argumentsNode.value.text);
  }

  /** StartArguments: the startargument elements, else the first startarguments element, else null. */
  method StartArguments(root: Element, expand: Expander) returns (r: Option<string>)
    ensures SelectNodes(root, "startargument") != [] ==>
      r == Some(JoinArguments(Texts(SelectNodes(root, "startargument"), expand)))
    ensures SelectNodes(root, "startargument") == [] && SelectNodes(root, "startarguments") != [] ==>
      r == Some(expand(SelectNodes(root, "startarguments")[0].text))
    ensures SelectNodes(root, "startargument") == [] && SelectNodes(root, "startarguments") == [] ==> r == None
  {
    var startArguments := AppendTags(root, "startargument", None, expand);
    if startArguments.Some? {
      return startArguments;
    }
    var startArgumentsNode := SelectSingleNode(root, "startarguments");
    r := if startArgumentsNode.None? then None else Some(expand(startArgumentsNode.value.text));
  }

  /** StopArguments: the stopargument elements, else the first stoparguments element, else null. */
  method StopArguments(root: Element, expand: Expander) returns (r: Option<string>)
    ensures SelectNodes(root, "stopargument") != [] ==>
      r == Some(JoinArguments(Texts(SelectNodes(root, "stopargument"), expand)))
    ensures SelectNodes(root, "stopargument") == [] && SelectNodes(root, "stoparguments") != [] ==>
      r == Some(expand(SelectNodes(root, "stoparguments")[0].text))
    ensures SelectNodes(root, "stopargument") == [] && SelectNodes(root, "stoparguments") == [] ==> r == None
  {
    var stopArguments := AppendTags(root, "stopargument", None, expand);
    if stopArguments.Some? {
      return stopArguments;
    }
    var stopArgumentsNode := SelectSingleNode(root, "stoparguments");
    r := if stopArgumentsNode.None? then None else Some(expand(stopArgumentsNode.value.text));
  }

  /** A token already written by Quote is written unchanged a second time. */
  lemma QuoteIdempotent(token: string)
    ensures Quote(Quote(token)) == Quote(token)
  {
    if !IsQuoted(token) && ' ' in token {
      var q := "\"" + token + "\"";
      assert q[..1] == "\"" && q[|q| - 1..] == "\"";
    }
  }

  /** An unquoted token holding a space is changed: it is wrapped in a pair of quotes,
      and dropping the first and last characters gives it back. */
  lemma QuoteWraps(token: string)
    requires !IsQuoted(token) && ' ' in token
    ensures Quote(token) != token && IsQuoted(Quote(token))
    ensures Quote(token)[1..|Quote(token)| - 1] == token
  {
    var q := "\"" + token + "\"";
    assert |q| == |token| + 2;
  }

  /** The line does not tell a token from the same token already wrapped in quotes:
      both are written as the wrapped token, so quoting cannot be undone. */
  lemma QuoteForgetsWrapping(token: string)
    requires !IsQuoted(token) && ' ' in token
    ensures Quote("\"" + token + "\"") == Quote(token)
  {
    QuoteWraps(token);
  }

  /** A token that does not begin with a quote and holds no space is written as it is. */
  lemma QuoteOfUnquoted(token: string)
    requires |token| > 0 && token[0] != '"' && forall i :: 0 <= i < |token| ==> token[i] != ' '
    ensures Quote(token) == token
  {
  }

  /** A non-empty list joins as its front, a space and its last token as Quote writes it. */
  lemma JoinArgumentsOfLast(tokens: seq<string>)
    requires tokens != []
    ensures JoinArguments(tokens) == JoinArguments(tokens[..|tokens| - 1]) + (" " + Quote(tokens[|tokens| - 1]))
  {
  }

  /** The inductive step of JoinArgumentsAppend: the join of a + b follows from that of a
      and b without its last token. */
  lemma JoinArgumentsAppendStep(a: seq<string>, b: seq<string>)
    requires b != []
    requires JoinArguments(a + b[..|b| - 1]) == JoinArguments(a) + JoinArguments(b[..|b| - 1])
    ensures JoinArguments(a + b) == JoinArguments(a) + JoinArguments(b)
  {
    var b' := b[..|b| - 1];
    var last := " " + Quote(b[|b| - 1]);
    JoinArgumentsOfAppendLast(a, b);
    JoinArgumentsOfLast(b);
    ConcatStep(JoinArguments(a + b), JoinArguments(a + b'), JoinArguments(a), JoinArguments(b), JoinArguments(b'), last);
  }

  /** The last token of a + b is the last token of b. */
  lemma JoinArgumentsOfAppendLast(a: seq<string>, b: seq<string>)
    requires b != []
    ensures JoinArguments(a + b) == JoinArguments(a + b[..|b| - 1]) + (" " + Quote(b[|b| - 1]))
  {
    DropLastOfAppend(a, b);
    JoinArgumentsOfLast(a + b);
  }

  lemma DropLastOfAppend<T>(a: seq<T>, b: seq<T>)
    requires b != []
    ensures (a + b)[..|a + b| - 1] == a + b[..|b| - 1]
    ensures (a + b)[|a + b| - 1] == b[|b| - 1]
  {
  }

  /** The concatenation step of JoinArgumentsAppendStep, on the joined lines alone. */
  lemma ConcatStep(ab: string, ab': string, a: string, b: string, b': string, last: string)
    requires ab == ab' + last && b == b' + last && ab' == a + b'
    ensures ab == a + b
  {
  }

  /** Joining two lists of tokens is joining each and concatenating. */
  lemma {:induction false} JoinArgumentsAppend(a: seq<string>, b: seq<string>)
    ensures JoinArguments(a + b) == JoinArguments(a) + JoinArguments(b)
    decreases |b|
  {
    if b == [] {
      assert a + b == a;
      assert JoinArguments(b) == [];
    } else {
      JoinArgumentsAppend(a, b[..|b| - 1]);
      JoinArgumentsAppendStep(a, b);
    }
  }

  /** One token: a space, then the token as Quote writes it. */
  lemma JoinArgumentsOfOne(token: string)
    ensures JoinArguments([token]) == " " + Quote(token)
  {
    assert [token][..0] == [];
  }

  /** The documents of the descriptor tests: a service element whose children
      are leaf elements, read without environment variables. */
  function TestDocument(children: seq<(string, string)>): (root: Element)
    ensures root.tag == "service" && |root.children| == |children|
    ensures forall i :: 0 <= i < |children| ==> root.children[i] == Element(children[i].0, children[i].1, map[], [])
  {
    Element("service", "", map[], seq(|children|, i requires 0 <= i < |children| =>
      Element(children[i].0, children[i].1, map[], [])))
  }

  /** Only the children of a test document can carry a tag other than "service". */
  lemma SelectOfTestDocument(children: seq<(string, string)>, tag: string)
    requires tag != "service"
    ensures SelectNodes(TestDocument(children), tag) == Select(TestDocument(children).children, tag)
  {
    var d := TestDocument(children);
    AllElementsOfFlatRoot(d);
    assert ([d] + d.children)[1..] == d.children;
  }

  /** Two argument elements after a legacy arguments element: the line is made of
      the two argument texts only. */
  lemma ArgumentsOverrideLegacy(d: Element, legacy: string, a: string, b: string)
    requires d == TestDocument([("arguments", legacy), ("argument", a), ("argument", b)])
    ensures JoinArguments(Texts(SelectNodes(d, "argument"), s => s)) == " " + Quote(a) + " " + Quote(b)
  {
    var children := [("arguments", legacy), ("argument", a), ("argument", b)];
    SelectOfTestDocument(children, "argument");
    var cs := d.children;
    assert Select(cs, "argument") == [cs[1], cs[2]] by {
      assert cs[1..][1..][1..] == [];
    }
    var t := Texts([cs[1], cs[2]], s => s);
    assert t == [a, b];
    assert t[..1] == [a];
    JoinArgumentsOfOne(a);
  }

  /** Argument elements alone: each text after a space, in document order. */
  lemma ArgumentsOfThree(d: Element, a: string, b: string, c: string)
    requires d == TestDocument([("argument", a), ("argument", b), ("argument", c)])
    ensures JoinArguments(Texts(SelectNodes(d, "argument"), s => s)) == " " + Quote(a) + " " + Quote(b) + " " + Quote(c)
  {
    var children := [("argument", a), ("argument", b), ("argument", c)];
    SelectOfTestDocument(children, "argument");
    SelectOfUniform(d.children, "argument");
    var t := Texts(d.children, s => s);
    assert t == [a, b, c];
    JoinArgumentsOfThree(a, b, c);
  }

  lemma JoinArgumentsOfThree(a: string, b: string, c: string)
    ensures JoinArguments([a, b, c]) == " " + Quote(a) + " " + Quote(b) + " " + Quote(c)
  {
    assert [a, b, c][..2] == [a, b];
    assert [a, b][..1] == [a];
    JoinArgumentsOfOne(a);
  }

  // The lemmas below take the tests' literal tokens as parameters fixed by `requires`
  // rather than writing them inline, which keeps each proof small enough for the solver.

  /** The test tokens hold no space, so they are written unquoted. */
  lemma LineOfThreeTestTokens(a: string, b: string, c: string)
    requires a == "--arg1=2" && b == "--arg2=123" && c == "--arg3=null"
    ensures " " + Quote(a) + " " + Quote(b) + " " + Quote(c) == " --arg1=2 --arg2=123 --arg3=null"
  {
    QuoteOfUnquoted(a);
    QuoteOfUnquoted(b);
    QuoteOfUnquoted(c);
    assert " " + a + " " + b == " --arg1=2 --arg2=123";
  }

  /** The same for the two tokens of the legacy test. */
  lemma LineOfTwoTestTokens(a: string, b: string)
    requires a == "--arg2=123" && b == "--arg3=null"
    ensures " " + Quote(a) + " " + Quote(b) == " --arg2=123 --arg3=null"
  {
    QuoteOfUnquoted(a);
    QuoteOfUnquoted(b);
  }

  /** The line the descriptor test with three argument elements expects. */
  lemma ArgumentsOfThreeTestElements(root: Element, a: string, b: string, c: string)
    requires a == "--arg1=2" && b == "--arg2=123" && c == "--arg3=null"
    requires root == TestDocument([("argument", a), ("argument", b), ("argument", c)])
    ensures JoinArguments(Texts(SelectNodes(root, "argument"), s => s)) == " --arg1=2 --arg2=123 --arg3=null"
  {
    ArgumentsOfThree(root, a, b, c);
    LineOfThreeTestTokens(a, b, c);
  }

  /** The line the descriptor test with a legacy arguments element before two
      argument elements expects: the legacy element does not contribute. */
  lemma ArgumentsOfLegacyTestDocument(root: Element, legacy: string, a: string, b: string)
    requires legacy == "--arg1=2 --arg2=3" && a == "--arg2=123" && b == "--arg3=null"
    requires root == TestDocument([("arguments", legacy), ("argument", a), ("argument", b)])
    ensures JoinArguments(Texts(SelectNodes(root, "argument"), s => s)) == " --arg2=123 --arg3=null"
  {
    ArgumentsOverrideLegacy(root, legacy, a, b);
    LineOfTwoTestTokens(a, b);
  }
}
