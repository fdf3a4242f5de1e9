/** The failure actions handed to the service control manager: one per
    onfailure element, in document order. */
module OnFailure {
  import opened Outcomes
  import opened Settings
  import opened Xml
  import opened Durations

  /** SC_ACTION_TYPE, restricted to the kinds the descriptor can name. */
  datatype ActionType = ScActionNone | ScActionRestart | ScActionReboot

  /** SC_ACTION: what to do and how long to wait first, in milliseconds. */
  datatype ScAction = ScAction(kind: ActionType, delay: int)

  /** The word of the action attribute that selects each kind. */
  function ActionName(kind: ActionType): (r: string)
    ensures |r| >= 4
  {
    match kind
    case ScActionRestart => "restart"
    case ScActionNone => "none"
    case ScActionReboot => "reboot"
  }

  /** The switch on the action attribute: exact, case-sensitive words only. */
  function ParseActionType(action: string): (r: Result<ActionType, Error>)
    ensures r.Failure? ==> r.error == InvalidFailureAction("Invalid failure action: " + action)
  {
    if action == "restart" then Success(ScActionRestart)
    else if action == "none" then Success(ScActionNone)
    else if action == "reboot" then Success(ScActionReboot)
    else Failure(InvalidFailureAction("Invalid failure action: " + action))
  }

  /** The action words and the kinds determine each other. */
  lemma ParseActionTypeOfName(action: string, kind: ActionType)
    ensures ParseActionType(action) == Success(kind) <==> action == ActionName(kind)
  {
  }

  /** Exactly the three words are accepted. */
  lemma ParseActionTypeAccepts(action: string)
    ensures ParseActionType(action).Success? <==> action in {"restart", "none", "reboot"}
  {
  }

  /** One onfailure element: its action, then its optional delay, read in that order;
      an absent delay waits no time. */
  function DecodeFailureAction(table: seq<Unit>, node: Element): (r: Result<ScAction, Error>)
    ensures "action" !in node.attributes ==> r == Failure(NullReference)
    ensures "action" in node.attributes && ParseActionType(node.attributes["action"]).Failure? ==>
      r == Failure(ParseActionType(node.attributes["action"]).error)
    ensures r.Success? ==> "action" in node.attributes && ActionName(r.value.kind) == node.attributes["action"]
    ensures r.Success? ==> Delay(table, node) == Success(r.value.delay)
    ensures "action" in node.attributes && ParseActionType(node.attributes["action"]).Success? ==>
      (r.Success? <==> Delay(table, node).Success?) &&
      (r.Failure? ==> r.error == Delay(table, node).error)
  {
    if "action" !in node.attributes then Failure(NullReference)
    else
      var kind :- ParseActionType(node.attributes["action"]);
      var delay :- Delay(table, node);
      Success(ScAction(kind, delay))
  }

  /** The delay attribute read as a duration; no time when it is absent. */
  function Delay(table: seq<Unit>, node: Element): (r: Result<int, Error>)
    ensures "delay" !in node.attributes ==> r == Success(0)
    ensures "delay" in node.attributes ==> r == DurationWith(table, node.attributes["delay"])
  {
    if "delay" in node.attributes then DurationWith(table, node.attributes["delay"]) else Success(0)
  }

  /** The body of the FailureActions loop for one node: its action switch, then its delay. */
  method DecodeNode(table: seq<Unit>, node: Element) returns (r: Result<ScAction, Error>)
    ensures r == DecodeFailureAction(table, node)
  {
    if "action" !in node.attributes {
      return Failure(NullReference);
    }
    var action := node.attributes["action"];
    var kind: ActionType;
    if action == "restart" {
      kind := ScActionRestart;
    } else if action == "none" {
      kind := ScActionNone;
    } else if action == "reboot" {
      kind := ScActionReboot;
    } else {
      return Failure(InvalidFailureAction("Invalid failure action: " + action));
    }
    assert ParseActionType(action) == Success(kind);
    var delay := 0;
    if "delay" in node.attributes {
      var parsed := ParseTimeSpan(table, node.attributes["delay"]);
      assert parsed == Delay(table, node);
      if parsed.Failure? {
        return Failure(parsed.error);
      }
      delay := parsed.value;
    }
    assert Delay(table, node) == Success(delay);
    return Success(ScAction(kind, delay));
  }

  /** FailureActions: every onfailure element decoded, in document order; the first
      element that does not decode stops the walk with its exception. */
  method FailureActions(table: seq<Unit>, root: Element) returns (r: Result<seq<ScAction>, Error>)
    ensures r.Success? ==> |r.value| == |SelectNodes(root, "onfailure")|
    ensures r.Success? ==> forall i :: 0 <= i < |r.value| ==>
      DecodeFailureAction(table, SelectNodes(root, "onfailure")[i]) == Success(r.value[i])
    ensures r.Failure? ==> exists k :: 0 <= k < |SelectNodes(root, "onfailure")| && FirstFailure(table, SelectNodes(root, "onfailure"), k, r.error)
  {
    var childNodes := SelectNodes(root, "onfailure");
    var result := new ScAction[|childNodes|];
    for i := 0 to |childNodes|
      invariant forall j :: 0 <= j < i ==> DecodeFailureAction(table, childNodes[j]) == Success(result[j])
    {
      var decoded := DecodeNode(table, childNodes[i]);
      if decoded.Failure? {
        assert FirstFailure(table, childNodes, i, decoded.error);
        return Failure(decoded.error);
      }
      result[i] := decoded.value;
    }
    return Success(result[..]);
  }

  /** Node k is the first of nodes that does not decode, and it fails with error. */
  predicate FirstFailure(table: seq<Unit>, nodes: seq<Element>, k: nat, error: Error)
    requires k < |nodes|
  {
    && (forall j :: 0 <= j < k ==> DecodeFailureAction(table, nodes[j]).Success?)
    && DecodeFailureAction(table, nodes[k]) == Failure(error)
  }

  /** The exception of a failed walk is determined by the nodes: there is one first failure. */
  lemma FirstFailureUnique(table: seq<Unit>, nodes: seq<Element>, k1: nat, k2: nat, e1: Error, e2: Error)
    requires k1 < |nodes| && k2 < |nodes|
    requires FirstFailure(table, nodes, k1, e1) && FirstFailure(table, nodes, k2, e2)
    ensures k1 == k2 && e1 == e2
  {
  }

  /** A node with a known action word and a readable delay decodes to that action and delay. */
  lemma DecodeOfActionAndDelay(table: seq<Unit>, node: Element, kind: ActionType, delay: int)
    requires "action" in node.attributes && node.attributes["action"] == ActionName(kind)
    requires "delay" in node.attributes && DurationWith(table, node.attributes["delay"]) == Success(delay)
    ensures DecodeFailureAction(table, node) == Success(ScAction(kind, delay))
  {
    ParseActionTypeOfName(node.attributes["action"], kind);
  }
}
