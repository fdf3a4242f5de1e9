/** The configuration document: a tree of elements, and the XPath lookups
    the descriptor performs on it. */
module Xml {
  import opened Outcomes

  /** An element: its tag, its inner text, its attributes and its child elements in document order. */
  datatype Element = Element(tag: string, text: string, attributes: map<string, string>, children: seq<Element>)

  /** Every element of the tree rooted at e, in document order (pre-order). */
  function AllElements(e: Element): (r: seq<Element>)
    ensures |r| > 0 && r[0] == e
    decreases e, 1
  {
    [e] + AllChildren(e.children)
  }

  /** The elements of the trees rooted at cs, in document order. */
  function AllChildren(cs: seq<Element>): seq<Element>
    decreases cs, 0
  {
    if cs == [] then [] else AllElements(cs[0]) + AllChildren(cs[1..])
  }

  /** The elements of nodes that carry the tag, in their order: SelectNodes. */
  function Select(nodes: seq<Element>, tag: string): (r: seq<Element>)
    ensures |r| <= |nodes|
    ensures forall i :: 0 <= i < |r| ==> r[i].tag == tag
    ensures forall e :: e in r <==> e in nodes && e.tag == tag
  {
    if nodes == [] then []
    else if nodes[0].tag == tag then [nodes[0]] + Select(nodes[1..], tag)
    else Select(nodes[1..], tag)
  }

  /** The first element of nodes that carries the tag: SelectSingleNode. */
  function First(nodes: seq<Element>, tag: string): (r: Option<Element>)
    ensures r.None? <==> Select(nodes, tag) == []
    ensures r.Some? ==> r.value == Select(nodes, tag)[0]
  {
    if nodes == [] then None
    else if nodes[0].tag == tag then Some(nodes[0])
    else First(nodes[1..], tag)
  }

  /** dom.SelectNodes("//" + tag): every element of the document with the tag. */
  function SelectNodes(root: Element, tag: string): seq<Element>
  {
    Select(AllElements(root), tag)
  }

  /** dom.SelectSingleNode("//" + tag): the first element of the document with the tag. */
  function SelectSingleNode(root: Element, tag: string): Option<Element>
  {
    First(AllElements(root), tag)
  }

  /** e.SelectSingleNode(tag) with a relative path: the first child of e with the tag. */
  function ChildNode(e: Element, tag: string): Option<Element>
  {
    First(e.children, tag)
  }

  /** XmlElement.GetAttribute: the attribute's value, or "" when it is absent. */
  function GetAttribute(e: Element, name: string): (r: string)
    ensures name !in e.attributes ==> r == ""
    ensures name in e.attributes ==> r == e.attributes[name]
  {
    if name in e.attributes then e.attributes[name] else ""
  }

  /** A document whose root has only leaf children lists the root, then those children. */
  lemma {:induction false} AllElementsOfFlatRoot(root: Element)
    requires forall i :: 0 <= i < |root.children| ==> root.children[i].children == []
    ensures AllElements(root) == [root] + root.children
  {
    AllChildrenOfLeaves(root.children);
  }

  lemma {:induction false} AllChildrenOfLeaves(cs: seq<Element>)
    requires forall i :: 0 <= i < |cs| ==> cs[i].children == []
    ensures AllChildren(cs) == cs
  {
    if cs != [] {
      AllChildrenOfLeaves(cs[1..]);
      assert AllChildren(cs[0].children) == [];
      assert AllElements(cs[0]) == [cs[0]];
      assert cs == [cs[0]] + cs[1..];
    }
  }

  /** When every node carries the tag, selecting by it keeps them all. */
  lemma {:induction false} SelectOfUniform(nodes: seq<Element>, tag: string)
    requires forall i :: 0 <= i < |nodes| ==> nodes[i].tag == tag
    ensures Select(nodes, tag) == nodes
  {
    if nodes != [] {
      SelectOfUniform(nodes[1..], tag);
      assert nodes == [nodes[0]] + nodes[1..];
    }
  }
}
