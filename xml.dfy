/**
 * The parsed documentation-comment XML, as `XDocument` exposes it: elements with
 * attributes and children, and text.
 */
module Xml {
  import opened Strings

  datatype Attribute = Attribute(name: string, value: string)

  datatype Node =
    | Element(name: string, attributes: seq<Attribute>, children: seq<Node>)
    | Text(text: string)

  /** The node and every element below it, in document order (`Descendants()` of a document). */
  function Elements(n: Node): seq<Node>
  {
    match n
      case Text(_) => []
      case Element(_, _, children) => [n] + ElementsOf(children)
  }

  function ElementsOf(ns: seq<Node>): seq<Node>
  {
    if ns == [] then [] else Elements(ns[0]) + ElementsOf(ns[1..])
  }

  /** `XElement.Value`: the concatenated text below a node. */
  function Value(n: Node): string
  {
    match n
      case Text(t) => t
      case Element(_, _, children) => ValueOf(children)
  }

  function ValueOf(ns: seq<Node>): string
  {
    if ns == [] then "" else Value(ns[0]) + ValueOf(ns[1..])
  }

  /** `Descendants(name).Any()`: some element has the name. */
  predicate HasElement(root: Node, name: string)
  {
    exists e :: e in Elements(root) && e.Element? && e.name == name
  }

  /** `Descendants(name).Attributes(attribute).Any()`: some element with the name carries the attribute. */
  predicate HasElementWithAttribute(root: Node, name: string, attribute: string)
  {
    exists e :: e in Elements(root) && e.Element? && e.name == name && HasAttribute(e, attribute)
  }

  predicate HasAttribute(e: Node, attribute: string)
    requires e.Element?
  {
    exists a :: a in e.attributes && a.name == attribute
  }

  /** `Descendants().Any(e => e.Value.Contains(marker))`. */
  predicate SomeElementMentions(root: Node, marker: string)
  {
    exists e :: e in Elements(root) && Contains(Value(e), marker)
  }

  /** Every listed element is an element. */
  lemma {:induction false} ElementsAreElements(n: Node)
    ensures forall e :: e in Elements(n) ==> e.Element?
  {
    match n
      case Text(_) =>
      case Element(_, _, children) => ElementsOfAreElements(children);
  }

  lemma {:induction false} ElementsOfAreElements(ns: seq<Node>)
    ensures forall e :: e in ElementsOf(ns) ==> e.Element?
  {
    if ns != [] {
      ElementsAreElements(ns[0]);
      ElementsOfAreElements(ns[1..]);
    }
  }

  /** The text of every element below a node is a contiguous part of the node's own text. */
  lemma {:induction false} ValueOfElementInside(n: Node, e: Node, marker: string)
    requires e in Elements(n) && Contains(Value(e), marker)
    ensures Contains(Value(n), marker)
  {
    match n
      case Element(_, _, children) =>
        if e != n {
          ValueOfElementInsideOf(children, e, marker);
        }
  }

  lemma {:induction false} ValueOfElementInsideOf(ns: seq<Node>, e: Node, marker: string)
    requires e in ElementsOf(ns) && Contains(Value(e), marker)
    ensures Contains(ValueOf(ns), marker)
  {
    assert ns != [];
    if e in Elements(ns[0]) {
      ValueOfElementInside(ns[0], e, marker);
      ContainsInExtension("", Value(ns[0]), ValueOf(ns[1..]), marker);
      assert "" + Value(ns[0]) + ValueOf(ns[1..]) == ValueOf(ns);
    } else {
      ValueOfElementInsideOf(ns[1..], e, marker);
      ContainsInExtension(Value(ns[0]), ValueOf(ns[1..]), "", marker);
      assert Value(ns[0]) + ValueOf(ns[1..]) + "" == ValueOf(ns);
    }
  }

  /**
   * Looking for the marker in every element is the same as looking in the root element's
   * text: the root is among the elements, and every element's text lies inside it.
   */
  lemma MentionsIffRootMentions(root: Node, marker: string)
    requires root.Element?
    ensures SomeElementMentions(root, marker) <==> Contains(Value(root), marker)
  {
    if SomeElementMentions(root, marker) {
      var e :| e in Elements(root) && Contains(Value(e), marker);
      ValueOfElementInside(root, e, marker);
    }
    if Contains(Value(root), marker) {
      assert root in Elements(root);
    }
  }
}
