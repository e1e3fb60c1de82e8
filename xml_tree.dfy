/**
 * An XML element as ElementTree holds it once a document is parsed: a tag, attributes keyed
 * by their namespace-qualified name (`{uri}local`), optional text and the child elements.
 */
module XmlTree {
  import opened Wrappers

  datatype Element = Element(tag: string, attrs: map<string, string>, text: Option<string>, children: seq<Element>)

  /** `element.iter()`: the element itself, then each child's subtree, in document order. */
  function Iter(e: Element): (r: seq<Element>)
    ensures |r| >= 1 && r[0] == e
    decreases e, 1
  {
    [e] + IterAll(e.children)
  }

  /** The subtrees of a list of siblings, one after the other. */
  function IterAll(es: seq<Element>): seq<Element>
    decreases es, 0
  {
    if es == [] then [] else Iter(es[0]) + IterAll(es[1..])
  }

  /** Every element of a child's subtree is visited by the parent's iteration (the scan is not top-level only). */
  lemma {:induction false} IterAllVisitsChild(es: seq<Element>, i: nat, x: Element)
    requires i < |es| && x in Iter(es[i])
    ensures x in IterAll(es)
    decreases es
  {
    if i > 0 {
      IterAllVisitsChild(es[1..], i - 1, x);
    }
  }

  /** Descendants at any depth are visited: the parent's iteration contains each child's iteration. */
  lemma IterVisitsDescendant(e: Element, i: nat, x: Element)
    requires i < |e.children| && x in Iter(e.children[i])
    ensures x in Iter(e)
  {
    IterAllVisitsChild(e.children, i, x);
  }

  /** Siblings that have no children of their own are visited exactly as they are listed. */
  lemma {:induction false} IterAllLeaves(es: seq<Element>)
    requires forall i :: 0 <= i < |es| ==> es[i].children == []
    ensures IterAll(es) == es
  {
    if es != [] {
      assert IterAll(es[0].children) == [];
      IterAllLeaves(es[1..]);
    }
  }
}
