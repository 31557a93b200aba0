/**
 An abstract view of the live document: a table of nodes keyed by identity.
 Only what the content script reads or writes is kept: the node's kind, its
 class list, its descendants in tree order, its `dir` attribute, its inline
 `text-align` style, and whether it matches the two CSS selector sets the
 script queries (left opaque, as two booleans).
 */
module Dom {
  import opened Wrappers

  type NodeId = nat

  /** `HtmlElement` passes `instanceof HTMLElement`; `OtherElement` is an
      element that does not (an SVG element, say); `NonElement` is a text,
      comment or document node. */
  datatype NodeKind = HtmlElement | OtherElement | NonElement

  datatype Node = Node(
    kind: NodeKind,
    classes: set<string>,
    /** Every descendant of the node, in tree (document) order; the node itself is not one. */
    descendants: seq<NodeId>,
    /** The `dir` attribute: `None` when the attribute is absent. */
    dir: Option<string>,
    /** The inline `style.textAlign` value; the empty string when unset. */
    textAlign: string,
    /** The node is returned by `document.querySelectorAll` on the block
        selector list, ignoring its `:not([dir])` parts; so false for a node
        outside the document. */
    blockSelector: bool,
    /** The node is returned by `document.querySelectorAll` on the list /
        to-do / toggle placeholder selector list; so false for a node outside
        the document. */
    listItemSelector: bool
  )

  type Doc = map<NodeId, Node>

  predicate IsElement(n: Node) {
    n.kind != NonElement
  }

  /** A "content block": an element the direction pass selects, `dir` aside. */
  predicate IsBlock(n: Node) {
    IsElement(n) && n.blockSelector
  }

  /** A "list item": an element the alignment pass selects. */
  predicate IsListItem(n: Node) {
    IsElement(n) && n.listItemSelector
  }

  predicate HasClass(doc: Doc, id: NodeId, name: string) {
    id in doc && IsElement(doc[id]) && name in doc[id].classes
  }

  predicate IsHtmlElement(doc: Doc, id: NodeId) {
    id in doc && doc[id].kind == HtmlElement
  }

  /** Two nodes agree on everything but the two fields the script writes. */
  predicate SameShape(a: Node, b: Node) {
    a.(dir := b.dir, textAlign := b.textAlign) == b
  }

  /** Two documents hold the same nodes with the same shape. */
  predicate SameStructure(d: Doc, e: Doc) {
    d.Keys == e.Keys && forall id :: id in d ==> SameShape(d[id], e[id])
  }

  /** A tree never lists a node among its own descendants, and every
      descendant is a node of the document. */
  predicate WellFormed(doc: Doc) {
    forall id :: id in doc ==>
      id !in doc[id].descendants &&
      forall k :: 0 <= k < |doc[id].descendants| ==> doc[id].descendants[k] in doc
  }
}
