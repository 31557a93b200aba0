/**
 Root detection (`getNotionPageElement`). The loop over the four marker
 class names returns on its first iteration, because the collection that
 `getElementsByClassName` returns is an object and so always truthy: only
 `notion-page-content` is ever looked up, and the answer is that
 collection's first element or nothing. The lookup walks descendants only,
 so the node handed in is never its own answer.
 */
module RootDetector {
  import opened Wrappers
  import opened Dom

  const ROOT_LEVEL_CLASS_NAMES: seq<string> :=
    ["notion-page-content", "notion-table-view", "notion-board-view", "notion-gallery-view"]

  /** The elements among `ids` that carry class `name`, in the order of `ids`. */
  function ElementsWithClass(doc: Doc, ids: seq<NodeId>, name: string): (r: seq<NodeId>)
    ensures forall x :: x in r <==> x in ids && HasClass(doc, x, name)
    ensures |r| > 0 <==> exists i :: 0 <= i < |ids| && HasClass(doc, ids[i], name)
    ensures |r| > 0 ==> exists i :: 0 <= i < |ids| && ids[i] == r[0] && FirstWithClass(doc, ids, name, i)
    decreases |ids|
  {
    if ids == [] then []
    else
      var rest := ElementsWithClass(doc, ids[1..], name);
      if HasClass(doc, ids[0], name) then
        assert FirstWithClass(doc, ids, name, 0);
        [ids[0]] + rest
      else
        assert forall i :: 0 < i < |ids| && FirstWithClass(doc, ids[1..], name, i - 1) ==> FirstWithClass(doc, ids, name, i);
        rest
  }

  /** `ids[i]` carries `name` and no earlier entry does. */
  predicate FirstWithClass(doc: Doc, ids: seq<NodeId>, name: string, i: int) {
    0 <= i < |ids| && HasClass(doc, ids[i], name) &&
    forall j :: 0 <= j < i ==> !HasClass(doc, ids[j], name)
  }

  /** `node.getElementsByClassName(name)`: the descendants carrying the class, in tree order. */
  function GetElementsByClassName(doc: Doc, node: NodeId, name: string): seq<NodeId>
    requires node in doc
  {
    ElementsWithClass(doc, doc[node].descendants, name)
  }

  /** `collection[0]`, which is `undefined` on an empty collection. */
  function First(collection: seq<NodeId>): Option<NodeId> {
    if |collection| == 0 then None else Some(collection[0])
  }

  /** The `for ... of ROOT_LEVEL_CLASS_NAMES` loop, as written. Its guard
      tests the collection itself, and an `HTMLCollection` is an object, so
      the guard holds on the first iteration and the loop returns the first
      class's collection's first element; later names are never reached. */
  function SearchRootClasses(doc: Doc, node: NodeId, names: seq<string>): (r: Option<NodeId>)
    requires node in doc
    ensures names == [] ==> r == None
    ensures names != [] ==>
      (r.Some? <==> exists i :: 0 <= i < |doc[node].descendants| && HasClass(doc, doc[node].descendants[i], names[0]))
    ensures r.Some? ==> names != [] && r.value in doc[node].descendants && HasClass(doc, r.value, names[0])
    ensures r.Some? ==> (exists i ::
      && 0 <= i < |doc[node].descendants|
      && doc[node].descendants[i] == r.value
      && FirstWithClass(doc, doc[node].descendants, names[0], i))
  {
    if names == [] then None
    else First(GetElementsByClassName(doc, node, names[0]))
  }

  function GetNotionPageElement(doc: Doc, node: NodeId): (r: Option<NodeId>)
    // non-elements, elements that are not HTML elements and unknown nodes give nothing
    ensures !IsHtmlElement(doc, node) ==> r == None
    // only the first marker class is consulted; a hit is its first descendant in tree order
    ensures r.Some? <==> (IsHtmlElement(doc, node) &&
      exists i :: 0 <= i < |doc[node].descendants| && HasClass(doc, doc[node].descendants[i], ROOT_LEVEL_CLASS_NAMES[0]))
    ensures r.Some? ==> (exists i ::
      && 0 <= i < |doc[node].descendants|
      && doc[node].descendants[i] == r.value
      && FirstWithClass(doc, doc[node].descendants, ROOT_LEVEL_CLASS_NAMES[0], i))
  {
    if !IsHtmlElement(doc, node) then None
    else SearchRootClasses(doc, node, ROOT_LEVEL_CLASS_NAMES)
  }

  /** The node handed in is never the root found for it, even when it carries the marker class itself. */
  lemma NodeItselfNeverMatched(doc: Doc, node: NodeId)
    requires WellFormed(doc)
    ensures GetNotionPageElement(doc, node) != Some(node)
  {
  }

  /** The loop as it reads, with a collection tested by its length instead of
      its truth value: every marker class is tried in order. */
  function IntendedSearch(doc: Doc, node: NodeId, names: seq<string>): Option<NodeId>
    requires node in doc
  {
    if names == [] then None
    else
      var collection := GetElementsByClassName(doc, node, names[0]);
      if |collection| > 0 then First(collection)
      else IntendedSearch(doc, node, names[1..])
  }

  /** When the page-content marker is present the written loop and the
      length-tested loop agree; a table, board or gallery root with no
      page-content marker is found only by the latter. */
  lemma WrittenSearchVersusLengthTested(doc: Doc, node: NodeId)
    requires IsHtmlElement(doc, node)
    ensures |GetElementsByClassName(doc, node, ROOT_LEVEL_CLASS_NAMES[0])| > 0 ==>
      GetNotionPageElement(doc, node) == IntendedSearch(doc, node, ROOT_LEVEL_CLASS_NAMES)
    ensures |GetElementsByClassName(doc, node, ROOT_LEVEL_CLASS_NAMES[0])| == 0 ==>
      GetNotionPageElement(doc, node) == None
  {
  }

  /** A concrete page whose only root is a table view: the written loop misses it. */
  lemma TableViewRootIsMissed()
    ensures var doc := map[
        0 := Node(HtmlElement, {}, [1], None, "", false, false),
        1 := Node(HtmlElement, {"notion-table-view"}, [], None, "", false, false)];
      GetNotionPageElement(doc, 0) == None && IntendedSearch(doc, 0, ROOT_LEVEL_CLASS_NAMES) == Some(1)
  {
  }

  /** Detection reads kinds, classes and descendants only, so the
      normaliser's edits to `dir` and `text-align` cannot change its answer. */
  lemma DetectionIgnoresEdits(d: Doc, e: Doc, node: NodeId)
    requires SameStructure(d, e)
    ensures GetNotionPageElement(d, node) == GetNotionPageElement(e, node)
  {
  }
}
