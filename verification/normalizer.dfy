/**
 The normaliser (`alignPageContentToRight`): two independent edits over the
 whole document. Blocks without a `dir` attribute get `dir="auto"`; list
 items get `text-align: start` whatever they had before.
 */
module Normalizer {
  import opened Wrappers
  import opened Dom

  const AUTO: string := "auto"
  const START: string := "start"

  /** What `setBlocksDirectionToAuto` does to one node: the block selector
      list carries `:not([dir])` on every alternative, so only blocks
      without the attribute are selected. */
  function SetDirection(n: Node): Node {
    if IsBlock(n) && n.dir.None? then n.(dir := Some(AUTO)) else n
  }

  function SetBlocksDirectionToAuto(doc: Doc): (r: Doc)
    ensures SameStructure(doc, r)
    ensures forall id :: id in doc ==> r[id].textAlign == doc[id].textAlign
    // first write wins: an existing `dir` is never overwritten
    ensures forall id :: id in doc && doc[id].dir.Some? ==> r[id] == doc[id]
    ensures forall id :: id in doc && !IsBlock(doc[id]) ==> r[id] == doc[id]
    ensures forall id :: id in doc && IsBlock(doc[id]) && doc[id].dir.None? ==> r[id].dir == Some(AUTO)
  {
    map id | id in doc :: SetDirection(doc[id])
  }

  /** What `alignListItemsToRight` does to one node: the write is unconditional. */
  function AlignItem(n: Node): Node {
    if IsListItem(n) then n.(textAlign := START) else n
  }

  function AlignListItemsToRight(doc: Doc): (r: Doc)
    ensures SameStructure(doc, r)
    ensures forall id :: id in doc ==> r[id].dir == doc[id].dir
    ensures forall id :: id in doc && IsListItem(doc[id]) ==> r[id].textAlign == START
    ensures forall id :: id in doc && !IsListItem(doc[id]) ==> r[id] == doc[id]
  {
    map id | id in doc :: AlignItem(doc[id])
  }

  /** `alignPageContentToRight`: the direction pass, then the alignment pass. */
  function AlignPageContentToRight(doc: Doc): (r: Doc)
    ensures SameStructure(doc, r)
    ensures Normalized(r)
    ensures forall id :: id in doc && IsBlock(doc[id]) && doc[id].dir.None? ==> r[id].dir == Some(AUTO)
    ensures forall id :: id in doc && doc[id].dir.Some? ==> r[id].dir == doc[id].dir
    ensures forall id :: id in doc && !IsBlock(doc[id]) ==> r[id].dir == doc[id].dir
    ensures forall id :: id in doc && !IsListItem(doc[id]) ==> r[id].textAlign == doc[id].textAlign
    ensures forall id :: id in doc && !IsBlock(doc[id]) && !IsListItem(doc[id]) ==> r[id] == doc[id]
  {
    AlignListItemsToRight(SetBlocksDirectionToAuto(doc))
  }

  /** The state the normaliser aims at: every block carries some `dir`, and
      every list item is aligned to the start. */
  ghost predicate Normalized(doc: Doc) {
    forall id :: id in doc ==>
      (IsBlock(doc[id]) ==> doc[id].dir.Some?) &&
      (IsListItem(doc[id]) ==> doc[id].textAlign == START)
  }

  /** The normaliser changes nothing exactly on normalised documents: it is
      a no-op there, and any document it leaves alone was normalised. */
  lemma FixedPointsAreNormalized(doc: Doc)
    ensures AlignPageContentToRight(doc) == doc <==> Normalized(doc)
  {
  }

  /** Running the normaliser twice in a row is the same as running it once. */
  lemma NormalizeIdempotent(doc: Doc)
    ensures AlignPageContentToRight(AlignPageContentToRight(doc)) == AlignPageContentToRight(doc)
  {
    FixedPointsAreNormalized(AlignPageContentToRight(doc));
  }
}
