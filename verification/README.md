# Notion RTL content script — a Dafny model

The content script (`src/index.ts`) makes Notion pages readable in
right-to-left languages. A wide mutation observer on the whole document
queues every batch of mutation records; the first batch into an empty queue
requests an idle callback, which walks the queue, looks for the page-content
root under the first added node of each record, and on a hit runs the
normaliser (`dir="auto"` on content blocks that lack a `dir`,
`text-align: start` on list, to-do and toggle items) and moves a second,
narrow observer onto that root. Every firing of the narrow observer runs the
normaliser again. The queue is emptied at the end of every drain.

The model is a deterministic state machine over an immutable state: the
queue, the number of idle drains requested and not yet run, the set of
elements the narrow observer watches, a table of document nodes, and a
counter of normaliser runs. The host drives it through four events:
`Enqueue(batch)` (the wide observer's callback), `RunIdleDrain` (the idle
scheduler), `NarrowFired` (the narrow observer's callback) and
`PageEdited(doc)` (Notion's own code changing the page between callbacks).

Modules:

- `Wrappers` — `Option`.
- `Dom` — nodes (kind, classes, descendants in tree order, `dir`,
  `textAlign`) and the two CSS selector sets as opaque booleans.
- `Normalizer` — `setBlocksDirectionToAuto`, `alignListItemsToRight`,
  `alignPageContentToRight`.
- `RootDetector` — `getElementsByClassName` and `getNotionPageElement`.
- `Watcher` — the queue, the drain, the narrow observer and the state machine.
- `Scenarios` — concrete runs on a five-node page.

Three behaviours of the code are modelled as written:

- `getNotionPageElement` is meant to try the four marker classes
  (page, table, board, gallery). But the loop tests the collection returned
  by `getElementsByClassName`, and a collection is an object, so it is always
  truthy. The loop therefore returns on its first iteration with the first
  `notion-page-content` descendant, or `undefined`. A page whose only root is
  a table, board or gallery view is never detected (`TableViewRootIsMissed`).
- `getElementsByClassName` searches descendants only. A record whose first
  added node itself carries `notion-page-content` therefore binds nothing;
  the root must sit strictly below it. See `MarkedNodeItselfIsNotDetected`.
- The alignment pass writes `text-align` unconditionally, even when the value
  is already `start`. The model shows that the value and the node are then
  unchanged. It does not count style writes.

## Model

| member | source | states |
|---|---|---|
| Normalizer.SetBlocksDirectionToAuto | src/index.ts:28-43 | Only blocks without `dir` get `dir="auto"`. An element that already has a `dir` is left exactly as it was (first write wins). Non-blocks are untouched. Nothing but `dir` changes. |
| Normalizer.AlignListItemsToRight | src/index.ts:16-26 | Every list item ends with alignment `start`, whatever it had before. Every other element is untouched. Nothing but `textAlign` changes. |
| Normalizer.AlignPageContentToRight | src/index.ts:45-48 | The result is normalised: every block carries some `dir` and every list item is aligned to `start`. A block without `dir` gets `dir="auto"`. Existing `dir` values survive. Elements that are neither block nor list item are untouched. The node set and structure are unchanged. |
| Normalizer.FixedPointsAreNormalized | src/index.ts:45-48 | The normaliser leaves a document unchanged exactly when that document is already normalised (both directions). |
| Normalizer.NormalizeIdempotent | src/index.ts:45-48 | Running the normaliser twice in a row gives the same document as running it once. |
| RootDetector.ElementsWithClass | src/index.ts:55 | The lookup keeps exactly the listed elements that carry the class. It is non-empty exactly when one does. Its first entry is the first such element in tree order. |
| RootDetector.SearchRootClasses | src/index.ts:54-59 | The marker-class loop as written: on a non-empty name list the answer is the first descendant, in tree order, carrying the FIRST name, and it exists exactly when such a descendant exists; later names are never consulted. An empty list gives nothing. |
| RootDetector.GetNotionPageElement | src/index.ts:50-60 | Non-HTML elements, non-elements and unknown nodes yield nothing. Otherwise the result is the first descendant, in tree order, carrying `notion-page-content`, and it exists exactly when such a descendant exists. No other marker class is consulted. |
| RootDetector.NodeItselfNeverMatched | src/index.ts:55 | In a well-formed tree, the node handed in is never returned as its own root. |
| RootDetector.WrittenSearchVersusLengthTested | src/index.ts:54-57 | If a `notion-page-content` descendant exists, the loop as written agrees with a loop that tests collection length. If none exists, the written loop returns nothing, even when another marker class is present. |
| RootDetector.TableViewRootIsMissed | src/index.ts:2-7 | On a concrete page whose only root is a `notion-table-view`, the written loop finds nothing. A length-tested loop finds the table view. |
| RootDetector.DetectionIgnoresEdits | src/index.ts:50-60 | Detection gives the same answer on two documents with the same structure, so the normaliser's `dir` and `text-align` edits never change it. |
| Watcher.IsMutationQueueEmpty | src/index.ts:88-90 | True exactly when the queue holds no records. |
| Watcher.OnNotionDocumentLoaded | src/index.ts:88-99 | The whole batch is appended, in order, behind the existing queue. Exactly one idle drain is requested when the queue was empty before the append, and none otherwise. Nothing else changes. |
| Watcher.ProcessRecord | src/index.ts:67-81 | One iteration of the drain's loop. With no root under `addedNodes[0]` nothing changes. With a root the document becomes the normaliser's output, the narrow observer watches exactly that root (disconnect, then observe), and one normaliser run is counted. The queue and pending drains are never touched. |
| Watcher.ProcessRecords | src/index.ts:66-82 | The drain's loop leaves the queue and the pending drains alone. It keeps the document's structure. It leaves the narrow observer either unchanged or on at most one element. |
| Watcher.ProcessRecordsOutcome | src/index.ts:66-82 | If no record yields a root, the loop changes nothing. Otherwise the document is normalised once and for all, and the narrow observer watches only the root of the last matching record in queue order. The normaliser has run once per matching record. |
| Watcher.IdleAlignItemsToRight | src/index.ts:65-86 | After the drain the queue is empty, whether or not a record matched. With no match nothing else changes. With a match the document is normalised, the narrow observer is on the last match's root, and the normaliser has run once per match. |
| Watcher.NarrowObserverCallback | src/index.ts:14 | A narrow firing replaces the document by the normaliser's output, so it ends normalised, with its structure unchanged and existing `dir` values kept. It counts exactly one normaliser run and does not touch the queue, the pending drains or the narrow target. |
| Watcher.Step | src/index.ts:14-99 | Dispatches the host's callbacks. A batch is appended to the queue. A requested drain empties the queue and uses one request; with none requested nothing runs. A narrow firing when bound leaves the normaliser's output and counts one run; when waiting nothing runs. A page edit replaces only the document. |
| Watcher.InitSatisfiesInv | src/index.ts:11-14 | At script load no drain is pending, the queue is empty and the narrow observer watches nothing. |
| Watcher.StepPreservesInv | src/index.ts:85-99 | If batches are non-empty, every event keeps two facts: exactly one drain is pending when the queue is non-empty (none otherwise), and the narrow observer watches at most one element. |
| Watcher.RunPreservesInv | src/index.ts:85-99 | The same invariant holds after any sequence of host events. |
| Watcher.AtMostOneDrainPending | src/index.ts:93-99 | From script load, under any host event sequence, at most one idle drain is outstanding. One is outstanding exactly when the queue is non-empty. At most one narrow target exists. |
| Watcher.EmptyBatchRequestsSecondDrain | src/index.ts:93-99 | An empty batch requests a drain but leaves the queue empty. The next batch then requests a second drain, so the single-drain invariant rests on batches being non-empty. |
| Watcher.DrainEmptiesQueue | src/index.ts:84-85 | A scheduled drain always leaves the queue empty and consumes exactly one request. |
| Watcher.DrainRetargetsNarrowObserver | src/index.ts:72-79 | After a drain, the narrow observer watches only the root of the last matching record. If no record matched, its targets are unchanged. |
| Watcher.RecordWithoutAddedNodesIsSkipped | src/index.ts:69 | A record with no added nodes has no effect. |
| Watcher.OnlyFirstAddedNodeIsInspected | src/index.ts:67-70 | Two records with the same first added node have the same effect. If the first added node yields no root, the record does nothing, whatever its later nodes hold. |
| Watcher.StepKeepsBound | src/index.ts:72-79 | Once the narrow observer watches a root, no event returns the watcher to waiting. |
| Watcher.NarrowFiringNormalizesOnce | src/index.ts:14 | When bound, each narrow firing runs the normaliser exactly once; the document becomes the normaliser's output, which is normalised. A second firing with no page edit in between leaves the document unchanged. |
| Scenarios.WrapperInThirdRecordBindsRoot | src/index.ts:65-99 | Five records arrive, and the third adds a wrapper around the page-content root. One drain then empties the queue, puts the narrow observer on the root, and gives both untagged blocks `dir="auto"`. |
| Scenarios.MarkedNodeItselfIsNotDetected | src/index.ts:55 | A record whose first added node itself carries `notion-page-content` binds nothing. The drain leaves the page untouched and the watcher waiting. |
| Scenarios.WrapperBehindFirstNodeIsMissed | src/index.ts:69-70 | A wrapper added at index 1, behind a text node, is never inspected. The drain leaves the page untouched and the watcher waiting. |
| Scenarios.AlignedListItemUnchanged | src/index.ts:23-25 | A list item already aligned to `start` (and with nothing else to fix) comes out of the normaliser unchanged. |

## Left out

- The `MutationObserver` and `requestIdleCallback` APIs, their asynchronous delivery and the idle deadline. Each callback is one atomic event; the code never reads the deadline.
- The ordering between a pending drain and narrow firings is left to the event sequence. Any interleaving can be expressed, and no particular one is assumed.
- CSS selector matching (src/index.ts:17-21, 29-38). Each node carries two booleans standing for the block list and the list-item list. The `:not([dir])` parts of the block list are modelled explicitly by testing `dir`.
- The `childList`/`subtree` observe options and which changes under the root make the narrow observer fire. Only the observed target set is kept; a firing is an event.
- The wide observer's one-time registration on `document` (src/index.ts:101-102).
- The node table may hold nodes that are no longer in the document: an added node removed before the drain still lets detection search its subtree. Being in the document is folded into the `blockSelector` and `listItemSelector` flags, which are false for a detached node because `document.querySelectorAll` never returns one.
- Real tree structure: a node keeps only its descendants in tree order, its classes and its kind. A node id missing from the node table is treated like a non-element.
- The `typeof node !== 'object'` guard (src/index.ts:51) is folded into the `instanceof HTMLElement` test. Every node reference is an object, so the guard never decides anything on its own.
- `PageEdited` replaces the document arbitrarily. The consistency between page edits and the records the host delivers is not modelled.
- The `target` and `removedNodes` fields of a mutation record are carried but never read, as in the code.
