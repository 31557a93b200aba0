/**
 Concrete runs of the watcher on a small page: a wrapper element holding
 the page-content root, which holds two content blocks with no `dir`.
 */
module Scenarios {
  import opened Wrappers
  import opened Dom
  import opened Normalizer
  import opened RootDetector
  import opened Watcher

  const WRAPPER: NodeId := 0
  const ROOT: NodeId := 1
  const BLOCK_A: NodeId := 2
  const BLOCK_B: NodeId := 3
  const TEXT: NodeId := 4

  function Block(): Node {
    Node(HtmlElement, {}, [], None, "", true, false)
  }

  function Page(): Doc {
    map[
      WRAPPER := Node(HtmlElement, {}, [ROOT, BLOCK_A, BLOCK_B], None, "", false, false),
      ROOT := Node(HtmlElement, {"notion-page-content"}, [BLOCK_A, BLOCK_B], None, "", false, false),
      BLOCK_A := Block(),
      BLOCK_B := Block(),
      TEXT := Node(NonElement, {}, [], None, "", false, false)
    ]
  }

  function Added(nodes: seq<NodeId>): MutationRecord {
    MutationRecord(WRAPPER, nodes, [])
  }

  function FiveRecords(): seq<MutationRecord> {
    [Added([TEXT]), Added([]), Added([WRAPPER, TEXT]), Added([TEXT]), Added([BLOCK_A])]
  }

  lemma WrapperYieldsRoot()
    ensures GetNotionPageElement(Page(), WRAPPER) == Some(ROOT)
  {
  }

  lemma FiveRecordsMatchOnce()
    ensures Matches(Page(), FiveRecords()) == [ROOT]
  {
    var doc := Page();
    var recs := FiveRecords();
    WrapperYieldsRoot();
    assert GetNotionPageElement(doc, TEXT) == None;
    assert GetNotionPageElement(doc, BLOCK_A) == None;
    assert Matches(doc, recs[4..]) == [];
    assert Matches(doc, recs[3..]) == [];
    assert Matches(doc, recs[2..]) == [ROOT];
    assert Matches(doc, recs[1..]) == [ROOT];
  }

  /** From an idle state, one batch followed by one drain is one pass of
      the drain over exactly that batch. */
  lemma EnqueueThenDrain(s: State, batch: seq<MutationRecord>)
    requires s.queue == [] && s.pendingDrains == 0
    ensures Run(s, [Enqueue(batch), RunIdleDrain]) == IdleAlignItemsToRight(s.(queue := batch))
  {
    RunOfTwo(s, Enqueue(batch), RunIdleDrain);
    assert Step(s, Enqueue(batch)) == s.(queue := batch, pendingDrains := 1);
  }

  lemma RunOfTwo(s: State, e1: Event, e2: Event)
    ensures Run(s, [e1, e2]) == Step(Step(s, e1), e2)
  {
    assert [e1, e2][1..] == [e2];
    assert Run(s, [e1, e2]) == Run(Step(s, e1), [e2]) == Run(Step(Step(s, e1), e2), []);
  }

  lemma BlocksDirectedAfterNormalizing()
    ensures var d := AlignPageContentToRight(Page());
      && BLOCK_A in d && d[BLOCK_A].dir == Some(AUTO)
      && BLOCK_B in d && d[BLOCK_B].dir == Some(AUTO)
  {
  }

  /** Five records, the third adding the wrapper first: after one drain the
      queue is empty, the narrow observer watches the page-content root and
      both blocks carry `dir="auto"`. */
  lemma WrapperInThirdRecordBindsRoot()
    ensures var r := Run(Init(Page()), [Enqueue(FiveRecords()), RunIdleDrain]);
      && r.queue == [] && r.pendingDrains == 0
      && r.narrowTargets == {ROOT}
      && BLOCK_A in r.doc && r.doc[BLOCK_A].dir == Some(AUTO)
      && BLOCK_B in r.doc && r.doc[BLOCK_B].dir == Some(AUTO)
  {
    EnqueueThenDrain(Init(Page()), FiveRecords());
    FiveRecordsMatchOnce();
    BlocksDirectedAfterNormalizing();
  }

  lemma MarkedRootYieldsNothing()
    ensures Matches(Page(), [Added([ROOT])]) == []
  {
  }

  /** A record whose first added node carries the page-content class itself
      binds nothing: the lookup sees descendants only. Nothing is normalised
      and the watcher keeps waiting. */
  lemma MarkedNodeItselfIsNotDetected()
    ensures var r := Run(Init(Page()), [Enqueue([Added([ROOT])]), RunIdleDrain]);
      && r.queue == [] && r.pendingDrains == 0
      && WaitingForRoot(r)
      && r.doc == Page()
  {
    EnqueueThenDrain(Init(Page()), [Added([ROOT])]);
    MarkedRootYieldsNothing();
  }

  /** The wrapper added at index 1 behind a text node is never inspected. */
  lemma WrapperBehindFirstNodeIsMissed()
    ensures var r := Run(Init(Page()), [Enqueue([Added([TEXT, WRAPPER])]), RunIdleDrain]);
      && r.queue == []
      && WaitingForRoot(r)
      && r.doc == Page()
  {
    var doc := Page();
    EnqueueThenDrain(Init(doc), [Added([TEXT, WRAPPER])]);
    assert GetNotionPageElement(doc, TEXT) == None;
    assert Matches(doc, [Added([TEXT, WRAPPER])]) == [];
  }

  /** A list item already aligned to the start keeps that value, and its
      node is left exactly as it was. */
  lemma AlignedListItemUnchanged()
    ensures var doc := map[0 := Node(HtmlElement, {}, [], None, START, false, true)];
      AlignPageContentToRight(doc) == doc
  {
  }
}
