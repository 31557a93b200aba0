/**
 The watcher: the queue the wide observer fills, the idle drain that empties
 it, the narrow observer the drain moves onto each root it finds, and the
 state machine the host drives through four kinds of event.
 */
module Watcher {
  import opened Wrappers
  import opened Dom
  import opened Normalizer
  import opened RootDetector

  /** A `MutationRecord` as the host delivers it; only `addedNodes` is read. */
  datatype MutationRecord = MutationRecord(target: NodeId, addedNodes: seq<NodeId>, removedNodes: seq<NodeId>)

  datatype State = State(
    /** `mutationsQueue`, oldest record first. */
    queue: seq<MutationRecord>,
    /** Idle callbacks requested and not yet run. */
    pendingDrains: nat,
    /** The elements the narrow observer is currently observing. */
    narrowTargets: set<NodeId>,
    doc: Doc,
    /** How many times `alignPageContentToRight` has run. */
    normalizations: nat
  )

  /** Script load: empty queue, nothing requested, narrow observer not observing. */
  function Init(doc: Doc): State {
    State([], 0, {}, doc, 0)
  }

  /** Waiting for the root (as opposed to bound to one). */
  predicate WaitingForRoot(s: State) {
    s.narrowTargets == {}
  }

  function IsMutationQueueEmpty(s: State): (r: bool)
    ensures r <==> s.queue == []
  {
    |s.queue| == 0
  }

  /** The wide observer's callback: request an idle drain if the queue is
      empty before the batch lands, then append the whole batch. */
  function OnNotionDocumentLoaded(s: State, batch: seq<MutationRecord>): (r: State)
    ensures |r.queue| == |s.queue| + |batch|
    ensures r.queue[..|s.queue|] == s.queue && r.queue[|s.queue|..] == batch
    ensures r.pendingDrains == s.pendingDrains + 1 <==> s.queue == []
    ensures r.pendingDrains == s.pendingDrains <==> s.queue != []
    ensures r.narrowTargets == s.narrowTargets && r.doc == s.doc && r.normalizations == s.normalizations
  {
    var requested := if IsMutationQueueEmpty(s) then s.(pendingDrains := s.pendingDrains + 1) else s;
    requested.(queue := s.queue + batch)
  }

  /** `MutationObserver.disconnect`: the observer stops observing everything. */
  function Disconnect(targets: set<NodeId>): set<NodeId> {
    {}
  }

  /** `MutationObserver.observe`: the target joins the observed set. */
  function Observe(targets: set<NodeId>, target: NodeId): set<NodeId> {
    targets + {target}
  }

  /** The root a record yields in the drain: only `addedNodes[0]` is looked at. */
  function RootOf(doc: Doc, rec: MutationRecord): Option<NodeId> {
    if |rec.addedNodes| == 0 then None else GetNotionPageElement(doc, rec.addedNodes[0])
  }

  /** One iteration of the drain's loop. */
  function ProcessRecord(s: State, rec: MutationRecord): (r: State)
    ensures r.queue == s.queue && r.pendingDrains == s.pendingDrains
    ensures RootOf(s.doc, rec).None? ==> r == s
    ensures RootOf(s.doc, rec).Some? ==>
      && r.doc == AlignPageContentToRight(s.doc)
      && r.narrowTargets == {RootOf(s.doc, rec).value}
      && r.normalizations == s.normalizations + 1
  {
    match RootOf(s.doc, rec)
    case None => s
    case Some(root) =>
      s.(doc := AlignPageContentToRight(s.doc),
         normalizations := s.normalizations + 1,
         narrowTargets := Observe(Disconnect(s.narrowTargets), root))
  }

  /** The drain's loop over `recs`, in order. */
  function ProcessRecords(s: State, recs: seq<MutationRecord>): (r: State)
    ensures r.queue == s.queue && r.pendingDrains == s.pendingDrains
    ensures SameStructure(s.doc, r.doc)
    ensures |r.narrowTargets| <= 1 || r.narrowTargets == s.narrowTargets
    decreases |recs|
  {
    if recs == [] then s else ProcessRecords(ProcessRecord(s, recs[0]), recs[1..])
  }

  /** The roots the records yield, in record order, against one document. */
  function Matches(doc: Doc, recs: seq<MutationRecord>): seq<NodeId>
    decreases |recs|
  {
    if recs == [] then []
    else
      var here := match RootOf(doc, recs[0]) case None => [] case Some(root) => [root];
      here + Matches(doc, recs[1..])
  }

  lemma {:induction false} MatchesIgnoreEdits(d: Doc, e: Doc, recs: seq<MutationRecord>)
    requires SameStructure(d, e)
    ensures Matches(d, recs) == Matches(e, recs)
    decreases |recs|
  {
    if recs != [] {
      if |recs[0].addedNodes| > 0 {
        DetectionIgnoresEdits(d, e, recs[0].addedNodes[0]);
      }
      MatchesIgnoreEdits(d, e, recs[1..]);
    }
  }

  /** What a drain over records yielding roots `m` amounts to: with no
      match nothing changes; otherwise the document is normalised, the
      narrow observer watches exactly the LAST root, and the normaliser has
      run once per match. */
  function DrainEffect(s: State, m: seq<NodeId>): State {
    if |m| == 0 then s
    else s.(doc := AlignPageContentToRight(s.doc),
            narrowTargets := {m[|m| - 1]},
            normalizations := s.normalizations + |m|)
  }

  /** One more match in front: normalising twice is normalising once, and
      the later roots win the narrow observer. */
  lemma DrainEffectCons(s: State, root: NodeId, m: seq<NodeId>)
    ensures var s1 := s.(doc := AlignPageContentToRight(s.doc),
                         narrowTargets := {root},
                         normalizations := s.normalizations + 1);
      DrainEffect(s1, m) == DrainEffect(s, [root] + m)
  {
    if |m| > 0 {
      NormalizeIdempotent(s.doc);
      assert ([root] + m)[|[root] + m| - 1] == m[|m| - 1];
    }
  }

  /** The first record's iteration, followed by the effect of the rest,
      is the effect of all the records. */
  lemma FirstRecordThenRest(s: State, recs: seq<MutationRecord>)
    requires recs != []
    ensures var s1 := ProcessRecord(s, recs[0]);
      DrainEffect(s1, Matches(s1.doc, recs[1..])) == DrainEffect(s, Matches(s.doc, recs))
  {
    match RootOf(s.doc, recs[0])
    case None =>
      assert Matches(s.doc, recs) == Matches(s.doc, recs[1..]);
    case Some(root) =>
      MatchingRecordThenRest(s, recs, root);
  }

  lemma MatchingRecordThenRest(s: State, recs: seq<MutationRecord>, root: NodeId)
    requires recs != [] && RootOf(s.doc, recs[0]) == Some(root)
    ensures var s1 := ProcessRecord(s, recs[0]);
      DrainEffect(s1, Matches(s1.doc, recs[1..])) == DrainEffect(s, Matches(s.doc, recs))
  {
    var rest := recs[1..];
    var d1 := AlignPageContentToRight(s.doc);
    var s1 := s.(doc := d1, narrowTargets := {root}, normalizations := s.normalizations + 1);
    MatchesIgnoreEdits(s.doc, d1, rest);
    assert Matches(s.doc, recs) == [root] + Matches(s.doc, rest);
    DrainEffectCons(s, root, Matches(s.doc, rest));
  }

  lemma {:induction false} ProcessRecordsOutcome(s: State, recs: seq<MutationRecord>)
    ensures ProcessRecords(s, recs) == DrainEffect(s, Matches(s.doc, recs))
    decreases |recs|
  {
    if recs != [] {
      ProcessRecordsOutcome(ProcessRecord(s, recs[0]), recs[1..]);
      FirstRecordThenRest(s, recs);
    }
  }

  /** `idleAlginItemsToRight`: run the loop over the whole queue, then clear it. */
  function IdleAlignItemsToRight(s: State): (r: State)
    ensures r.queue == []
    ensures r.pendingDrains == s.pendingDrains
    ensures var m := Matches(s.doc, s.queue);
      && (|m| == 0 ==> r == s.(queue := []))
      && (|m| > 0 ==>
            && r.doc == AlignPageContentToRight(s.doc)
            && r.narrowTargets == {m[|m| - 1]}
            && r.normalizations == s.normalizations + |m|)
  {
    ProcessRecordsOutcome(s, s.queue);
    ProcessRecords(s, s.queue).(queue := [])
  }

  /** The narrow observer's callback: one normalisation, nothing else. */
  function NarrowObserverCallback(s: State): (r: State)
    ensures r.doc == AlignPageContentToRight(s.doc)
    ensures Normalized(r.doc) && SameStructure(s.doc, r.doc)
    ensures forall id :: id in s.doc && s.doc[id].dir.Some? ==> r.doc[id].dir == s.doc[id].dir
    ensures r.normalizations == s.normalizations + 1
    ensures r.queue == s.queue && r.pendingDrains == s.pendingDrains && r.narrowTargets == s.narrowTargets
  {
    s.(doc := AlignPageContentToRight(s.doc), normalizations := s.normalizations + 1)
  }

  /** What the host can do next. */
  datatype Event =
    | Enqueue(batch: seq<MutationRecord>)  // the wide observer delivers a batch
    | RunIdleDrain                         // the idle scheduler runs a requested callback
    | NarrowFired                          // the narrow observer delivers a batch
    | PageEdited(newDoc: Doc)              // the page's own code changes the document

  function Step(s: State, e: Event): (r: State)
    ensures e.Enqueue? ==> r.queue == s.queue + e.batch && r.doc == s.doc
    ensures e.RunIdleDrain? && s.pendingDrains > 0 ==> r.queue == [] && r.pendingDrains == s.pendingDrains - 1
    ensures e.RunIdleDrain? && s.pendingDrains == 0 ==> r == s
    ensures e.NarrowFired? && !WaitingForRoot(s) ==>
      && r.doc == AlignPageContentToRight(s.doc)
      && r.normalizations == s.normalizations + 1
      && r.queue == s.queue && r.narrowTargets == s.narrowTargets
    ensures e.NarrowFired? && WaitingForRoot(s) ==> r == s
    ensures e.PageEdited? ==> r == s.(doc := e.newDoc)
  {
    match e
    case Enqueue(batch) => OnNotionDocumentLoaded(s, batch)
    case RunIdleDrain =>
      if s.pendingDrains == 0 then s
      else IdleAlignItemsToRight(s).(pendingDrains := s.pendingDrains - 1)
    case NarrowFired =>
      if WaitingForRoot(s) then s else NarrowObserverCallback(s)
    case PageEdited(d) => s.(doc := d)
  }

  function Run(s: State, events: seq<Event>): State
    decreases |events|
  {
    if events == [] then s else Run(Step(s, events[0]), events[1..])
  }

  /** A mutation observer never delivers an empty list of records. */
  predicate HostEvent(e: Event) {
    e.Enqueue? ==> |e.batch| > 0
  }

  predicate HostEvents(events: seq<Event>) {
    forall i :: 0 <= i < |events| ==> HostEvent(events[i])
  }

  /** One idle drain is outstanding exactly when the queue holds records,
      and the narrow observer watches at most one element. */
  predicate Inv(s: State) {
    && s.pendingDrains == (if s.queue == [] then 0 else 1)
    && |s.narrowTargets| <= 1
  }

  lemma InitSatisfiesInv(doc: Doc)
    ensures Inv(Init(doc)) && WaitingForRoot(Init(doc))
  {
  }

  lemma StepPreservesInv(s: State, e: Event)
    requires Inv(s) && HostEvent(e)
    ensures Inv(Step(s, e))
  {
  }

  lemma {:induction false} RunPreservesInv(s: State, events: seq<Event>)
    requires Inv(s) && HostEvents(events)
    ensures Inv(Run(s, events))
    decreases |events|
  {
    if events != [] {
      StepPreservesInv(s, events[0]);
      assert HostEvents(events[1..]) by {
        forall i | 0 <= i < |events[1..]|
          ensures HostEvent(events[1..][i])
        {
          assert events[1..][i] == events[i + 1];
        }
      }
      RunPreservesInv(Step(s, events[0]), events[1..]);
    }
  }

  /** From script load, under any sequence of host events: at most one idle
      drain is ever outstanding, one is outstanding exactly when the queue is
      non-empty, and the narrow observer watches at most one element. */
  lemma AtMostOneDrainPending(doc: Doc, events: seq<Event>)
    requires HostEvents(events)
    ensures var r := Run(Init(doc), events);
      && r.pendingDrains <= 1
      && (r.pendingDrains == 1 <==> r.queue != [])
      && |r.narrowTargets| <= 1
  {
    RunPreservesInv(Init(doc), events);
  }

  /** Without the host's guarantee the invariant fails: an empty batch
      requests a drain but leaves the queue empty, so the next batch requests
      a second one. */
  lemma EmptyBatchRequestsSecondDrain(doc: Doc, rec: MutationRecord)
    ensures Run(Init(doc), [Enqueue([]), Enqueue([rec])]).pendingDrains == 2
  {
    var s1 := Step(Init(doc), Enqueue([]));
    assert s1.queue == [] && s1.pendingDrains == 1;
    var s2 := Step(s1, Enqueue([rec]));
    assert s2.pendingDrains == 2;
    var events := [Enqueue([]), Enqueue([rec])];
    assert events[1..] == [Enqueue([rec])];
    assert Run(Init(doc), events) == Run(s1, [Enqueue([rec])]);
    assert Run(s1, [Enqueue([rec])]) == Run(s2, []);
  }

  /** Every drain leaves the queue empty, whether or not a record matched. */
  lemma DrainEmptiesQueue(s: State)
    requires s.pendingDrains > 0
    ensures Step(s, RunIdleDrain).queue == []
    ensures Step(s, RunIdleDrain).pendingDrains == s.pendingDrains - 1
  {
  }

  /** A drain moves the narrow observer onto the root of the last matching
      record in queue order, and leaves it where it was if none matched. */
  lemma DrainRetargetsNarrowObserver(s: State)
    requires s.pendingDrains > 0
    ensures var m := Matches(s.doc, s.queue);
      Step(s, RunIdleDrain).narrowTargets == if |m| == 0 then s.narrowTargets else {m[|m| - 1]}
  {
  }

  /** A record with no added nodes never triggers anything. */
  lemma RecordWithoutAddedNodesIsSkipped(s: State, rec: MutationRecord)
    requires |rec.addedNodes| == 0
    ensures ProcessRecord(s, rec) == s
  {
  }

  /** Only `addedNodes[0]` is inspected: two records with the same first
      added node have the same effect, and when the first added node yields
      no root the record does nothing, whatever the later nodes contain. */
  lemma OnlyFirstAddedNodeIsInspected(s: State, rec: MutationRecord, rec': MutationRecord)
    requires |rec.addedNodes| > 0 && |rec'.addedNodes| > 0
    requires rec.addedNodes[0] == rec'.addedNodes[0]
    ensures ProcessRecord(s, rec) == ProcessRecord(s, rec')
    ensures GetNotionPageElement(s.doc, rec.addedNodes[0]) == None ==> ProcessRecord(s, rec) == s
  {
  }

  /** Once bound to a root the watcher never goes back to waiting for one. */
  lemma StepKeepsBound(s: State, e: Event)
    requires !WaitingForRoot(s)
    ensures !WaitingForRoot(Step(s, e))
  {
  }

  /** Each narrow-observer firing runs the normaliser exactly once and leaves
      the queue, the pending drains and the observed root alone; a second
      firing with no page edit in between changes nothing in the document. */
  lemma NarrowFiringNormalizesOnce(s: State)
    requires !WaitingForRoot(s)
    ensures var r := Step(s, NarrowFired);
      && r.doc == AlignPageContentToRight(s.doc)
      && r.normalizations == s.normalizations + 1
      && Normalized(r.doc)
      && r.queue == s.queue && r.pendingDrains == s.pendingDrains && r.narrowTargets == s.narrowTargets
    ensures Step(Step(s, NarrowFired), NarrowFired).doc == Step(s, NarrowFired).doc
  {
    NormalizeIdempotent(s.doc);
  }
}
