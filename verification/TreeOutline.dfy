/**
 The shape of a record list: an outline in preorder, in which every record's parent lies
 on the current rightmost path. Every list a walk emits, however it was cut, is one.
 */
module TreeOutline {
  import opened Common
  import opened TreeGraph
  import opened TreeWalk
  import opened TreeBounds

  function Min(a: nat, b: nat): nat {
    if a < b then a else b
  }

  /** The positions of the last record and its ancestors, root first. */
  function RightPath(records: seq<Record>): (path: seq<nat>)
    ensures forall d :: 0 <= d < |path| ==> path[d] < |records|
  {
    if records == [] then []
    else
      var before := RightPath(records[..|records| - 1]);
      before[..Min(records[|records| - 1].depth, |before|)] + [|records| - 1]
  }

  /** A record with this depth, parent and index continues the outline `before`. */
  ghost predicate ContinuesAt(before: seq<Record>, depth: nat, parentId: Option<ObjectId>, index: nat) {
    var path := RightPath(before);
    if before == [] then depth == 0 && parentId == None
    else
      && 1 <= depth <= |path|
      && parentId == Some(before[path[depth - 1]].id)
      && (depth < |path| ==> before[path[depth]].index < index)
  }

  ghost predicate Continues(before: seq<Record>, record: Record) {
    ContinuesAt(before, record.depth, record.parentId, record.index)
  }

  ghost predicate ContinuesPrefix(records: seq<Record>, n: nat)
    requires n < |records|
  {
    Continues(records[..n], records[n])
  }

  ghost predicate Outline(records: seq<Record>) {
    forall n: nat :: n < |records| ==> ContinuesPrefix(records, n)
  }

  lemma OutlineGrows(records: seq<Record>, record: Record)
    requires Outline(records) && Continues(records, record)
    ensures Outline(records + [record])
  {
    var grown := records + [record];
    forall n: nat | n < |grown|
      ensures ContinuesPrefix(grown, n)
    {
      if n < |records| {
        assert ContinuesPrefix(records, n);
        assert grown[..n] == records[..n];
      } else {
        assert grown[..n] == records;
      }
    }
  }

  // ---------- the walker emits outlines ----------

  /** The frame at level i of the stack: an open one is the record at level i of the
      rightmost path, and has pushed every child that was emitted below it; a pending one
      continues the outline. */
  ghost predicate FrameOnPath(out: seq<Record>, frame: Frame, i: nat) {
    var path := RightPath(out);
    && frame.depth == i
    && (frame.Open? ==>
          && i < |path| && out[path[i]].id == frame.nodeId
          && (i + 1 < |path| ==> out[path[i + 1]].index < frame.childIndex))
    && (frame.Pending? ==> ContinuesAt(out, frame.depth, frame.parentId, frame.index))
  }

  ghost predicate OnRightPath(out: seq<Record>, stack: seq<Frame>) {
    && (forall i :: 0 <= i < |stack| ==> FrameOnPath(out, stack[i], i))
    && (forall i :: 0 <= i < |stack| - 1 ==> stack[i].Open?)
    && (|stack| >= 2 && stack[|stack| - 1].Pending? ==> stack[|stack| - 1].index < stack[|stack| - 2].childIndex)
  }

  ghost predicate Orderly(p: Progress) {
    Outline(p.out) && OnRightPath(p.out, p.walk.stack)
  }

  lemma StartIsOrderly(root: Option<Obj>)
    ensures Orderly(Start(root))
  {
  }

  lemma RightPathOfGrown(records: seq<Record>, record: Record)
    requires Continues(records, record)
    ensures RightPath(records + [record]) == RightPath(records)[..Min(record.depth, |RightPath(records)|)] + [|records|]
  {
    var grown := records + [record];
    assert grown[..|grown| - 1] == records;
  }

  lemma FrameStaysOnPath(out: seq<Record>, record: Record, frame: Frame, i: nat)
    requires Continues(out, record) && FrameOnPath(out, frame, i) && frame.Open? && i < record.depth
    requires i + 1 == record.depth ==> record.index < frame.childIndex
    ensures FrameOnPath(out + [record], frame, i)
  {
    RightPathOfGrown(out, record);
  }

  lemma EnteredFrameIsOnPath(g: Graph, limits: Limits, out: seq<Record>, node: Frame, i: nat)
    requires node.Pending? && FrameOnPath(out, node, i)
    ensures FrameOnPath(out + [RecordOf(g, node)], Opened(g, limits, node), i)
  {
    RightPathOfGrown(out, RecordOf(g, node));
  }

  lemma EnteringIsOrderly(g: Graph, limits: Limits, out: seq<Record>, stack: seq<Frame>)
    requires OnRightPath(out, stack) && stack != [] && stack[|stack| - 1].Pending?
    ensures var node := stack[|stack| - 1];
            OnRightPath(out + [RecordOf(g, node)], stack[..|stack| - 1] + [Opened(g, limits, node)])
  {
    var top := |stack| - 1;
    var record := RecordOf(g, stack[top]);
    var after := stack[..top] + [Opened(g, limits, stack[top])];
    forall i | 0 <= i < |after|
      ensures FrameOnPath(out + [record], after[i], i)
    {
      assert FrameOnPath(out, stack[i], i);
      if i < top {
        assert after[i] == stack[i];
        FrameStaysOnPath(out, record, stack[i], i);
      } else {
        EnteredFrameIsOnPath(g, limits, out, stack[top], top);
      }
    }
  }

  lemma PushedFramesAreOnPath(g: Graph, out: seq<Record>, frame: Frame, i: nat)
    requires frame.Open? && frame.child.Some? && FrameOnPath(out, frame, i)
    ensures FrameOnPath(out, NextChild(g, frame), i) && FrameOnPath(out, ChildFrame(g, frame), i + 1)
  {
  }

  lemma PushingIsOrderly(g: Graph, limits: Limits, out: seq<Record>, stack: seq<Frame>)
    requires OnRightPath(out, stack) && stack != [] && HasChildToVisit(g, limits, stack[|stack| - 1])
    ensures var frame := stack[|stack| - 1];
            OnRightPath(out, stack[..|stack| - 1] + [NextChild(g, frame)] + [ChildFrame(g, frame)])
  {
    var top := |stack| - 1;
    var after := stack[..top] + [NextChild(g, stack[top])] + [ChildFrame(g, stack[top])];
    PushedFramesAreOnPath(g, out, stack[top], top);
    forall i | 0 <= i < |after|
      ensures FrameOnPath(out, after[i], i)
    {
      if i < top {
        assert FrameOnPath(out, stack[i], i);
      }
    }
  }

  lemma PoppingIsOrderly(out: seq<Record>, stack: seq<Frame>)
    requires OnRightPath(out, stack) && stack != []
    ensures OnRightPath(out, stack[..|stack| - 1])
  {
    var rest := stack[..|stack| - 1];
    forall i | 0 <= i < |rest|
      ensures FrameOnPath(out, rest[i], i)
    {
      assert FrameOnPath(out, stack[i], i);
    }
  }

  lemma StepPendingIsOrderly(g: Graph, limits: Limits, p: Progress)
    requires Orderly(p) && p.walk.stack != [] && p.walk.stack[|p.walk.stack| - 1].Pending?
    ensures Orderly(StepPending(g, limits, p))
  {
    var stack, q := p.walk.stack, StepPending(g, limits, p);
    var top := stack[|stack| - 1];
    if NodeLimitReached(limits, p.walk.nodeCount) {
      assert q.out == p.out && q.walk.stack == [];
    } else if g.identity(top.obj) in p.walk.seen {
      assert q.out == p.out && q.walk.stack == stack[..|stack| - 1];
      PoppingIsOrderly(p.out, stack);
    } else {
      assert q.out == p.out + [RecordOf(g, top)] && q.walk.stack == stack[..|stack| - 1] + [Opened(g, limits, top)];
      assert FrameOnPath(p.out, top, |stack| - 1);
      OutlineGrows(p.out, RecordOf(g, top));
      EnteringIsOrderly(g, limits, p.out, stack);
    }
  }

  lemma StepOpenIsOrderly(g: Graph, limits: Limits, p: Progress)
    requires Orderly(p) && p.walk.stack != [] && p.walk.stack[|p.walk.stack| - 1].Open?
    ensures Orderly(StepOpen(g, limits, p))
  {
    var stack, q := p.walk.stack, StepOpen(g, limits, p);
    var top := stack[|stack| - 1];
    if HasChildToVisit(g, limits, top) {
      assert q.out == p.out && q.walk.stack == stack[..|stack| - 1] + [NextChild(g, top)] + [ChildFrame(g, top)];
      PushingIsOrderly(g, limits, p.out, stack);
    } else {
      assert q.out == p.out && q.walk.stack == stack[..|stack| - 1];
      PoppingIsOrderly(p.out, stack);
    }
  }

  lemma StepIsOrderly(g: Graph, limits: Limits, p: Progress)
    requires Orderly(p)
    ensures Orderly(Step(g, limits, p))
  {
    if p.walk.stack != [] && p.walk.stack[|p.walk.stack| - 1].Pending? {
      StepPendingIsOrderly(g, limits, p);
    } else if p.walk.stack != [] {
      StepOpenIsOrderly(g, limits, p);
    }
  }

  lemma RunIsOrderly(g: Graph, limits: Limits, p: Progress, k: nat)
    requires Orderly(p)
    ensures Orderly(Run(g, limits, p, k))
  {
    forall q | Orderly(q)
      ensures Orderly(Step(g, limits, q))
    {
      StepIsOrderly(g, limits, q);
    }
    RunKeeps(g, limits, p, k, q => Orderly(q));
  }

  /** Whatever a walk has emitted when it is cut, is an outline of distinct records. */
  lemma CutWalkIsOutline(g: Graph, limits: Limits, root: Option<Obj>, k: nat)
    requires DistinctIds(g)
    ensures Outline(Run(g, limits, Start(root), k).out)
    ensures DistinctRecordIds(Run(g, limits, Start(root), k).out)
  {
    StartIsOrderly(root);
    RunIsOrderly(g, limits, Start(root), k);
    StartIsSound(g, limits, root);
    RunKeepsSound(g, limits, Start(root), k);
    RecordsKnowTheirIds(g, limits, Start(root), k);
  }

  ghost predicate DistinctRecordIds(records: seq<Record>) {
    forall i, j :: 0 <= i < j < |records| ==> records[i].id != records[j].id
  }

  ghost predicate IdsFromRegistry(g: Graph, records: seq<Record>) {
    forall i :: 0 <= i < |records| ==> records[i].id == g.IdOf(records[i].obj)
  }

  lemma RecordsKnowTheirIds(g: Graph, limits: Limits, p: Progress, k: nat)
    requires IdsFromRegistry(g, p.out)
    ensures IdsFromRegistry(g, Run(g, limits, p, k).out)
  {
    RunKeeps(g, limits, p, k, (q: Progress) => IdsFromRegistry(g, q.out));
  }
}
