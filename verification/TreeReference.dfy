/**
 The traversal the walker is meant to perform, as plain recursion: a preorder depth-first
 search that threads one set of seen identities and one node budget, and cuts each
 parent's children at the child limit or at the first repeated sibling.

 `WalkerRefinesRecursion` says that the walker's explicit stack performs exactly it.
 */
module TreeReference {
  import opened Common
  import opened TreeGraph
  import opened TreeWalk

  datatype Acc = Acc(seen: set<Identity>, records: seq<Record>, reasons: seq<Reason>, stopped: bool)

  const NO_IDENTITIES: set<Identity> := {}

  function Budget(limits: Limits, acc: Acc): nat {
    if limits.maxNodes.None? || limits.maxNodes.value <= |acc.records| then 0
    else limits.maxNodes.value - |acc.records|
  }

  function Visit(g: Graph, limits: Limits, node: Frame, acc: Acc): (r: Acc)
    requires limits.maxNodes.Some? && node.Pending?
    ensures acc.seen <= r.seen && acc.records <= r.records
    ensures |r.records| == |acc.records| ==> r.seen == acc.seen
    ensures !r.stopped ==> g.identity(node.obj) in r.seen
    ensures acc.stopped ==> r == acc
    decreases Budget(limits, acc), NO_IDENTITIES, 0
  {
    if acc.stopped then acc
    else if NodeLimitReached(limits, |acc.records|) then
      acc.(reasons := AddReason(acc.reasons, NodeLimit), stopped := true)
    else if g.identity(node.obj) in acc.seen then
      acc.(reasons := AddReason(acc.reasons, CycleDetected))
    else
      VisitChildren(g, limits, g.IdOf(node.obj), node.depth, OpeningChild(g, limits, node.obj, node.depth), 0, {},
                    Emitted(g, limits, node, acc))
  }

  function VisitChildren(g: Graph, limits: Limits, parentId: ObjectId, depth: nat, child: Option<Obj>, index: nat,
                         childSeen: set<Identity>, acc: Acc): (r: Acc)
    requires limits.maxNodes.Some?
    ensures acc.seen <= r.seen && acc.records <= r.records
    ensures |r.records| == |acc.records| ==> r.seen == acc.seen
    ensures acc.stopped ==> r == acc
    decreases Budget(limits, acc), acc.seen - childSeen, 1
  {
    if acc.stopped || child.None? then acc
    else if ChildLimitReached(limits, index) then
      acc.(reasons := AddReason(acc.reasons, ChildLimit))
    else if g.identity(child.value) in childSeen then
      acc.(reasons := AddReason(acc.reasons, CycleDetected))
    else
      var node := Pending(child.value, Some(parentId), depth + 1, index, g.nextSiblingFails(child.value));
      var visited := Visit(g, limits, node, acc);
      if visited.stopped then visited
      else
        VisitChildren(g, limits, parentId, depth, g.ReadNextSibling(child.value), index + 1,
                      childSeen + {g.identity(child.value)}, visited)
  }

  /** The whole recursive traversal of a request. */
  function Traversal(g: Graph, limits: Limits, root: Option<Obj>): Acc
    requires limits.maxNodes.Some?
  {
    var empty := Acc({}, [], [], false);
    if root.None? then empty else Visit(g, limits, Pending(root.value, None, 0, 0, false), empty)
  }

  // ---------- the explicit stack performs the recursion ----------

  /** The machine state in which `acc` has been traversed and `stack` is still to do. */
  function Embed(stack: seq<Frame>, acc: Acc): Progress {
    Progress(Walk(if acc.stopped then [] else stack, acc.seen, |acc.records|, acc.reasons, acc.stopped), acc.records)
  }

  function Emitted(g: Graph, limits: Limits, node: Frame, acc: Acc): Acc
    requires node.Pending?
  {
    Acc(acc.seen + {g.identity(node.obj)}, acc.records + [RecordOf(g, node)],
        OpeningReasons(g, limits, node.obj, node.depth, acc.reasons), false)
  }

  lemma Top(rest: seq<Frame>, frame: Frame)
    ensures var stack := rest + [frame];
            stack != [] && stack[|stack| - 1] == frame && stack[..|stack| - 1] == rest
  {
  }

  lemma StepsIntoNode(g: Graph, limits: Limits, rest: seq<Frame>, node: Frame, acc: Acc)
    requires node.Pending? && !acc.stopped
    requires !NodeLimitReached(limits, |acc.records|) && g.identity(node.obj) !in acc.seen
    ensures Reaches(g, limits, Embed(rest + [node], acc), 1, Embed(rest + [Opened(g, limits, node)], Emitted(g, limits, node, acc)))
  {
    ReachesInOne(g, limits, Embed(rest + [node], acc));
    Top(rest, node);
  }

  lemma StepsToChild(g: Graph, limits: Limits, rest: seq<Frame>, frame: Frame, acc: Acc)
    requires HasChildToVisit(g, limits, frame) && !acc.stopped
    ensures Reaches(g, limits, Embed(rest + [frame], acc), 1, Embed(rest + [NextChild(g, frame)] + [ChildFrame(g, frame)], acc))
  {
    ReachesInOne(g, limits, Embed(rest + [frame], acc));
    Top(rest, frame);
  }

  lemma StepsBack(g: Graph, limits: Limits, rest: seq<Frame>, frame: Frame, acc: Acc)
    requires limits.maxNodes.Some? && !acc.stopped
    requires frame.Pending? ==> NodeLimitReached(limits, |acc.records|) || g.identity(frame.obj) in acc.seen
    requires frame.Open? ==> !HasChildToVisit(g, limits, frame)
    ensures Reaches(g, limits, Embed(rest + [frame], acc), 1, Embed(rest, Traversed(g, limits, frame, acc)))
  {
    ReachesInOne(g, limits, Embed(rest + [frame], acc));
    Top(rest, frame);
  }

  /** What is traversed by the time a frame has left the stack. */
  function Traversed(g: Graph, limits: Limits, frame: Frame, acc: Acc): Acc
    requires limits.maxNodes.Some?
  {
    if frame.Pending? then Visit(g, limits, frame, acc)
    else VisitChildren(g, limits, frame.nodeId, frame.depth, frame.child, frame.childIndex, frame.childSeen, acc)
  }

  lemma {:induction false} VisitRuns(g: Graph, limits: Limits, rest: seq<Frame>, node: Frame, acc: Acc) returns (k: nat)
    requires limits.maxNodes.Some? && node.Pending? && !acc.stopped
    ensures Reaches(g, limits, Embed(rest + [node], acc), k, Embed(rest, Traversed(g, limits, node, acc)))
    decreases Budget(limits, acc), NO_IDENTITIES, 0
  {
    if NodeLimitReached(limits, |acc.records|) || g.identity(node.obj) in acc.seen {
      StepsBack(g, limits, rest, node, acc);
      k := 1;
    } else {
      var open, emitted := Opened(g, limits, node), Emitted(g, limits, node, acc);
      StepsIntoNode(g, limits, rest, node, acc);
      var j := ChildrenRun(g, limits, rest, open, emitted);
      ReachesThrough(g, limits, Embed(rest + [node], acc), 1, Embed(rest + [open], emitted), j, Embed(rest, Traversed(g, limits, open, emitted)));
      k := 1 + j;
    }
  }

  lemma {:induction false} ChildrenRun(g: Graph, limits: Limits, rest: seq<Frame>, frame: Frame, acc: Acc) returns (k: nat)
    requires limits.maxNodes.Some? && frame.Open? && !acc.stopped
    ensures Reaches(g, limits, Embed(rest + [frame], acc), k, Embed(rest, Traversed(g, limits, frame, acc)))
    decreases Budget(limits, acc), acc.seen - frame.childSeen, 1
  {
    if !HasChildToVisit(g, limits, frame) {
      StepsBack(g, limits, rest, frame, acc);
      k := 1;
    } else {
      var p, node, next := Embed(rest + [frame], acc), ChildFrame(g, frame), NextChild(g, frame);
      var visited := Traversed(g, limits, node, acc);
      StepsToChild(g, limits, rest, frame, acc);
      var i := VisitRuns(g, limits, rest + [next], node, acc);
      ReachesThrough(g, limits, p, 1, Embed(rest + [next] + [node], acc), i, Embed(rest + [next], visited));
      k := 1 + i;
      if !visited.stopped {
        var j := ChildrenRun(g, limits, rest, next, visited);
        ReachesThrough(g, limits, p, k, Embed(rest + [next], visited), j, Embed(rest, Traversed(g, limits, next, visited)));
        k := k + j;
      }
    }
  }
}
