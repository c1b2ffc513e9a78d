/** The explicit-stack walker and the recursive traversal are the same walk. */
module TreeRefinement {
  import opened Common
  import opened TreeGraph
  import opened TreeWalk
  import opened TreeReference
  import opened TreeBounds

  /** The end of a walk whose recursive traversal is `t`. */
  function Finished(t: Acc): Progress {
    Progress(Walk([], t.seen, |t.records|, t.reasons, true), t.records)
  }

  lemma WalkReachesTraversal(g: Graph, limits: Limits, root: Option<Obj>) returns (k: nat)
    requires limits.maxNodes.Some?
    ensures Run(g, limits, Start(root), k) == Finished(Traversal(g, limits, root))
  {
    var empty := Acc({}, [], [], false);
    if root.None? {
      k := 0;
    } else {
      var node := Pending(root.value, None, 0, 0, false);
      assert [] + [node] == [node];
      k := VisitRuns(g, limits, [], node, empty);
      var t := Traversal(g, limits, root);
      if !t.stopped {
        ReachesInOne(g, limits, Embed([], t));
        ReachesThrough(g, limits, Start(root), k, Embed([], t), 1, Finished(t));
        k := k + 1;
      }
    }
  }

  /** Whenever the walker is done, it has emitted exactly the records of the recursive
      traversal, in its order, with its reasons in its order. */
  lemma WalkerRefinesRecursion(g: Graph, limits: Limits, root: Option<Obj>, k: nat)
    requires limits.maxNodes.Some? && Run(g, limits, Start(root), k).walk.done
    ensures Run(g, limits, Start(root), k) == Finished(Traversal(g, limits, root))
  {
    var j := WalkReachesTraversal(g, limits, root);
    if j <= k {
      DoneIsFinal(g, limits, Start(root), j, k);
    } else {
      DoneIsFinal(g, limits, Start(root), k, j);
    }
  }

  /** ... and it is done, on any graph, within the step bound. */
  lemma WalkerPerformsTraversal(g: Graph, limits: Limits, root: Option<Obj>, k: nat)
    requires limits.maxNodes.Some?
    requires k >= limits.maxNodes.value * (2 * Width(limits) + 1) + 2
    ensures Run(g, limits, Start(root), k) == Finished(Traversal(g, limits, root))
  {
    WalkFinishesWithin(g, limits, root, k);
    WalkerRefinesRecursion(g, limits, root, k);
  }

  /** Wherever a walk is cut, what it has emitted is the beginning of the whole traversal. */
  lemma CutWalkIsPrefix(g: Graph, limits: Limits, root: Option<Obj>, k: nat)
    requires limits.maxNodes.Some?
    ensures Run(g, limits, Start(root), k).out <= Traversal(g, limits, root).records
  {
    var j := WalkReachesTraversal(g, limits, root);
    CutIsPrefix(g, limits, Start(root), k, j);
  }

  /** A walk without a node cap that ends is the walk with any cap it does not reach, so
      the recursive traversal describes it too. */
  lemma {:induction false} UncappedWalkIsCapped(g: Graph, limits: Limits, p: Progress, k: nat, cap: nat)
    requires limits.maxNodes.None? && p.walk.nodeCount + k <= cap
    ensures Run(g, limits, p, k) == Run(g, limits.(maxNodes := Some(cap)), p, k)
    decreases k
  {
    if k == 0 || p.walk.done {
    } else {
      var capped := limits.(maxNodes := Some(cap));
      assert Step(g, limits, p) == Step(g, capped, p);
      UncappedWalkIsCapped(g, limits, Step(g, limits, p), k - 1, cap);
    }
  }

  lemma UncappedWalkRefinesRecursion(g: Graph, limits: Limits, root: Option<Obj>, k: nat)
    requires limits.maxNodes.None? && Run(g, limits, Start(root), k).walk.done
    ensures Run(g, limits, Start(root), k) == Finished(Traversal(g, limits.(maxNodes := Some(k)), root))
  {
    UncappedWalkIsCapped(g, limits, Start(root), k, k);
    WalkerRefinesRecursion(g, limits.(maxNodes := Some(k)), root, k);
  }
}
