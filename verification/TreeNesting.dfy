/**
 The nested response format: the flat records rebuilt as a tree, and the proof that the
 tree's preorder is the flat list again, for every outline and so for every cut walk.
 */
module TreeNesting {
  import opened Common
  import opened TreeGraph
  import opened TreeWalk
  import opened TreeOutline

  datatype Tree = Tree(record: Record, children: seq<Tree>)

  function Flatten(tree: Tree): seq<Record> {
    [tree.record] + FlattenAll(tree.children)
  }

  function FlattenAll(trees: seq<Tree>): seq<Record> {
    if trees == [] then [] else FlattenAll(trees[..|trees| - 1]) + Flatten(trees[|trees| - 1])
  }

  /** The position of a record's parent: the record one level up on the rightmost path before it. */
  function ParentOf(records: seq<Record>, n: nat): Option<nat>
    requires n < |records|
  {
    var path := RightPath(records[..n]);
    if 1 <= records[n].depth <= |path| then Some(path[records[n].depth - 1]) else None
  }

  /** The positions of the children of record i, in order. */
  function Kids(records: seq<Record>, i: nat): (kids: seq<nat>)
    ensures forall j :: 0 <= j < |kids| ==> i < kids[j] < |records|
  {
    if records == [] then []
    else
      var before := Kids(records[..|records| - 1], i);
      if ParentOf(records, |records| - 1) == Some(i) then before + [|records| - 1] else before
  }

  function TreeAt(records: seq<Record>, i: nat): Tree
    requires i < |records|
    decreases |records| - i, |records| + 1
  {
    FewKids(records, i);
    Tree(records[i], TreesAt(records, i, |Kids(records, i)|))
  }

  /** The trees of the first m children of record i. */
  function TreesAt(records: seq<Record>, i: nat, m: nat): (trees: seq<Tree>)
    requires i < |records| && m <= |Kids(records, i)|
    ensures |trees| == m
    decreases |records| - i, m
  {
    if m == 0 then [] else TreesAt(records, i, m - 1) + [TreeAt(records, Kids(records, i)[m - 1])]
  }

  lemma {:induction false} FewKids(records: seq<Record>, i: nat)
    ensures |Kids(records, i)| <= |records|
  {
    if records == [] {
    } else {
      FewKids(records[..|records| - 1], i);
    }
  }

  lemma {:induction false} KidsHaveParent(records: seq<Record>, i: nat, j: nat)
    requires j < |Kids(records, i)|
    ensures ParentOf(records, Kids(records, i)[j]) == Some(i)
  {
    var before := records[..|records| - 1];
    if j < |Kids(before, i)| {
      KidsHaveParent(before, i, j);
      assert records[..Kids(before, i)[j]] == before[..Kids(before, i)[j]];
    }
  }

  lemma {:induction false} KidsIncrease(records: seq<Record>, i: nat, j: nat, k: nat)
    requires j < k < |Kids(records, i)|
    ensures Kids(records, i)[j] < Kids(records, i)[k]
  {
    var before := records[..|records| - 1];
    if k < |Kids(before, i)| {
      KidsIncrease(before, i, j, k);
    }
  }

  /** Level e of the rightmost path is the parent of level e + 1, and that is its last child. */
  ghost predicate ClimbsAt(records: seq<Record>, e: nat) {
    var path := RightPath(records);
    e + 1 < |path| ==>
      && path[e] < path[e + 1]
      && ParentOf(records, path[e + 1]) == Some(path[e])
      && Kids(records, path[e]) != [] && Kids(records, path[e])[|Kids(records, path[e])| - 1] == path[e + 1]
  }

  ghost predicate PathClimbs(records: seq<Record>) {
    && RightPath(records) != [] && RightPath(records)[0] == 0
    && forall e: nat :: ClimbsAt(records, e)
  }

  lemma RightPathStep(records: seq<Record>, record: Record)
    ensures RightPath(records + [record]) == RightPath(records)[..Min(record.depth, |RightPath(records)|)] + [|records|]
  {
    assert (records + [record])[..|records + [record]| - 1] == records;
  }

  lemma KidsStep(records: seq<Record>, record: Record, i: nat)
    ensures var grown := records + [record];
            Kids(grown, i) == Kids(records, i) + (if ParentOf(grown, |records|) == Some(i) then [|records|] else [])
  {
    assert (records + [record])[..|records + [record]| - 1] == records;
  }

  lemma ParentStays(records: seq<Record>, record: Record, k: nat)
    requires k < |records|
    ensures ParentOf(records + [record], k) == ParentOf(records, k)
  {
    assert (records + [record])[..k] == records[..k];
  }

  lemma PathStays(records: seq<Record>, record: Record, e: nat)
    requires e < record.depth <= |RightPath(records)|
    ensures |RightPath(records + [record])| == record.depth + 1 && RightPath(records + [record])[e] == RightPath(records)[e]
  {
    RightPathStep(records, record);
  }

  lemma AppendedParent(records: seq<Record>, record: Record)
    requires 1 <= record.depth <= |RightPath(records)|
    ensures ParentOf(records + [record], |records|) == Some(RightPath(records)[record.depth - 1])
  {
    assert (records + [record])[..|records|] == records;
  }

  lemma KidsStay(records: seq<Record>, record: Record, i: nat)
    requires 1 <= record.depth <= |RightPath(records)| && i != RightPath(records)[record.depth - 1]
    ensures Kids(records + [record], i) == Kids(records, i)
  {
    AppendedParent(records, record);
    KidsStep(records, record, i);
  }

  lemma ClimbTransfers(records: seq<Record>, grown: seq<Record>, e: nat)
    requires ClimbsAt(records, e) && |records| <= |grown| && e + 1 < |RightPath(records)| && e + 1 < |RightPath(grown)|
    requires var path := RightPath(records);
             && RightPath(grown)[e] == path[e] && RightPath(grown)[e + 1] == path[e + 1]
             && ParentOf(grown, path[e + 1]) == ParentOf(records, path[e + 1]) && Kids(grown, path[e]) == Kids(records, path[e])
    ensures ClimbsAt(grown, e)
  {
  }

  lemma ClimbStays(records: seq<Record>, record: Record, e: nat)
    requires PathClimbs(records) && e + 1 < record.depth <= |RightPath(records)|
    ensures ClimbsAt(records + [record], e)
  {
    PathIncreases(records, e, record.depth - 1);
    PathStays(records, record, e);
    PathStays(records, record, e + 1);
    ParentStays(records, record, RightPath(records)[e + 1]);
    KidsStay(records, record, RightPath(records)[e]);
    ClimbTransfers(records, records + [record], e);
  }

  lemma PathClimbsOn(records: seq<Record>, record: Record)
    requires records == [] || PathClimbs(records)
    requires Continues(records, record)
    ensures PathClimbs(records + [record])
  {
    var grown := records + [record];
    RightPathStep(records, record);
    assert grown[..|records|] == records;
    forall e: nat
      ensures ClimbsAt(grown, e)
    {
      if e + 1 < record.depth {
        ClimbStays(records, record, e);
      } else if e + 1 == record.depth {
        KidsStep(records, record, RightPath(records)[e]);
      }
    }
  }

  lemma {:induction false} PathIncreases(records: seq<Record>, d: nat, e: nat)
    requires PathClimbs(records) && d < e < |RightPath(records)|
    ensures RightPath(records)[d] < RightPath(records)[e]
    decreases e
  {
    if d + 1 < e {
      PathIncreases(records, d, e - 1);
    }
    assert ClimbsAt(records, e - 1);
  }

  lemma OutlineSplits(records: seq<Record>)
    requires Outline(records) && records != []
    ensures var n := |records| - 1;
            records == records[..n] + [records[n]] && Outline(records[..n]) && Continues(records[..n], records[n])
  {
    var n := |records| - 1;
    assert ContinuesPrefix(records, n);
    forall m: nat | m < n
      ensures ContinuesPrefix(records[..n], m)
    {
      assert ContinuesPrefix(records, m);
      assert records[..n][..m] == records[..m];
    }
  }

  lemma {:induction false} OutlineClimbs(records: seq<Record>)
    requires Outline(records) && records != []
    ensures PathClimbs(records)
  {
    var n := |records| - 1;
    OutlineSplits(records);
    if n > 0 {
      OutlineClimbs(records[..n]);
    }
    PathClimbsOn(records[..n], records[n]);
  }

  /** The preorder of the tree at record i, and of the trees of its first m children. */
  function Flat(records: seq<Record>, i: nat): seq<Record>
    requires i < |records|
    decreases |records| - i, |records| + 1
  {
    FewKids(records, i);
    [records[i]] + KidsFlat(records, i, |Kids(records, i)|)
  }

  function KidsFlat(records: seq<Record>, i: nat, m: nat): seq<Record>
    requires i < |records| && m <= |Kids(records, i)|
    decreases |records| - i, m
  {
    if m == 0 then [] else KidsFlat(records, i, m - 1) + Flat(records, Kids(records, i)[m - 1])
  }

  lemma {:induction false} FlattenIsFlat(records: seq<Record>, i: nat)
    requires i < |records|
    ensures Flatten(TreeAt(records, i)) == Flat(records, i)
    decreases |records| - i, |records| + 1
  {
    FewKids(records, i);
    FlattenAllIsFlat(records, i, |Kids(records, i)|);
  }

  lemma {:induction false} FlattenAllIsFlat(records: seq<Record>, i: nat, m: nat)
    requires i < |records| && m <= |Kids(records, i)|
    ensures FlattenAll(TreesAt(records, i, m)) == KidsFlat(records, i, m)
    decreases |records| - i, m
  {
    if m == 0 {
    } else {
      FlattenAllIsFlat(records, i, m - 1);
      FlattenIsFlat(records, Kids(records, i)[m - 1]);
      var trees := TreesAt(records, i, m);
      assert trees[..m - 1] == TreesAt(records, i, m - 1);
    }
  }

  /** `grown` are the records whose trees an appended record becomes part of: its parent,
      and every record whose last child is one of them. */
  ghost predicate GrownSet(records: seq<Record>, parent: nat, grown: set<nat>) {
    && parent in grown
    && (forall i: nat, j: nat :: KidGrows(records, parent, grown, i, j))
    && (forall i: nat :: HasKidToGrow(records, parent, grown, i))
  }

  predicate KidGrows(records: seq<Record>, parent: nat, grown: set<nat>, i: nat, j: nat) {
    i < |records| && j < |Kids(records, i)| ==>
      (Kids(records, i)[j] in grown <==> j == |Kids(records, i)| - 1 && i in grown && i != parent)
  }

  predicate HasKidToGrow(records: seq<Record>, parent: nat, grown: set<nat>, i: nat) {
    i < |records| && i in grown && i != parent ==> Kids(records, i) != []
  }

  /** The appended record is a leaf, and the last child of its parent. */
  lemma ParentGainsLeaf(records: seq<Record>, record: Record, i: nat)
    requires i < |records| && ParentOf(records + [record], |records|) == Some(i)
    ensures var more, m := records + [record], |Kids(records, i)|;
            |Kids(more, i)| == m + 1 && KidsFlat(more, i, m + 1) == KidsFlat(more, i, m) + [record]
  {
    var more, m := records + [record], |Kids(records, i)|;
    KidsStep(records, record, i);
    LastHasNoKids(more);
    assert KidsFlat(more, |records|, 0) == [];
    assert Flat(more, |records|) == [record];
  }

  lemma {:induction false} FlatGrows(records: seq<Record>, record: Record, parent: nat, grown: set<nat>, i: nat)
    requires i < |records| && GrownSet(records, parent, grown)
    requires ParentOf(records + [record], |records|) == Some(parent)
    ensures Flat(records + [record], i) == Flat(records, i) + (if i in grown then [record] else [])
    decreases |records| - i, |records| + 1
  {
    var more, m := records + [record], |Kids(records, i)|;
    assert HasKidToGrow(records, parent, grown, i);
    FewKids(records, i);
    KidsStep(records, record, i);
    KidsFlatGrows(records, record, parent, grown, i, m);
    FlatOf(records, i);
    FlatOf(more, i);
    assert more[i] == records[i];
    if i == parent {
      ParentGainsLeaf(records, record, i);
    }
  }

  lemma FlatOf(records: seq<Record>, i: nat)
    requires i < |records|
    ensures Flat(records, i) == [records[i]] + KidsFlat(records, i, |Kids(records, i)|)
  {
  }

  lemma KidsFlatStep(records: seq<Record>, more: seq<Record>, i: nat, m: nat, tail: seq<Record>)
    requires i < |records| <= |more| && 0 < m <= |Kids(records, i)| && m <= |Kids(more, i)|
    requires Kids(more, i)[m - 1] == Kids(records, i)[m - 1]
    requires KidsFlat(more, i, m - 1) == KidsFlat(records, i, m - 1)
    requires Flat(more, Kids(records, i)[m - 1]) == Flat(records, Kids(records, i)[m - 1]) + tail
    ensures KidsFlat(more, i, m) == KidsFlat(records, i, m) + tail
  {
  }

  /** The first m children: only the last of all of them can have grown. */
  lemma {:induction false} KidsFlatGrows(records: seq<Record>, record: Record, parent: nat, grown: set<nat>, i: nat, m: nat)
    requires i < |records| && GrownSet(records, parent, grown)
    requires ParentOf(records + [record], |records|) == Some(parent)
    requires m <= |Kids(records, i)| <= |Kids(records + [record], i)|
    ensures KidsFlat(records + [record], i, m)
            == KidsFlat(records, i, m)
               + (if m > 0 && m == |Kids(records, i)| && i in grown && i != parent then [record] else [])
    decreases |records| - i, m
  {
    if m == 0 {
    } else {
      var kid := Kids(records, i)[m - 1];
      assert KidGrows(records, parent, grown, i, m - 1);
      KidsStep(records, record, i);
      KidsFlatGrows(records, record, parent, grown, i, m - 1);
      FlatGrows(records, record, parent, grown, kid);
      KidsFlatStep(records, records + [record], i, m, if kid in grown then [record] else []);
    }
  }

  lemma KidsAreLater(records: seq<Record>, i: nat, j: nat)
    requires j < |Kids(records, i)|
    ensures i < Kids(records, i)[j] < |records|
  {
  }

  lemma LastHasNoKids(records: seq<Record>)
    requires records != []
    ensures Kids(records, |records| - 1) == []
  {
    if Kids(records, |records| - 1) != [] {
      KidsAreLater(records, |records| - 1, 0);
    }
  }

  /** The first d levels of the rightmost path. */
  ghost function PathSet(records: seq<Record>, d: nat): set<nat> {
    set e | 0 <= e < d && e < |RightPath(records)| :: RightPath(records)[e]
  }

  lemma GrownKidIsLast(records: seq<Record>, d: nat, i: nat, j: nat)
    requires PathClimbs(records) && 1 <= d <= |RightPath(records)|
    requires i < |records| && j < |Kids(records, i)| && Kids(records, i)[j] in PathSet(records, d)
    ensures j == |Kids(records, i)| - 1 && i in PathSet(records, d) && i != RightPath(records)[d - 1]
  {
    var path, last := RightPath(records), |Kids(records, i)| - 1;
    var e :| 0 <= e < d && e < |path| && path[e] == Kids(records, i)[j];
    KidsHaveParent(records, i, j);
    assert e > 0 && ClimbsAt(records, e - 1);
    if e - 1 < d - 1 {
      PathIncreases(records, e - 1, d - 1);
    }
    if j < last {
      KidsIncrease(records, i, j, last);
    }
  }

  lemma LastKidOfGrownIsGrown(records: seq<Record>, d: nat, i: nat)
    requires PathClimbs(records) && 1 <= d <= |RightPath(records)|
    requires i in PathSet(records, d) && i != RightPath(records)[d - 1]
    ensures Kids(records, i) != [] && Kids(records, i)[|Kids(records, i)| - 1] in PathSet(records, d)
  {
    var path := RightPath(records);
    var e :| 0 <= e < d && e < |path| && path[e] == i;
    assert ClimbsAt(records, e);
    assert path[e + 1] in PathSet(records, d);
  }

  /** A record appended at depth d becomes part of the trees of the path's first d levels. */
  lemma PathIsGrownSet(records: seq<Record>, d: nat)
    requires PathClimbs(records) && 1 <= d <= |RightPath(records)|
    ensures GrownSet(records, RightPath(records)[d - 1], PathSet(records, d))
  {
    var parent, grown := RightPath(records)[d - 1], PathSet(records, d);
    forall i: nat, j: nat
      ensures KidGrows(records, parent, grown, i, j)
    {
      if i < |records| && j < |Kids(records, i)| {
        if Kids(records, i)[j] in grown {
          GrownKidIsLast(records, d, i, j);
        } else if i in grown && i != parent {
          LastKidOfGrownIsGrown(records, d, i);
        }
      }
    }
    forall i: nat
      ensures HasKidToGrow(records, parent, grown, i)
    {
      if i < |records| && i in grown && i != parent {
        LastKidOfGrownIsGrown(records, d, i);
      }
    }
  }

  /** Nesting loses nothing and keeps the order: the preorder of the tree is the list. */
  lemma NestThenFlatten(records: seq<Record>)
    requires Outline(records) && records != []
    ensures Flatten(TreeAt(records, 0)) == records
  {
    FlattenIsFlat(records, 0);
    FlatIsList(records);
  }

  lemma AppendedFlat(records: seq<Record>, record: Record)
    requires records != [] && PathClimbs(records) && Continues(records, record)
    requires Flat(records, 0) == records
    ensures Flat(records + [record], 0) == records + [record]
  {
    var path, d := RightPath(records), record.depth;
    PathIsGrownSet(records, d);
    assert path[0] in PathSet(records, d);
    assert (records + [record])[..|records|] == records;
    FlatGrows(records, record, path[d - 1], PathSet(records, d), 0);
  }

  lemma {:induction false} FlatIsList(records: seq<Record>)
    requires Outline(records) && records != []
    ensures Flat(records, 0) == records
  {
    var n := |records| - 1;
    OutlineSplits(records);
    if n == 0 {
      LastHasNoKids(records);
    } else {
      FlatIsList(records[..n]);
      OutlineClimbs(records[..n]);
      AppendedFlat(records[..n], records[n]);
    }
  }

  /** The positions of siblings strictly increase along the list of children. */
  lemma {:induction false} SiblingIndexesIncrease(records: seq<Record>, i: nat, j: nat)
    requires Outline(records) && j + 1 < |Kids(records, i)|
    ensures records[Kids(records, i)[j]].index < records[Kids(records, i)[j + 1]].index
    decreases |records|
  {
    var before, record := records[..|records| - 1], records[|records| - 1];
    OutlineSplits(records);
    KidsStep(before, record, i);
    if j + 1 < |Kids(before, i)| {
      SiblingIndexesIncrease(before, i, j);
      assert records[Kids(before, i)[j]] == before[Kids(before, i)[j]];
      assert records[Kids(before, i)[j + 1]] == before[Kids(before, i)[j + 1]];
    } else {
      OutlineClimbs(before);
      LastKidPrecedes(before, record, i);
      assert records[Kids(before, i)[j]] == before[Kids(before, i)[j]];
    }
  }

  lemma LastKidPrecedes(records: seq<Record>, record: Record, i: nat)
    requires records != [] && PathClimbs(records) && Continues(records, record)
    requires ParentOf(records + [record], |records|) == Some(i) && Kids(records, i) != []
    ensures records[Kids(records, i)[|Kids(records, i)| - 1]].index < record.index
  {
    assert (records + [record])[..|records|] == records;
    var path, d := RightPath(records), record.depth;
    assert path[d - 1] == i;
    if d == |path| {
      LastHasNoKids(records);
    } else {
      assert ClimbsAt(records, d - 1);
    }
  }
}
