/**
 The accessibility objects that the tree walker reads, as a static graph.

 Every object has an identity, a first child and a next sibling. Reading either link can
 fail, and a failed read hides the link's target. Nothing says the graph is a tree or is
 finite: links may form cycles, several objects may share an identity, and a chain of
 links may produce new identities forever.
 */
module TreeGraph {
  import opened Common

  type Obj = nat
  type Identity = nat
  type ObjectId = nat

  datatype Graph = Graph(
    identity: Obj -> Identity,
    firstChild: Obj -> Option<Obj>,
    nextSibling: Obj -> Option<Obj>,
    firstChildFails: Obj -> bool,
    nextSiblingFails: Obj -> bool,
    // the id that the object registry hands out for an identity in the walk's generation
    objectId: Identity -> ObjectId
  ) {
    /** What the adapter's first_child call leaves in the frame: an exception becomes "no child". */
    function ReadFirstChild(o: Obj): Option<Obj> {
      if firstChildFails(o) then None else firstChild(o)
    }

    function ReadNextSibling(o: Obj): Option<Obj> {
      if nextSiblingFails(o) then None else nextSibling(o)
    }

    function IdOf(o: Obj): ObjectId {
      objectId(identity(o))
    }

    /** The k-th object of the sibling chain that begins at `start`. */
    function Sibling(start: Option<Obj>, k: nat): Option<Obj>
      decreases k
    {
      if start.None? || k == 0 then start
      else Sibling(nextSibling(start.value), k - 1)
    }

    /** The object that a path of child positions leads to. */
    function ObjectAt(root: Obj, path: seq<nat>): Option<Obj> {
      if path == [] then Some(root)
      else
        var parent := ObjectAt(root, path[..|path| - 1]);
        if parent.None? then None
        else Sibling(firstChild(parent.value), path[|path| - 1])
    }
  }

  /** The registry hands out different ids for different identities. */
  ghost predicate DistinctIds(g: Graph) {
    forall a, b :: g.objectId(a) == g.objectId(b) ==> a == b
  }

  /** The traversal limits of a request; `None` is an absent limit. */
  datatype Limits = Limits(depth: Option<nat>, maxChildren: Option<nat>, maxNodes: Option<nat>)

  datatype Reason = NodeLimit | DepthLimit | ChildLimit | CycleDetected | TimeLimit | SizeLimit

  datatype Record = Record(
    obj: Obj,
    id: ObjectId,
    parentId: Option<ObjectId>,
    depth: nat,
    index: nat,
    firstChildFailed: bool,
    nextSiblingFailed: bool
  )

  /** Reasons keep the order in which they were first met, each once. */
  function AddReason(reasons: seq<Reason>, reason: Reason): seq<Reason> {
    if reason in reasons then reasons else reasons + [reason]
  }
}
