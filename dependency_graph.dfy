/**
 * The resolved dependency graph as the graph library hands it to the collector, and the
 * library's traversal machinery the collector plugs into: the depth-first visit/end-visit
 * walk, the visitor that collects every node, the ancestor-or-self filter, the filtering
 * visitor and the copy the building visitor makes. The graph builder produces a finite
 * tree; it is modelled as a value.
 */
module DependencyGraph {

  /** The Maven coordinates of a graph node that the collector reads. */
  datatype Artifact = Artifact(groupId: string, artifactId: string, baseVersion: string, scope: string)

  /**
   * What `getParent()` answers for a node: nothing (the root built by the graph builder),
   * the node itself (the self-loop sentinel some builders use for the root), or another node.
   */
  datatype ParentLink = NoParent | SelfParent | OtherParent

  datatype GraphNode = GraphNode(parent: ParentLink, artifact: Artifact, children: seq<GraphNode>)

  /** The root test of the collector's visitor: no parent, or the node is its own parent. */
  predicate IsRoot(n: GraphNode)
    ensures !IsRoot(n) <==> n.parent.OtherParent?
  {
    n.parent.NoParent? || n.parent.SelfParent?
  }

  /** No node of the forest `ns`, at any depth, carries the root mark. */
  predicate NoRootBelow(ns: seq<GraphNode>)
    decreases ns
  {
    forall i :: 0 <= i < |ns| ==> !IsRoot(ns[i]) && NoRootBelow(ns[i].children)
  }

  /** A graph as the builder returns it: the top node is the root and no other node is. */
  predicate WellFormed(g: GraphNode) {
    IsRoot(g) && NoRootBelow(g.children)
  }

  /**
   * The copy the building visitor makes of the tree whose walk it receives: the same
   * artifacts and the same shape, with fresh parent links. Its top has no parent and every
   * other node has its copied parent, so the copy is well formed whatever the original marks.
   */
  function Copy(g: GraphNode): (c: GraphNode)
    ensures c.parent == NoParent && c.artifact == g.artifact
    ensures WellFormed(c)
  {
    GraphNode(NoParent, g.artifact, CopyBelow(g.children))
  }

  /** The copies of the nodes beneath the top, each linked to its copied parent. */
  function CopyBelow(ns: seq<GraphNode>): (cs: seq<GraphNode>)
    decreases ns
    ensures |cs| == |ns|
    ensures NoRootBelow(cs)
  {
    if ns == [] then []
    else
      var head := GraphNode(OtherParent, ns[0].artifact, CopyBelow(ns[0].children));
      var tail := CopyBelow(ns[1..]);
      assert forall i :: 1 <= i < |[head] + tail| ==> ([head] + tail)[i] == tail[i - 1];
      [head] + tail
  }

  /** The two callbacks a visitor receives: before a node's children and after them. */
  datatype Event = Visit(node: GraphNode) | EndVisit(node: GraphNode)

  /** The depth-first walk of `accept`: a visit event, the children's walks in order, an end-visit event. */
  function Traverse(n: GraphNode): (evs: seq<Event>)
    decreases n
    ensures |evs| >= 2 && evs[0] == Visit(n) && evs[|evs| - 1] == EndVisit(n)
  {
    [Visit(n)] + TraverseAll(n.children) + [EndVisit(n)]
  }

  function TraverseAll(ns: seq<GraphNode>): seq<Event>
    decreases ns
  {
    if ns == [] then [] else Traverse(ns[0]) + TraverseAll(ns[1..])
  }

  /** The nodes a collecting visitor gathers: every node of the tree, in pre-order. */
  function Collect(n: GraphNode): (nodes: seq<GraphNode>)
    decreases n
    ensures |nodes| >= 1 && nodes[0] == n
  {
    [n] + CollectAll(n.children)
  }

  function CollectAll(ns: seq<GraphNode>): seq<GraphNode>
    decreases ns
  {
    if ns == [] then [] else Collect(ns[0]) + CollectAll(ns[1..])
  }

  /** `a` is `d` or lies above it in the tree. */
  predicate AncestorOrSelf(a: GraphNode, d: GraphNode)
    decreases a
    ensures AncestorOrSelf(a, d) ==> d in Collect(a)
  {
    CollectAllHolds(a.children);
    a == d || exists i :: 0 <= i < |a.children| && AncestorOrSelf(a.children[i], d)
  }

  /** Each tree of a forest contributes all its collected nodes to the forest's list. */
  lemma {:induction false} CollectAllHolds(ns: seq<GraphNode>)
    ensures forall i, d :: 0 <= i < |ns| && d in Collect(ns[i]) ==> d in CollectAll(ns)
    decreases ns
  {
    if ns != [] {
      CollectAllHolds(ns[1..]);
      forall i, d | 0 <= i < |ns| && d in Collect(ns[i])
        ensures d in CollectAll(ns)
      {
        if i > 0 {
          assert ns[i] == ns[1..][i - 1];
        }
      }
    }
  }

  /** The ancestor-or-self filter built from a node list: it keeps a node above or at one of them. */
  predicate Accepts(nodes: seq<GraphNode>, n: GraphNode)
    ensures n in nodes ==> Accepts(nodes, n)
  {
    exists j :: 0 <= j < |nodes| && AncestorOrSelf(n, nodes[j])
  }

  /** The filtering visitor: the wrapped visitor receives exactly the events of accepted nodes. */
  function Filter(evs: seq<Event>, nodes: seq<GraphNode>): (kept: seq<Event>)
    decreases evs
    ensures |kept| <= |evs|
  {
    if evs == [] then []
    else (if Accepts(nodes, evs[0].node) then [evs[0]] else []) + Filter(evs[1..], nodes)
  }

  /** The filter keeps exactly the events whose node it accepts, and only those. */
  lemma {:induction false} FilterMembers(evs: seq<Event>, nodes: seq<GraphNode>)
    ensures forall e :: e in Filter(evs, nodes) <==> e in evs && Accepts(nodes, e.node)
    decreases evs
  {
    if evs != [] {
      FilterMembers(evs[1..], nodes);
      assert evs == [evs[0]] + evs[1..];
    }
  }

  /** Every node a list names passes the filter built from it, so filtering such events drops none. */
  lemma {:induction false} FilterKeepsCollected(evs: seq<Event>, nodes: seq<GraphNode>)
    requires forall e :: e in evs ==> e.node in nodes
    ensures Filter(evs, nodes) == evs
    decreases evs
  {
    if evs != [] {
      var j :| 0 <= j < |nodes| && nodes[j] == evs[0].node;
      assert AncestorOrSelf(evs[0].node, nodes[j]);
      FilterKeepsCollected(evs[1..], nodes);
      assert evs == [evs[0]] + evs[1..];
    }
  }

  /** The walk of a tree only ever names nodes that the collecting walk gathered. */
  lemma {:induction false} TraverseCollected(n: GraphNode)
    ensures forall e :: e in Traverse(n) ==> e.node in Collect(n)
    decreases n
  {
    TraverseAllCollected(n.children);
  }

  lemma {:induction false} TraverseAllCollected(ns: seq<GraphNode>)
    ensures forall e :: e in TraverseAll(ns) ==> e.node in CollectAll(ns)
    decreases ns
  {
    if ns != [] {
      TraverseCollected(ns[0]);
      TraverseAllCollected(ns[1..]);
    }
  }

  /**
   * The second pass: the filter is built from the first pass's node list, which holds every
   * node, so the wrapped visitor sees the unfiltered walk.
   */
  lemma SecondPassSeesEveryEvent(g: GraphNode)
    ensures Filter(Traverse(g), Collect(g)) == Traverse(g)
  {
    TraverseCollected(g);
    FilterKeepsCollected(Traverse(g), Collect(g));
  }
}
