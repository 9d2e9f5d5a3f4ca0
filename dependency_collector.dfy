/**
 * The projection of the resolved dependency graph onto the collector's nested `Dependency`
 * tree (`collectProjectDependencies`, `toJson`).
 *
 * The visitor keeps a stack of references to the nodes it is building and adds each new node
 * to the dependency list of the node on top of that stack. A reference to a node of the tree
 * under construction is modelled by its position: the stack is a sequence of child indices,
 * and the j-th entry from the bottom refers to the node reached from `result` by following
 * `stack[..j + 1]`. The whole stack is therefore the position of the node on top of it, and the
 * empty stack names the top-level `result` list itself.
 */
module DependencyCollector {
  import opened Results
  import opened DependencyGraph
  import opened DependencyTree
  import TreeJson

  /*** The projection the visitor is meant to compute ***/

  /** A graph node with the projection of its children beneath it. */
  function Project(n: GraphNode): (d: Dep)
    decreases n
    ensures d.key == Key(n.artifact.groupId, n.artifact.artifactId)
    ensures d.version == n.artifact.baseVersion && d.scope == n.artifact.scope
    ensures |d.deps| == |n.children|
  {
    ToDependency(n.artifact).(deps := ProjectAll(n.children))
  }

  /** A forest projected node by node, keeping the graph's child order. */
  function ProjectAll(ns: seq<GraphNode>): (ds: seq<Dep>)
    decreases ns
    ensures |ds| == |ns|
    ensures forall i :: 0 <= i < |ns| ==> ds[i] == Project(ns[i])
  {
    if ns == [] then [] else [Project(ns[0])] + ProjectAll(ns[1..])
  }

  /*** Positions in the tree under construction ***/

  /** The dependency list of the node at `path`; the empty path names the top-level list. */
  function ChildrenAt(forest: seq<Dep>, path: seq<nat>): seq<Dep>
    decreases path
  {
    if path == [] then forest
    else if path[0] < |forest| then ChildrenAt(forest[path[0]].deps, path[1..])
    else []
  }

  /** Every index along `path` exists, so `path` refers to a node (or to the top level). */
  predicate ValidPath(forest: seq<Dep>, path: seq<nat>)
    decreases path
  {
    path == [] || (path[0] < |forest| && ValidPath(forest[path[0]].deps, path[1..]))
  }

  /** `forest` with `ds` added at the end of the dependency list at `path`. */
  function Extend(forest: seq<Dep>, path: seq<nat>, ds: seq<Dep>): (extended: seq<Dep>)
    decreases path
    ensures |extended| == |forest| + (if path == [] then |ds| else 0)
  {
    if path == [] then forest + ds
    else if path[0] < |forest| then
      forest[path[0] := forest[path[0]].(deps := Extend(forest[path[0]].deps, path[1..], ds))]
    else forest
  }

  /** Adding at a position leaves that position valid and appends exactly `ds` to its list. */
  lemma {:induction false} ExtendAppends(forest: seq<Dep>, path: seq<nat>, ds: seq<Dep>)
    requires ValidPath(forest, path)
    ensures ValidPath(Extend(forest, path, ds), path)
    ensures ChildrenAt(Extend(forest, path, ds), path) == ChildrenAt(forest, path) + ds
    decreases path
  {
    if path != [] {
      ExtendAppends(forest[path[0]].deps, path[1..], ds);
    }
  }

  /**
   * Adding at a position changes nothing elsewhere: the list at any position that is not on
   * the way to `path` is the one it was.
   */
  lemma {:induction false} ExtendLeavesOthers(forest: seq<Dep>, path: seq<nat>, other: seq<nat>, ds: seq<Dep>)
    requires ValidPath(forest, other)
    requires !(|other| <= |path| && other == path[..|other|])
    ensures ValidPath(Extend(forest, path, ds), other)
    ensures ChildrenAt(Extend(forest, path, ds), other) == ChildrenAt(forest, other)
    decreases path
  {
    if path != [] && path[0] < |forest| && other[0] == path[0] {
      ExtendLeavesOthers(forest[path[0]].deps, path[1..], other[1..], ds);
    }
  }

  /** Two additions at the same position are one addition of both, in order. */
  lemma {:induction false} ExtendTwice(forest: seq<Dep>, path: seq<nat>, first: seq<Dep>, second: seq<Dep>)
    ensures Extend(Extend(forest, path, first), path, second) == Extend(forest, path, first + second)
    decreases path
  {
    if path == [] {
      assert forest + first + second == forest + (first + second);
    } else if path[0] < |forest| {
      ExtendTwice(forest[path[0]].deps, path[1..], first, second);
    }
  }

  /**
   * Adding `d` at a position and then adding `ds` beneath `d` (at the position one deeper,
   * at `d`'s index) is the same as adding `d` with `ds` already appended to its list.
   */
  lemma {:induction false} ExtendBeneath(forest: seq<Dep>, path: seq<nat>, d: Dep, ds: seq<Dep>)
    requires ValidPath(forest, path)
    ensures Extend(Extend(forest, path, [d]), path + [|ChildrenAt(forest, path)|], ds)
         == Extend(forest, path, [d.(deps := d.deps + ds)])
    decreases path
  {
    if path == [] {
      assert (forest + [d])[|forest| := d.(deps := d.deps + ds)] == forest + [d.(deps := d.deps + ds)];
    } else {
      assert (path + [|ChildrenAt(forest, path)|])[1..] == path[1..] + [|ChildrenAt(forest, path)|];
      ExtendBeneath(forest[path[0]].deps, path[1..], d, ds);
    }
  }

  /** One step deeper, at an existing index, is still a valid position. */
  lemma {:induction false} DeeperValid(forest: seq<Dep>, path: seq<nat>, j: nat)
    requires ValidPath(forest, path) && j < |ChildrenAt(forest, path)|
    ensures ValidPath(forest, path + [j])
    decreases path
  {
    if path != [] {
      assert (path + [j])[1..] == path[1..] + [j];
      DeeperValid(forest[path[0]].deps, path[1..], j);
    }
  }

  /** One step up from a valid position is a valid position. */
  lemma {:induction false} ShallowerValid(forest: seq<Dep>, path: seq<nat>)
    requires ValidPath(forest, path) && path != []
    ensures ValidPath(forest, path[..|path| - 1])
    decreases path
  {
    if |path| > 1 {
      assert path[..|path| - 1][1..] == path[1..][..|path[1..]| - 1];
      ShallowerValid(forest[path[0]].deps, path[1..]);
    }
  }

  /*** The visitor ***/

  /** The visitor's state: the top-level list and the stack of open nodes (its top at the end). */
  datatype VisitorState = VisitorState(result: seq<Dep>, stack: seq<nat>)

  /** The state the collector's visitor starts in: an empty `result` and an empty stack. */
  const Start := VisitorState([], [])

  /**
   * The visitor's response to one event. A visit of a non-root node adds its `Dependency`
   * to the list the stack designates and pushes it; an end-visit pops when the stack is not empty.
   */
  function Step(st: VisitorState, e: Event): (next: VisitorState)
    ensures ValidPath(st.result, st.stack) ==> ValidPath(next.result, next.stack)
    ensures e.EndVisit? ==> next.result == st.result && |next.stack| == if st.stack == [] then 0 else |st.stack| - 1
    ensures e.Visit? && !IsRoot(e.node) ==> |next.stack| == |st.stack| + 1
    ensures e.Visit? && IsRoot(e.node) ==> next == st
  {
    StepKeepsValid(st, e);
    match e
    case Visit(n) =>
      if IsRoot(n) then st
      else VisitorState(Extend(st.result, st.stack, [ToDependency(n.artifact)]),
                        st.stack + [|ChildrenAt(st.result, st.stack)|])
    case EndVisit(_) =>
      if st.stack == [] then st else st.(stack := st.stack[..|st.stack| - 1])
  }

  /** The visitor's state after a sequence of events. */
  function Run(st: VisitorState, evs: seq<Event>): (final: VisitorState)
    decreases |evs|
    ensures ValidPath(st.result, st.stack) ==> ValidPath(final.result, final.stack)
  {
    if evs == [] then st else Run(Step(st, evs[0]), evs[1..])
  }

  lemma StepKeepsValid(st: VisitorState, e: Event)
    ensures ValidPath(st.result, st.stack) && e.Visit? && !IsRoot(e.node) ==>
              ValidPath(Extend(st.result, st.stack, [ToDependency(e.node.artifact)]),
                        st.stack + [|ChildrenAt(st.result, st.stack)|])
    ensures ValidPath(st.result, st.stack) && st.stack != [] ==>
              ValidPath(st.result, st.stack[..|st.stack| - 1])
  {
    if ValidPath(st.result, st.stack) && e.Visit? && !IsRoot(e.node) {
      var r := Extend(st.result, st.stack, [ToDependency(e.node.artifact)]);
      ExtendAppends(st.result, st.stack, [ToDependency(e.node.artifact)]);
      DeeperValid(r, st.stack, |ChildrenAt(st.result, st.stack)|);
    }
    if ValidPath(st.result, st.stack) && st.stack != [] {
      ShallowerValid(st.result, st.stack);
    }
  }

  lemma {:induction false} RunAppend(st: VisitorState, first: seq<Event>, second: seq<Event>)
    ensures Run(st, first + second) == Run(Run(st, first), second)
    decreases |first|
  {
    if first != [] {
      assert (first + second)[0] == first[0];
      assert (first + second)[1..] == first[1..] + second;
      RunAppend(Step(st, first[0]), first[1..], second);
    } else {
      assert first + second == second;
    }
  }

  /** The anonymous visitor of `collectProjectDependencies`, with the `result` list it fills. */
  class StackVisitor {
    var result: seq<Dep>
    var stack: seq<nat>

    /** The stack always designates a node of `result` (or `result` itself). */
    ghost predicate Valid()
      reads this
    {
      ValidPath(result, stack)
    }

    function State(): VisitorState
      reads this
    {
      VisitorState(result, stack)
    }

    constructor ()
      ensures Valid() && result == [] && stack == []
    {
      result := [];
      stack := [];
    }

    /**
     * A non-root node becomes a `Dependency`, is appended to `result` when the stack is
     * empty and otherwise to the dependency list of the node on top of the stack, and is
     * pushed. A root node changes nothing.
     */
    method Visit(node: GraphNode)
      requires Valid()
      modifies this
      ensures Valid()
      ensures IsRoot(node) ==> result == old(result) && stack == old(stack)
      ensures !IsRoot(node) ==>
                ChildrenAt(result, old(stack)) == ChildrenAt(old(result), old(stack)) + [ToDependency(node.artifact)]
      ensures !IsRoot(node) ==>
                result == Extend(old(result), old(stack), [ToDependency(node.artifact)]) &&
                stack == old(stack) + [|ChildrenAt(old(result), old(stack))|]
    {
      if node.parent != NoParent && node.parent != SelfParent {
        var dependency := ToDependency(node.artifact);
        var slot := |ChildrenAt(result, stack)|;
        ExtendAppends(result, stack, [dependency]);
        if stack == [] {
          result := result + [dependency];
        } else {
          result := Extend(result, stack, [dependency]);
        }
        DeeperValid(result, stack, slot);
        stack := stack + [slot];
      }
    }

    /** Pops the stack unless it is empty; `result` is left as it is. */
    method EndVisit(node: GraphNode)
      requires Valid()
      modifies this
      ensures Valid()
      ensures result == old(result)
      ensures stack == if old(stack) == [] then [] else old(stack)[..|old(stack)| - 1]
    {
      if stack != [] {
        ShallowerValid(result, stack);
        stack := stack[..|stack| - 1];
      }
    }
  }

  /*** Correctness of the visitor over the walk of a graph ***/

  /**
   * The walk of a non-root subtree adds that subtree's projection to the list the stack
   * designates and leaves the stack as it found it: the node's visit pushed exactly once, and
   * its end-visit popped that entry. The entry it pushed referred to the node's projection.
   */
  lemma {:induction false} RunSubtree(st: VisitorState, n: GraphNode)
    requires ValidPath(st.result, st.stack)
    requires !IsRoot(n) && NoRootBelow(n.children)
    ensures Run(st, Traverse(n)) == VisitorState(Extend(st.result, st.stack, [Project(n)]), st.stack)
    ensures ChildrenAt(Run(st, Traverse(n)).result, st.stack) == ChildrenAt(st.result, st.stack) + [Project(n)]
    decreases n
  {
    var r, s := st.result, st.stack;
    var d := ToDependency(n.artifact);
    var k := |ChildrenAt(r, s)|;
    var inner := TraverseAll(n.children);
    var st1 := Step(st, Visit(n));
    assert st1 == VisitorState(Extend(r, s, [d]), s + [k]);
    assert Traverse(n) == [Visit(n)] + (inner + [EndVisit(n)]);
    RunAppend(st, [Visit(n)], inner + [EndVisit(n)]);
    RunAppend(st1, inner, [EndVisit(n)]);
    ExtendAppends(r, s, [d]);
    DeeperValid(st1.result, s, k);
    RunForest(st1, n.children);
    var st2 := Run(st1, inner);
    assert st2 == VisitorState(Extend(st1.result, s + [k], ProjectAll(n.children)), s + [k]);
    ExtendBeneath(r, s, d, ProjectAll(n.children));
    assert d.(deps := d.deps + ProjectAll(n.children)) == Project(n);
    assert (s + [k])[..|s + [k]| - 1] == s;
    ExtendAppends(r, s, [Project(n)]);
  }

  /** The walk of a forest without root marks adds its projection, in order, at the stack's position. */
  lemma {:induction false} RunForest(st: VisitorState, ns: seq<GraphNode>)
    requires ValidPath(st.result, st.stack)
    requires NoRootBelow(ns)
    ensures Run(st, TraverseAll(ns)) == VisitorState(Extend(st.result, st.stack, ProjectAll(ns)), st.stack)
    decreases ns
  {
    if ns == [] {
      NothingAdded(st.result, st.stack);
    } else {
      RunAppend(st, Traverse(ns[0]), TraverseAll(ns[1..]));
      RunSubtree(st, ns[0]);
      var st1 := Run(st, Traverse(ns[0]));
      ExtendAppends(st.result, st.stack, [Project(ns[0])]);
      RunForest(st1, ns[1..]);
      ExtendTwice(st.result, st.stack, [Project(ns[0])], ProjectAll(ns[1..]));
    }
  }

  lemma {:induction false} NothingAdded(forest: seq<Dep>, path: seq<nat>)
    ensures Extend(forest, path, []) == forest
    decreases path
  {
    if path == [] {
      assert forest + [] == forest;
    } else if path[0] < |forest| {
      NothingAdded(forest[path[0]].deps, path[1..]);
      assert forest[path[0] := forest[path[0]]] == forest;
    }
  }

  /**
   * Over the walk of a well-formed graph the visitor ends with the projection of the root's
   * children in `result`, the root itself absent, and an empty stack.
   */
  lemma CollectFromRoot(g: GraphNode)
    requires WellFormed(g)
    ensures Run(Start, Traverse(g)) == VisitorState(ProjectAll(g.children), [])
  {
    var inner := TraverseAll(g.children);
    assert Traverse(g) == [Visit(g)] + (inner + [EndVisit(g)]);
    RunAppend(Start, [Visit(g)], inner + [EndVisit(g)]);
    assert Step(Start, Visit(g)) == Start;
    RunAppend(Start, inner, [EndVisit(g)]);
    RunForest(Start, g.children);
  }

  /*** The collector's operations ***/

  /** The message of the exception raised when the graph builder fails. */
  function GraphLoadError(project: string): (message: string)
    ensures |message| == 54 + |project| && message[54..] == project
  {
    "Can not load the graph of dependencies of the project " + project
  }

  /** The copy's nodes are projected exactly as the originals: the projection reads no parent link. */
  lemma {:induction false} ProjectCopy(ns: seq<GraphNode>)
    ensures ProjectAll(CopyBelow(ns)) == ProjectAll(ns)
    decreases ns
  {
    if ns != [] {
      ProjectCopy(ns[0].children);
      ProjectCopy(ns[1..]);
      assert CopyBelow(ns)[1..] == CopyBelow(ns[1..]);
    }
  }

  /**
   * `collectProjectDependencies`: `built` is what the graph builder returned for `project`.
   * A builder failure becomes a failure and never a partial result. Otherwise the nodes of a
   * first walk feed the ancestor-or-self filter of a second walk. The building visitor copies
   * the nodes that pass and, once that walk ends, walks its copy with the stack visitor. The
   * result is the root's children projected in graph order, whatever the builder's parent links.
   */
  method CollectProjectDependencies(project: string, built: Result<GraphNode>) returns (r: Result<seq<Dep>>)
    ensures built.Failure? <==> r.Failure?
    ensures built.Failure? ==> r == Failure(GraphLoadError(project))
    ensures built.Success? ==> r == Success(Run(Start, Traverse(Copy(built.value))).result)
    ensures built.Success? ==> r == Success(ProjectAll(built.value.children))
  {
    if built.Failure? {
      return Failure(GraphLoadError(project));
    }
    var root := built.value;
    var visitor := new StackVisitor();
    var nodes := Collect(root);
    var passed := Filter(Traverse(root), nodes);
    SecondPassSeesEveryEvent(root);
    assert passed == Traverse(root);
    // The whole walk passes the filter, so the building visitor copies all of `root`.
    var copy := Copy(root);
    var events := Traverse(copy);
    var i := 0;
    while i < |events|
      invariant 0 <= i <= |events|
      invariant visitor.Valid()
      invariant visitor.State() == Run(Start, events[..i])
    {
      match events[i] {
        case Visit(n) => visitor.Visit(n);
        case EndVisit(n) => visitor.EndVisit(n);
      }
      RunAppend(Start, events[..i], [events[i]]);
      assert events[..i + 1] == events[..i] + [events[i]];
      i := i + 1;
    }
    assert events[..i] == events;
    CollectFromRoot(copy);
    ProjectCopy(root.children);
    r := Success(visitor.result);
  }

  /** `toJson`: the projected dependencies of `project` in the collector's JSON format. */
  method ToJson(project: string, built: Result<GraphNode>) returns (r: Result<string>)
    ensures built.Failure? ==> r == Failure(GraphLoadError(project))
    ensures built.Success? ==> r == Success(TreeJson.Enc(ProjectAll(built.value.children)))
  {
    var collected := CollectProjectDependencies(project, built);
    match collected {
      case Failure(message) =>
        r := Failure(message);
      case Success(deps) =>
        var json := TreeJson.DependenciesToJson(deps);
        r := Success(json);
    }
  }

  /*** What the output holds ***/

  /** The nodes of a tree in pre-order, each without its children. */
  function Flatten(d: Dep): seq<Dep>
    decreases d
  {
    [d.(deps := [])] + FlattenAll(d.deps)
  }

  function FlattenAll(ds: seq<Dep>): seq<Dep>
    decreases ds
  {
    if ds == [] then [] else Flatten(ds[0]) + FlattenAll(ds[1..])
  }

  /** The fresh `Dependency` of each graph node, in order. */
  function ToDependencies(ns: seq<GraphNode>): (ds: seq<Dep>)
    ensures |ds| == |ns|
    ensures forall i :: 0 <= i < |ns| ==> ds[i] == ToDependency(ns[i].artifact)
  {
    if ns == [] then [] else [ToDependency(ns[0].artifact)] + ToDependencies(ns[1..])
  }

  /**
   * The projection of a forest holds one node for each of its graph nodes, in pre-order,
   * with the key, version and scope of that node's artifact.
   */
  lemma {:induction false} ProjectionNodes(ns: seq<GraphNode>)
    ensures FlattenAll(ProjectAll(ns)) == ToDependencies(CollectAll(ns))
    decreases ns
  {
    if ns != [] {
      var n := ns[0];
      assert ProjectAll(ns) == [Project(n)] + ProjectAll(ns[1..]);
      ProjectionNodes(n.children);
      ProjectionNodes(ns[1..]);
      assert Flatten(Project(n)) == [ToDependency(n.artifact)] + FlattenAll(ProjectAll(n.children));
      ToDependenciesAppend([n], CollectAll(n.children));
      ToDependenciesAppend(Collect(n), CollectAll(ns[1..]));
    }
  }

  lemma ToDependenciesAppend(a: seq<GraphNode>, b: seq<GraphNode>)
    ensures ToDependencies(a + b) == ToDependencies(a) + ToDependencies(b)
  {
  }

  /**
   * The root is never emitted: the output of a well-formed graph holds exactly the root's
   * proper descendants, in pre-order.
   */
  lemma OutputIsRootDescendants(g: GraphNode)
    ensures FlattenAll(ProjectAll(g.children)) == ToDependencies(Collect(g)[1..])
  {
    ProjectionNodes(g.children);
    assert Collect(g)[1..] == CollectAll(g.children);
  }
}
