# Dependency export of the Sonar Maven plugin, modelled in Dafny

The plugin passes the project's resolved dependency tree to the analysis as a JSON property
(`sonar.maven.projectDependencies`). `DependencyCollector` builds that text. It asks the
dependency graph builder for the project's graph. It walks the graph once with a collecting
visitor. It walks it a second time through an ancestor-or-self filter built from the first
walk's nodes. The second walk drives a visitor that keeps a stack of the `Dependency` objects
it has built. The visitor adds each non-root node under the node on top of the stack (or to
the top-level list) and pushes it. On end-visit it pops. The resulting forest is then written
out recursively into a `StringBuilder`.

The project has these modules:

- `DependencyGraph` (`dependency_graph.dfy`): the graph as a value (`GraphNode`, with the
  three possible answers of `getParent()`). It also holds the library's traversal as a
  sequence of visit/end-visit events (`Traverse`), the collecting visitor (`Collect`), the
  ancestor-or-self filter (`Accepts`), the filtering visitor (`Filter`) and the building
  visitor's copy of the graph (`Copy`).
- `DependencyTree` (`dependency_tree.dfy`): the collector's `Dependency` record (`Dep`) and
  `toDependency`.
- `DependencyCollector` (`dependency_collector.dfy`): the projection the visitor is meant to
  compute (`Project`). It holds the visitor as the class `StackVisitor`, whose `Visit` and
  `EndVisit` update its `result` and `stack` fields. Beside the class is a pure specification
  of the same visitor (`Step`/`Run`). It also holds `collectProjectDependencies` and `toJson`
  as methods, and the correctness lemmas.
  - The stack holds references into the tree under construction. A reference is modelled as a
    position: a path of child indices starting from `result`.
- `TreeJson` (`tree_json.dfy`): the encoding as functions (`EncDep`, `EncList`, `Enc`). It
  holds the serializer as methods that append to a `TextBuffer` object (the `StringBuilder`).
  It also has a decoder for the subset of JSON the encoder writes, used to prove that the
  encoding loses nothing.
- `CollectorExamples` (`collector_examples.dfy`): the two dependency trees whose exact JSON
  the plugin's test suite pins down.
- `Results` (`results.dfy`): `Option` and `Result`. A graph-builder failure, which the
  source turns into an `IllegalStateException`, is a `Failure` here.

The main results:

- **Correctness of the collector** (`CollectProjectDependencies`, `CollectFromRoot`,
  `RunSubtree`).
  - The stack visitor walks the copy that the building visitor makes of the graph. The copy
    has fresh parent links, so it carries the root mark on its top node only.
  - For every graph the builder returns, the collector returns the root's children, each
    projected with all its descendants, in graph order.
  - The root itself is never emitted, and the visitor's stack is empty at the end.
- **The filter drops nothing** (`SecondPassSeesEveryEvent`). The second walk's filter is built
  from the first walk's node list, so every event of the second walk reaches the visitor.
- **Round trip** (`DecodeEnc`). The JSON text decodes back to the forest whenever no field
  contains a quote or a backslash. Distinct such forests therefore get distinct texts
  (`EncInjective`).
- **The serializer writes the encoding** (`SerializeDep`, `SerializeDeps`,
  `DependenciesToJson`). The buffer ends up holding exactly the encoding of the forest.

## Model

| member | source | states |
|---|---|---|
| DependencyTree.ToDependency | src/main/java/org/codehaus/mojo/sonar/DependencyCollector.java:143-148 | The new dependency has no children yet. Its version is the artifact's base version and its scope is the artifact's scope. Its key is the group id, a colon, then the artifact id. |
| DependencyTree.Key | src/main/java/org/codehaus/mojo/sonar/DependencyCollector.java:145 | The key is `groupId:artifactId`: its length is the sum of the two plus one, the group id is its prefix, then comes a colon, and the artifact id is its suffix. |
| DependencyTree.KeyInjective | src/main/java/org/codehaus/mojo/sonar/DependencyCollector.java:145 | If neither group id contains a colon, two equal keys have equal group ids and equal artifact ids. |
| DependencyGraph.Traverse | src/main/java/org/codehaus/mojo/sonar/DependencyCollector.java:127 | A node's walk starts with its visit event and ends with its end-visit event. |
| DependencyGraph.Collect | src/main/java/org/codehaus/mojo/sonar/DependencyCollector.java:126-127 | The collecting visitor's node list is non-empty and starts with the node the walk began at. |
| DependencyGraph.IsRoot | src/main/java/org/codehaus/mojo/sonar/DependencyCollector.java:99 | A node is skipped by the visitor exactly when it has no parent or is its own parent; a node is added exactly when its parent is another node. |
| DependencyGraph.Copy | src/main/java/org/codehaus/mojo/sonar/DependencyCollector.java:91 | The building visitor's copy keeps the top node's artifact and gives it no parent. The copy is well formed whatever the original's parent links. |
| DependencyGraph.CopyBelow | src/main/java/org/codehaus/mojo/sonar/DependencyCollector.java:91 | The copied children keep their number and carry no root mark at any depth. |
| DependencyGraph.CollectAllHolds | src/main/java/org/codehaus/mojo/sonar/DependencyCollector.java:126-127 | The collecting visitor's list for a forest contains every node collected from each of its trees. |
| DependencyGraph.AncestorOrSelf | src/main/java/org/codehaus/mojo/sonar/DependencyCollector.java:129-130 | A node that lies at or above another has that other node in its collected subtree. |
| DependencyGraph.Accepts | src/main/java/org/codehaus/mojo/sonar/DependencyCollector.java:129-130 | The ancestor-or-self filter accepts every node of the list it was built from. |
| DependencyGraph.Filter | src/main/java/org/codehaus/mojo/sonar/DependencyCollector.java:131 | The filtering visitor passes on at most as many events as it receives. |
| DependencyGraph.FilterMembers | src/main/java/org/codehaus/mojo/sonar/DependencyCollector.java:131 | An event reaches the wrapped visitor exactly when it was sent and its node is accepted by the filter. |
| DependencyGraph.FilterKeepsCollected | src/main/java/org/codehaus/mojo/sonar/DependencyCollector.java:129-131 | If every event names a node of the list, the filter built from that list keeps every event, in order. |
| DependencyGraph.TraverseCollected | src/main/java/org/codehaus/mojo/sonar/DependencyCollector.java:126-127 | Every node that the walk of a tree names is in the collecting visitor's list for that tree. |
| DependencyGraph.SecondPassSeesEveryEvent | src/main/java/org/codehaus/mojo/sonar/DependencyCollector.java:126-133 | The second walk, filtered through the first walk's nodes, is the unfiltered walk. |
| DependencyCollector.Project | src/main/java/org/codehaus/mojo/sonar/DependencyCollector.java:99-110 | A projected node has the key, version and scope of its artifact and one child per graph child. |
| DependencyCollector.ProjectAll | src/main/java/org/codehaus/mojo/sonar/DependencyCollector.java:102-109 | A projected forest has one entry per graph node, in the same order, and each entry is that node's projection. |
| DependencyCollector.ExtendAppends | src/main/java/org/codehaus/mojo/sonar/DependencyCollector.java:102-109 | Adding at a valid stack position appends to the list at that position: `result` when the stack is empty, the top node's dependencies otherwise. The position stays valid. |
| DependencyCollector.ExtendLeavesOthers | src/main/java/org/codehaus/mojo/sonar/DependencyCollector.java:108 | Adding at a position leaves the list at every other valid position unchanged, except the lists on the way to that position. |
| DependencyCollector.ExtendTwice | src/main/java/org/codehaus/mojo/sonar/DependencyCollector.java:102-109 | Two additions at the same position equal one addition of both lists, in order. |
| DependencyCollector.ExtendBeneath | src/main/java/org/codehaus/mojo/sonar/DependencyCollector.java:108-110 | Children added under a node just pushed end up in that node's list, at its place in the tree. |
| DependencyCollector.DeeperValid | src/main/java/org/codehaus/mojo/sonar/DependencyCollector.java:110 | Pushing the index of an existing entry keeps the stack a valid position. |
| DependencyCollector.ShallowerValid | src/main/java/org/codehaus/mojo/sonar/DependencyCollector.java:118-121 | Popping keeps the stack a valid position. |
| DependencyCollector.Extend | src/main/java/org/codehaus/mojo/sonar/DependencyCollector.java:104-108 | Adding at the top level lengthens `result` by the added nodes; adding below it keeps the number of top-level entries. |
| DependencyCollector.StepKeepsValid | src/main/java/org/codehaus/mojo/sonar/DependencyCollector.java:108-120 | A visit of a non-root node pushes a valid position, and a pop leaves a valid position. |
| DependencyCollector.Step | src/main/java/org/codehaus/mojo/sonar/DependencyCollector.java:97-123 | One callback keeps the stack a valid position. An end-visit leaves `result` alone and shortens a non-empty stack by one. A non-root visit pushes one entry, and a root visit changes nothing. |
| DependencyCollector.Run | src/main/java/org/codehaus/mojo/sonar/DependencyCollector.java:96-133 | The visitor's stack stays a valid position over any sequence of callbacks. |
| DependencyCollector.RunAppend | src/main/java/org/codehaus/mojo/sonar/DependencyCollector.java:96-123 | The visitor's state after two event sequences equals its state after the first, then the second. |
| DependencyCollector.StackVisitor.constructor | src/main/java/org/codehaus/mojo/sonar/DependencyCollector.java:81-94 | The visitor starts with an empty result list and an empty stack. |
| DependencyCollector.StackVisitor.Visit | src/main/java/org/codehaus/mojo/sonar/DependencyCollector.java:97-113 | A root node (no parent, or its own parent) changes nothing. Any other node's dependency is appended to the list the stack designates and is then pushed. No other list changes, and the stack stays valid. |
| DependencyCollector.StackVisitor.EndVisit | src/main/java/org/codehaus/mojo/sonar/DependencyCollector.java:116-123 | The result is unchanged. The stack loses its top if it had one and is left as it is otherwise. |
| DependencyCollector.RunSubtree | src/main/java/org/codehaus/mojo/sonar/DependencyCollector.java:96-123 | Walking a non-root subtree appends the subtree's projection to the list the stack designates and leaves the stack as it was. |
| DependencyCollector.RunForest | src/main/java/org/codehaus/mojo/sonar/DependencyCollector.java:96-123 | Walking a forest without root marks appends the forest's projection, in order, at the stack's position. |
| DependencyCollector.NothingAdded | src/main/java/org/codehaus/mojo/sonar/DependencyCollector.java:102-109 | Adding nothing at any position leaves the tree unchanged. |
| DependencyCollector.CollectFromRoot | src/main/java/org/codehaus/mojo/sonar/DependencyCollector.java:94-133 | On a graph whose only root-marked node is its top, the visitor ends with the root's children projected in order, without the root, and with an empty stack. |
| DependencyCollector.GraphLoadError | src/main/java/org/codehaus/mojo/sonar/DependencyCollector.java:138 | The failure message is the fixed text of the exception followed by the project, which ends it. |
| DependencyCollector.ProjectCopy | src/main/java/org/codehaus/mojo/sonar/DependencyCollector.java:91-110 | The copy's nodes project exactly as the originals do, because the projection reads no parent link. |
| DependencyCollector.CollectProjectDependencies | src/main/java/org/codehaus/mojo/sonar/DependencyCollector.java:79-141 | A builder failure becomes exactly the "Can not load the graph of dependencies of the project …" error, and there is no other failure. Otherwise the result is the visitor's list after walking the building visitor's copy of the graph. For every graph that list is the projection of the root's children, in graph order. |
| DependencyCollector.ToJson | src/main/java/org/codehaus/mojo/sonar/DependencyCollector.java:150-153 | A builder failure propagates unchanged. Otherwise, for every graph, the text is the encoding of the root's projected children. |
| DependencyCollector.ToDependencies | src/main/java/org/codehaus/mojo/sonar/DependencyCollector.java:101 | One fresh dependency per graph node, in order. |
| DependencyCollector.ProjectionNodes | src/main/java/org/codehaus/mojo/sonar/DependencyCollector.java:99-110 | Flattening the projection of a forest in pre-order gives exactly the fresh dependency of each of its graph nodes, in pre-order. |
| DependencyCollector.OutputIsRootDescendants | src/main/java/org/codehaus/mojo/sonar/DependencyCollector.java:99 | The output holds one node for each proper descendant of the root, in pre-order, and none for the root. |
| TreeJson.EncDep | src/main/java/org/codehaus/mojo/sonar/DependencyCollector.java:176-189 | A node's JSON is an object: it starts with `{` and ends with `}`. |
| TreeJson.Enc | src/main/java/org/codehaus/mojo/sonar/DependencyCollector.java:155-162 | A forest's JSON is an array: it starts with `[` and ends with `]`. It is `[]` exactly when the forest is empty. |
| TreeJson.EncList | src/main/java/org/codehaus/mojo/sonar/DependencyCollector.java:164-174 | The list text is empty exactly for the empty list, and otherwise starts with the first object's `{` and ends with the last object's `}`. |
| TreeJson.EncListSnoc | src/main/java/org/codehaus/mojo/sonar/DependencyCollector.java:166-173 | One more node at the end of a list adds a comma and its object, or only the object when the list was empty. |
| TreeJson.EncListStep | src/main/java/org/codehaus/mojo/sonar/DependencyCollector.java:166-173 | Writing the next node, after a comma unless it is the first, extends the text of the prefix to the text of the longer prefix. |
| TreeJson.TextBuffer.Append | src/main/java/org/codehaus/mojo/sonar/DependencyCollector.java:158 | The buffer's text gains the appended string at its end. |
| TreeJson.SerializeDeps | src/main/java/org/codehaus/mojo/sonar/DependencyCollector.java:164-174 | The buffer gains the nodes' objects in order, separated by commas, with no comma after the last. |
| TreeJson.SerializeDep | src/main/java/org/codehaus/mojo/sonar/DependencyCollector.java:176-189 | The buffer gains exactly the node's object, with its dependencies written recursively inside `"d":[…]`. |
| TreeJson.EncDepPieces | src/main/java/org/codehaus/mojo/sonar/DependencyCollector.java:178-188 | The ten appends of `serializeDep` and its recursive `serializeDeps` call, taken together, write the node's object. |
| TreeJson.DependenciesToJson | src/main/java/org/codehaus/mojo/sonar/DependencyCollector.java:155-162 | The text returned is the forest's encoding: `[`, then the nodes, then `]`. |
| TreeJson.Expect | src/main/java/org/codehaus/mojo/sonar/DependencyCollector.java:178-188 | The decoder accepts a fixed piece of the format exactly when the text starts with it, and the text is that piece followed by what is left. |
| TreeJson.ReadString | src/main/java/org/codehaus/mojo/sonar/DependencyCollector.java:180-184 | A field is read up to the first quote. The text is the field, a quote, then the rest, and the field has no quote or backslash. |
| TreeJson.ReadPlainString | src/main/java/org/codehaus/mojo/sonar/DependencyCollector.java:180-184 | A field without quotes or backslashes, written and followed by its closing quote, reads back as itself. |
| TreeJson.ObjectRoundTrip | src/main/java/org/codehaus/mojo/sonar/DependencyCollector.java:176-189 | The object written for a node parses back to that node, whatever follows it. |
| TreeJson.ArrayRoundTrip | src/main/java/org/codehaus/mojo/sonar/DependencyCollector.java:164-174 | A bracketed list written for a forest parses back to that forest. |
| TreeJson.ElementsRoundTrip | src/main/java/org/codehaus/mojo/sonar/DependencyCollector.java:166-173 | A non-empty comma-separated list of objects, followed by `]`, parses back to its nodes. |
| TreeJson.DecodeEnc | src/main/java/org/codehaus/mojo/sonar/DependencyCollector.java:155-189 | Decoding the encoding of a forest without quotes or backslashes in its fields gives back the forest. |
| TreeJson.EncInjective | src/main/java/org/codehaus/mojo/sonar/DependencyCollector.java:155-189 | Two such forests with the same text are equal. |
| CollectorExamples.ExportDependenciesProjection | src/test/java/org/codehaus/mojo/sonar/SonarMojoTest.java:125-135 | The `export-dependencies` graph is well formed. The collector yields commons-io (with commons-lang beneath it) and then junit, whatever the root project is. |
| CollectorExamples.ExportDependenciesJson | src/test/java/org/codehaus/mojo/sonar/SonarMojoTest.java:132-134 | The JSON for `export-dependencies` is exactly the text the test expects, written as the pieces each node contributes. |
| CollectorExamples.SystemScopeProjection | src/test/java/org/codehaus/mojo/sonar/SonarMojoTest.java:151-153 | The `system-scope` graph is well formed. The collector yields xfire-core with the system-scope activation beneath it. |
| CollectorExamples.SystemScopeJson | src/test/java/org/codehaus/mojo/sonar/SonarMojoTest.java:151-153 | The JSON for `system-scope` is exactly the text the test expects, written as the pieces each node contributes. |

## Left out

- Building the dependency graph (the `DependencyGraphBuilder`, the project-building request and
  the Maven session) is not modelled. The graph it returns, or its failure, is a parameter of
  `CollectProjectDependencies` and `ToJson`.
- The exception's cause (the builder's exception) is not modelled. A failure carries only the
  message, and the project appears in it as a plain string, where the source has
  `MavenProject.toString()`.
- The graph library's own classes are modelled from the way the collector uses them, not from
  their source, which is not part of this model. This covers `accept`, the collecting visitor,
  `AncestorOrSelfDependencyNodeFilter`, `FilteringDependencyNodeVisitor` and
  `BuildingDependencyNodeVisitor`.
  - The building visitor copies the nodes it is shown and gives the copy fresh parent links:
    its top has none, and every other node has its copied parent. Once the walk ends, it walks
    the copy with the stack visitor.
  - This copy is `Copy`, taken of the graph whose walk passed the filter. It is not rebuilt
    event by event. `SecondPassSeesEveryEvent` proves that the whole walk passes.
- Object identity and aliasing: `Dependency` objects are modelled as values, and a stack entry
  as the position of its node in the tree. The source's `ArrayDeque` pushes and peeks
  references to objects that are also reachable from `result`. The model relies on each
  `Dependency` being reachable along exactly one path, which holds because `toDependency`
  always creates a new object.
- `CollectFromRoot` requires a well-formed graph, one whose only root-marked node is its
  top. `CollectProjectDependencies` applies it to the building visitor's copy, which is always
  well formed, so the collector's own contract has no such condition.
  - `OutputIsRootDescendants` is a fact about the projection of any graph.
  - It is tied to the collector's output through `CollectProjectDependencies`.
- A `null` scope, version, group id or artifact id is not modelled. Fields are strings, and the
  source would print `null` for a missing scope.
- The encoder writes field strings without JSON escaping, and so does the source. The round
  trip is proved only for fields without `"` and `\`. The decoder is part of the model's
  specification, not of the source.
- `SonarMojo`, `ExtensionsFactory` and the runner bootstrapping are outside this model. This
  covers the Maven and Sonar version checks, the property handling and the launch of the
  analysis.
- The test suite checks the JSON with a strict `JSONAssert` comparison. The examples prove
  the stronger statement that the text equals the expected string. That string is written as the
  concatenation of the literal pieces each node contributes, in the order the serializer appends them.
