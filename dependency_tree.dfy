/**
 * The collector's own node type, `Dependency`: a key, a version, a scope and the ordered
 * list of the dependencies found beneath it, and the mapping from a graph node's artifact
 * to such a node.
 */
module DependencyTree {
  import opened DependencyGraph

  /** One node of the projected tree; `deps` keeps the order in which children were added. */
  datatype Dep = Dep(key: string, version: string, scope: string, deps: seq<Dep>)

  /** The `"%s:%s"` key of an artifact: group id, a colon, artifact id, and no version. */
  function Key(groupId: string, artifactId: string): (key: string)
    ensures |key| == |groupId| + 1 + |artifactId|
    ensures key[..|groupId|] == groupId && key[|groupId|] == ':' && key[|groupId| + 1..] == artifactId
  {
    groupId + ":" + artifactId
  }

  /**
   * Keys identify coordinates: two keys built from group ids without a colon are equal only
   * when both the group ids and the artifact ids are.
   */
  lemma KeyInjective(g1: string, a1: string, g2: string, a2: string)
    requires ':' !in g1 && ':' !in g2
    requires Key(g1, a1) == Key(g2, a2)
    ensures g1 == g2 && a1 == a2
  {
  }

  /** A fresh node for an artifact: its key and base version, its scope unchanged, no children yet. */
  function ToDependency(a: Artifact): (d: Dep)
    ensures d.deps == []
    ensures d.version == a.baseVersion && d.scope == a.scope
    ensures |d.key| == |a.groupId| + 1 + |a.artifactId|
    ensures d.key[..|a.groupId|] == a.groupId && d.key[|a.groupId|] == ':'
    ensures d.key[|a.groupId| + 1..] == a.artifactId
  {
    Dep(Key(a.groupId, a.artifactId), a.baseVersion, a.scope, [])
  }
}
