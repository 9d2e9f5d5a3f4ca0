/**
 * The two dependency exports the plugin's test suite pins down exactly: a project with a
 * compile dependency that has its own compile dependency, plus a test dependency; and a
 * compile dependency with a transitive system-scope dependency. Whatever the root project
 * is, it does not appear in the output.
 */
module CollectorExamples {
  import opened Results
  import opened DependencyGraph
  import opened DependencyTree
  import opened DependencyCollector
  import opened TreeJson

  function Leaf(groupId: string, artifactId: string, version: string, scope: string): GraphNode {
    GraphNode(OtherParent, Artifact(groupId, artifactId, version, scope), [])
  }

  const CommonsLangNode := Leaf("commons-lang", "commons-lang", "2.6", "compile")
  const CommonsIoNode :=
    GraphNode(OtherParent, Artifact("commons-io", "commons-io", "2.4", "compile"), [CommonsLangNode])
  const JunitNode := Leaf("junit", "junit", "3.8.1", "test")
  const ActivationNode := Leaf("javax.activation", "activation", "1.1.1", "system")
  const XfireCoreNode :=
    GraphNode(OtherParent, Artifact("org.codehaus.xfire", "xfire-core", "1.2.6", "compile"), [ActivationNode])

  /** The `export-dependencies` project: commons-io (with commons-lang beneath it) and junit. */
  function ExportDependenciesGraph(project: Artifact): GraphNode {
    GraphNode(NoParent, project, [CommonsIoNode, JunitNode])
  }

  /** The `system-scope` project: xfire-core with a system-scope activation beneath it. */
  function SystemScopeGraph(project: Artifact): GraphNode {
    GraphNode(NoParent, project, [XfireCoreNode])
  }

  const CommonsLang := Dep("commons-lang:commons-lang", "2.6", "compile", [])
  const CommonsIo := Dep("commons-io:commons-io", "2.4", "compile", [CommonsLang])
  const Junit := Dep("junit:junit", "3.8.1", "test", [])
  const Activation := Dep("javax.activation:activation", "1.1.1", "system", [])
  const XfireCore := Dep("org.codehaus.xfire:xfire-core", "1.2.6", "compile", [Activation])

  /** A node without children is projected to its key, version and scope and nothing beneath. */
  lemma LeafProjection(groupId: string, artifactId: string, version: string, scope: string)
    ensures Project(Leaf(groupId, artifactId, version, scope))
         == Dep(groupId + ":" + artifactId, version, scope, [])
  {
  }

  /** `commons-io` is projected with `commons-lang` beneath it. */
  lemma CommonsIoProjection()
    ensures Project(CommonsIoNode) == CommonsIo
  {
    LeafProjection("commons-lang", "commons-lang", "2.6", "compile");
    assert "commons-lang" + ":" + "commons-lang" == "commons-lang:commons-lang";
    assert ProjectAll(CommonsIoNode.children) == [CommonsLang];
    assert "commons-io" + ":" + "commons-io" == "commons-io:commons-io";
  }

  /** The collector's result for `export-dependencies`, whatever the root project is. */
  lemma ExportDependenciesProjection(project: Artifact)
    ensures WellFormed(ExportDependenciesGraph(project))
    ensures ProjectAll(ExportDependenciesGraph(project).children) == [CommonsIo, Junit]
  {
    CommonsIoProjection();
    LeafProjection("junit", "junit", "3.8.1", "test");
    assert "junit" + ":" + "junit" == "junit:junit";
    assert ProjectAll([CommonsIoNode, JunitNode]) == [CommonsIo, Junit];
  }

  /** `xfire-core` is projected with the system-scope `activation` beneath it. */
  lemma XfireCoreProjection()
    ensures Project(XfireCoreNode) == XfireCore
  {
    LeafProjection("javax.activation", "activation", "1.1.1", "system");
    assert "javax.activation" + ":" + "activation" == "javax.activation:activation";
    assert ProjectAll(XfireCoreNode.children) == [Activation];
    assert "org.codehaus.xfire" + ":" + "xfire-core" == "org.codehaus.xfire:xfire-core";
  }

  /** The collector's result for `system-scope`, whatever the root project is. */
  lemma SystemScopeProjection(project: Artifact)
    ensures WellFormed(SystemScopeGraph(project))
    ensures ProjectAll(SystemScopeGraph(project).children) == [XfireCore]
  {
    XfireCoreProjection();
    assert ProjectAll([XfireCoreNode]) == [XfireCore];
  }

  /*** The object each node is written as, piece by piece as the serializer appends them ***/

  lemma CommonsLangJson()
    ensures EncDep(CommonsLang) == "{\"k\":\"" + "commons-lang:commons-lang" + "\",\"v\":\"" + "2.6" + "\",\"s\":\"" + "compile" + "\",\"d\":[" + "]}"
  {
    assert EncList(CommonsLang.deps) == "";
  }

  lemma CommonsIoJson()
    ensures EncDep(CommonsIo)
         == "{\"k\":\"" + "commons-io:commons-io" + "\",\"v\":\"" + "2.4" + "\",\"s\":\"" + "compile" + "\",\"d\":["
         + ("{\"k\":\"" + "commons-lang:commons-lang" + "\",\"v\":\"" + "2.6" + "\",\"s\":\"" + "compile" + "\",\"d\":[" + "]}")
         + "]}"
  {
    CommonsLangJson();
    assert EncList(CommonsIo.deps) == EncDep(CommonsLang);
  }

  lemma JunitJson()
    ensures EncDep(Junit) == "{\"k\":\"" + "junit:junit" + "\",\"v\":\"" + "3.8.1" + "\",\"s\":\"" + "test" + "\",\"d\":[" + "]}"
  {
    assert EncList(Junit.deps) == "";
  }

  lemma ActivationJson()
    ensures EncDep(Activation) == "{\"k\":\"" + "javax.activation:activation" + "\",\"v\":\"" + "1.1.1" + "\",\"s\":\"" + "system" + "\",\"d\":[" + "]}"
  {
    assert EncList(Activation.deps) == "";
  }

  lemma XfireCoreJson()
    ensures EncDep(XfireCore)
         == "{\"k\":\"" + "org.codehaus.xfire:xfire-core" + "\",\"v\":\"" + "1.2.6" + "\",\"s\":\"" + "compile" + "\",\"d\":["
         + ("{\"k\":\"" + "javax.activation:activation" + "\",\"v\":\"" + "1.1.1" + "\",\"s\":\"" + "system" + "\",\"d\":[" + "]}")
         + "]}"
  {
    ActivationJson();
    assert EncList(XfireCore.deps) == EncDep(Activation);
  }

  /** The exact text expected for `export-dependencies`, written as the pieces each node contributes. */
  lemma ExportDependenciesJson(project: Artifact)
    ensures Enc(ProjectAll(ExportDependenciesGraph(project).children))
         == "["
         + ("{\"k\":\"" + "commons-io:commons-io" + "\",\"v\":\"" + "2.4" + "\",\"s\":\"" + "compile" + "\",\"d\":["
           + ("{\"k\":\"" + "commons-lang:commons-lang" + "\",\"v\":\"" + "2.6" + "\",\"s\":\"" + "compile" + "\",\"d\":[" + "]}")
           + "]}")
         + ","
         + ("{\"k\":\"" + "junit:junit" + "\",\"v\":\"" + "3.8.1" + "\",\"s\":\"" + "test" + "\",\"d\":[" + "]}")
         + "]"
  {
    ExportDependenciesProjection(project);
    CommonsIoJson();
    JunitJson();
    assert [CommonsIo, Junit][1..] == [Junit];
    assert EncList([CommonsIo, Junit]) == EncDep(CommonsIo) + "," + EncDep(Junit);
    Assoc("[", EncDep(CommonsIo) + ",", EncDep(Junit));
    Assoc("[", EncDep(CommonsIo), ",");
  }

  /** The exact text expected for `system-scope`, written as the pieces each node contributes. */
  lemma SystemScopeJson(project: Artifact)
    ensures Enc(ProjectAll(SystemScopeGraph(project).children))
         == "["
         + ("{\"k\":\"" + "org.codehaus.xfire:xfire-core" + "\",\"v\":\"" + "1.2.6" + "\",\"s\":\"" + "compile" + "\",\"d\":["
           + ("{\"k\":\"" + "javax.activation:activation" + "\",\"v\":\"" + "1.1.1" + "\",\"s\":\"" + "system" + "\",\"d\":[" + "]}")
           + "]}")
         + "]"
  {
    SystemScopeProjection(project);
    XfireCoreJson();
    assert EncList([XfireCore]) == EncDep(XfireCore);
  }
}
