/** The naming convention on concrete names, for any set of targets. */
module VisibilityExamples {
  import opened AntProject
  import opened Visibility

  /**
   * `compile.override` stays in the graph even though `compile` exists: only a target named
   * `override` would hide it.
   */
  lemma OverrideOfExistingBaseStaysVisible(targets: map<string, Target>)
    requires "compile" in targets && "override" !in targets
    ensures IsTopLevel("compile.override", targets)
  {
    assert "compile.override" == "compile" + "." + "override";
    DottedName("compile", "override", targets);
  }

  /** `build.debug` is hidden exactly when a target named `debug` exists. */
  lemma HiddenBySuffixTarget(targets: map<string, Target>)
    ensures IsTopLevel("build.debug", targets) <==> "debug" !in targets
  {
    assert "build.debug" == "build" + "." + "debug";
    DottedName("build", "debug", targets);
  }

  /** Only the first dot counts: `a.b.c` is hidden by a target `b.c`, not by a target `c`. */
  lemma OnlyFirstDotCounts(targets: map<string, Target>)
    requires "c" in targets
    ensures IsTopLevel("a.b.c", targets) <==> "b.c" !in targets
  {
    assert "a.b.c" == "a" + "." + "b.c";
    DottedName("a", "b.c", targets);
  }
}
