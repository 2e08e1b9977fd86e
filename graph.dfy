/**
 * What the graph renderer prints, as functions of the project, the restriction and the order
 * in which the targets are visited, and the properties of that output.
 */
module Graph {
  import opened JavaStrings
  import opened AntProject
  import opened Visibility

  /** A target appears in the graph when its defining file passes the restriction and it is top-level. */
  function Visible(prj: Project, restrictions: set<string>, name: string): (r: bool)
    requires name in prj.targets
    ensures r <==> && (restrictions == {} || prj.targets[name].location in restrictions)
                   && !IsOverrideName(name, prj.targets.Keys)
  {
    Admits(restrictions, prj.targets[name].location) && IsTopLevel(name, prj.targets)
  }

  /** The first line of the output; the project's name can be read back from it. */
  function HeaderLine(projectName: string): (r: string)
    ensures |r| == |projectName| + 19
    ensures r[..16] == "strict digraph \"" && r[|r| - 3..] == "\" {"
    ensures r[16..|r| - 3] == projectName
  {
    "strict digraph \"" + projectName + "\" {"
  }

  /**
   * The line for an edge from a target to one of its dependencies; names are not escaped.
   * Both names can be read back from the line, and it starts with a blank, unlike the header
   * and the footer.
   */
  function EdgeLine(from: string, to: string): (r: string)
    ensures |r| == |from| + |to| + 11
    ensures r[..3] == "  \"" && r[|r| - 2..] == "\";"
    ensures r[3..3 + |from|] == from && r[|r| - 2 - |to|..|r| - 2] == to
    ensures r[3 + |from|..3 + |from| + 6] == "\" -> \""
  {
    "  \"" + from + "\" -> \"" + to + "\";"
  }

  /** The last line of the output, which is neither a header nor an edge line. */
  function FooterLine(): (r: string)
    ensures |r| == 1 && r[0] == '}'
    ensures forall n :: r != HeaderLine(n)
    ensures forall a, b :: r != EdgeLine(a, b)
  {
    "}"
  }

  /** The edges emitted for the dependency list `deps` of target `name`, in list order. */
  function DepEdges(prj: Project, restrictions: set<string>, name: string, deps: seq<string>)
    : (edges: seq<(string, string)>)
    requires forall d :: d in deps ==> d in prj.targets
    ensures |edges| <= |deps|
  {
    if deps == [] then []
    else
      var d := deps[|deps| - 1];
      DepEdges(prj, restrictions, name, deps[..|deps| - 1])
        + (if Visible(prj, restrictions, d) then [(name, d)] else [])
  }

  /** The edges emitted for target `name`: none unless the target itself is visible. */
  function TargetEdges(prj: Project, restrictions: set<string>, name: string): (edges: seq<(string, string)>)
    requires DependenciesResolve(prj) && name in prj.targets
    ensures |edges| <= |prj.targets[name].dependencies|
    ensures edges != [] ==> Visible(prj, restrictions, name)
  {
    if Visible(prj, restrictions, name)
    then DepEdges(prj, restrictions, name, prj.targets[name].dependencies)
    else []
  }

  /** The edges emitted for the targets `sorted`, visited in that order. */
  function GraphEdges(prj: Project, restrictions: set<string>, sorted: seq<string>): (edges: seq<(string, string)>)
    requires DependenciesResolve(prj) && AllTargets(prj, sorted)
    ensures |edges| <= DependencyCount(prj, sorted)
  {
    if sorted == [] then []
    else
      GraphEdges(prj, restrictions, sorted[..|sorted| - 1])
        + TargetEdges(prj, restrictions, sorted[|sorted| - 1])
  }

  /** The printed lines of a list of edges, one per edge. */
  function Lines(edges: seq<(string, string)>): seq<string> {
    seq(|edges|, i requires 0 <= i < |edges| => EdgeLine(edges[i].0, edges[i].1))
  }

  /** The whole output: the header, one line per emitted edge, the footer. */
  function GraphLines(prj: Project, restrictions: set<string>, sorted: seq<string>): (lines: seq<string>)
    requires DependenciesResolve(prj) && AllTargets(prj, sorted)
    ensures 2 <= |lines| <= DependencyCount(prj, sorted) + 2
    ensures lines[0] == HeaderLine(prj.name) && lines[|lines| - 1] == FooterLine()
  {
    [HeaderLine(prj.name)] + Lines(GraphEdges(prj, restrictions, sorted)) + [FooterLine()]
  }

  /** The output has the header first, the footer last and one edge line per emitted edge between. */
  lemma GraphLinesShape(prj: Project, restrictions: set<string>, sorted: seq<string>)
    requires DependenciesResolve(prj) && AllTargets(prj, sorted)
    ensures var lines, edges := GraphLines(prj, restrictions, sorted), GraphEdges(prj, restrictions, sorted);
      && |lines| == |edges| + 2
      && lines[0] == HeaderLine(prj.name)
      && lines[|lines| - 1] == FooterLine()
      && forall i :: 0 <= i < |edges| ==> lines[i + 1] == EdgeLine(edges[i].0, edges[i].1)
  {
  }

  /** The number of dependency entries, repeats included, of the targets `sorted`. */
  function DependencyCount(prj: Project, sorted: seq<string>): nat
    requires AllTargets(prj, sorted)
  {
    if sorted == [] then 0
    else DependencyCount(prj, sorted[..|sorted| - 1]) + |prj.targets[sorted[|sorted| - 1]].dependencies|
  }

  /** Visiting one more target of `sorted` appends that target's edges. */
  lemma GraphEdgesPrefix(prj: Project, restrictions: set<string>, sorted: seq<string>, i: nat)
    requires DependenciesResolve(prj) && AllTargets(prj, sorted) && i < |sorted|
    ensures AllTargets(prj, sorted[..i]) && AllTargets(prj, sorted[..i + 1])
    ensures GraphEdges(prj, restrictions, sorted[..i + 1])
         == GraphEdges(prj, restrictions, sorted[..i]) + TargetEdges(prj, restrictions, sorted[i])
  {
    assert sorted[..i + 1][..i] == sorted[..i];
  }

  /** Looking at one more dependency of the list appends its edge, if any. */
  lemma DepEdgesPrefix(prj: Project, restrictions: set<string>, name: string, deps: seq<string>, i: nat)
    requires (forall d :: d in deps ==> d in prj.targets) && i < |deps|
    ensures DepEdges(prj, restrictions, name, deps[..i + 1])
         == DepEdges(prj, restrictions, name, deps[..i])
              + (if Visible(prj, restrictions, deps[i]) then [(name, deps[i])] else [])
  {
    assert deps[..i + 1][..i] == deps[..i];
  }

  /** Concatenation regrouped, stated once so the loop proofs need not rediscover it. */
  lemma AppendAssociative<T>(a: seq<T>, b: seq<T>, c: seq<T>)
    ensures a + b + c == a + (b + c)
  {
  }

  /** A single edge prints as a single line. */
  lemma LinesSingle(e: (string, string))
    ensures Lines([e]) == [EdgeLine(e.0, e.1)]
  {
  }

  /** The lines of concatenated edge lists are the concatenated lines. */
  lemma LinesAppend(a: seq<(string, string)>, b: seq<(string, string)>)
    ensures Lines(a + b) == Lines(a) + Lines(b)
  {
  }

  /** An edge is emitted for a dependency list exactly when it leads to a visible entry of the list. */
  lemma {:induction false} DepEdgesMember(prj: Project, restrictions: set<string>, name: string,
                                          deps: seq<string>, e: (string, string))
    requires forall d :: d in deps ==> d in prj.targets
    ensures e in DepEdges(prj, restrictions, name, deps) <==>
              e.0 == name && e.1 in deps && Visible(prj, restrictions, e.1)
  {
    if deps != [] {
      var init := deps[..|deps| - 1];
      assert deps == init + [deps[|deps| - 1]];
      DepEdgesMember(prj, restrictions, name, init, e);
    }
  }

  /** Splitting a dependency list splits its edges in the same order. */
  lemma {:induction false} DepEdgesAppend(prj: Project, restrictions: set<string>, name: string,
                                          deps1: seq<string>, deps2: seq<string>)
    requires forall d :: d in deps1 + deps2 ==> d in prj.targets
    ensures DepEdges(prj, restrictions, name, deps1 + deps2)
         == DepEdges(prj, restrictions, name, deps1) + DepEdges(prj, restrictions, name, deps2)
  {
    if deps2 != [] {
      var init := deps2[..|deps2| - 1];
      assert (deps1 + deps2)[..|deps1 + deps2| - 1] == deps1 + init;
      DepEdgesAppend(prj, restrictions, name, deps1, init);
    } else {
      assert deps1 + deps2 == deps1;
    }
  }

  /**
   * When every dependency is visible, each entry of the list gives one edge, in list order:
   * a dependency declared twice gives the same edge twice.
   */
  lemma {:induction false} DepEdgesAllVisible(prj: Project, restrictions: set<string>, name: string,
                                              deps: seq<string>)
    requires forall d :: d in deps ==> d in prj.targets && Visible(prj, restrictions, d)
    ensures |DepEdges(prj, restrictions, name, deps)| == |deps|
    ensures forall i :: 0 <= i < |deps| ==> DepEdges(prj, restrictions, name, deps)[i] == (name, deps[i])
  {
    if deps != [] {
      DepEdgesAllVisible(prj, restrictions, name, deps[..|deps| - 1]);
    }
  }

  /**
   * An edge from `t` to `d` is emitted exactly when `t` is among the visited targets, `t` is
   * visible, `d` is one of its declared dependencies and `d` is visible too.
   */
  lemma {:induction false} GraphEdgesMember(prj: Project, restrictions: set<string>, sorted: seq<string>,
                                            t: string, d: string)
    requires DependenciesResolve(prj) && AllTargets(prj, sorted)
    ensures (t, d) in GraphEdges(prj, restrictions, sorted) <==>
              && t in sorted
              && Visible(prj, restrictions, t)
              && d in prj.targets[t].dependencies
              && Visible(prj, restrictions, d)
  {
    if sorted != [] {
      var init, last := sorted[..|sorted| - 1], sorted[|sorted| - 1];
      assert sorted == init + [last];
      GraphEdgesMember(prj, restrictions, init, t, d);
      if Visible(prj, restrictions, last) {
        DepEdgesMember(prj, restrictions, last, prj.targets[last].dependencies, (t, d));
      }
    }
  }

  /** An invisible target contributes no edge, whatever its dependencies. */
  lemma InvisibleSourceSilent(prj: Project, restrictions: set<string>, sorted: seq<string>, t: string)
    requires DependenciesResolve(prj) && AllTargets(prj, sorted)
    requires t in prj.targets && !Visible(prj, restrictions, t)
    ensures forall e :: e in GraphEdges(prj, restrictions, sorted) ==> e.0 != t
  {
    forall e | e in GraphEdges(prj, restrictions, sorted) ensures e.0 != t {
      GraphEdgesMember(prj, restrictions, sorted, e.0, e.1);
    }
  }

  /** An invisible dependency is the target of no edge. */
  lemma InvisibleDependencySilent(prj: Project, restrictions: set<string>, sorted: seq<string>, d: string)
    requires DependenciesResolve(prj) && AllTargets(prj, sorted)
    requires d in prj.targets && !Visible(prj, restrictions, d)
    ensures forall e :: e in GraphEdges(prj, restrictions, sorted) ==> e.1 != d
  {
    forall e | e in GraphEdges(prj, restrictions, sorted) ensures e.1 != d {
      GraphEdgesMember(prj, restrictions, sorted, e.0, e.1);
    }
  }

  /** With no restriction, the edges are exactly those between top-level targets. */
  lemma UnrestrictedEdges(prj: Project, sorted: seq<string>, t: string, d: string)
    requires DependenciesResolve(prj) && AllTargets(prj, sorted)
    ensures (t, d) in GraphEdges(prj, {}, sorted) <==>
              && t in sorted
              && IsTopLevel(t, prj.targets)
              && d in prj.targets[t].dependencies
              && IsTopLevel(d, prj.targets)
  {
    GraphEdgesMember(prj, {}, sorted, t, d);
  }

  /** A restriction never adds an edge: every restricted edge is also an unrestricted one. */
  lemma RestrictionOnlyRemoves(prj: Project, restrictions: set<string>, sorted: seq<string>, t: string, d: string)
    requires DependenciesResolve(prj) && AllTargets(prj, sorted)
    requires (t, d) in GraphEdges(prj, restrictions, sorted)
    ensures (t, d) in GraphEdges(prj, {}, sorted)
    ensures t in prj.targets && (restrictions == {} || prj.targets[t].location in restrictions)
    ensures d in prj.targets && (restrictions == {} || prj.targets[d].location in restrictions)
  {
    GraphEdgesMember(prj, restrictions, sorted, t, d);
    GraphEdgesMember(prj, {}, sorted, t, d);
  }

  /** Visiting one more target after `sorted` appends that target's edges. */
  lemma GraphEdgesSnoc(prj: Project, restrictions: set<string>, sorted: seq<string>, t: string)
    requires DependenciesResolve(prj) && AllTargets(prj, sorted) && t in prj.targets
    ensures AllTargets(prj, sorted + [t])
    ensures GraphEdges(prj, restrictions, sorted + [t])
         == GraphEdges(prj, restrictions, sorted) + TargetEdges(prj, restrictions, t)
  {
    assert (sorted + [t])[..|sorted|] == sorted;
  }

  /** Visiting `sorted1` then `sorted2` emits the edges of `sorted1` first, then those of `sorted2`. */
  lemma {:induction false} GraphEdgesAppend(prj: Project, restrictions: set<string>,
                                            sorted1: seq<string>, sorted2: seq<string>)
    requires DependenciesResolve(prj) && AllTargets(prj, sorted1 + sorted2)
    ensures GraphEdges(prj, restrictions, sorted1 + sorted2)
         == GraphEdges(prj, restrictions, sorted1) + GraphEdges(prj, restrictions, sorted2)
  {
    if sorted2 != [] {
      var init, last := sorted2[..|sorted2| - 1], sorted2[|sorted2| - 1];
      assert sorted2 == init + [last] && sorted1 + sorted2 == (sorted1 + init) + [last];
      GraphEdgesAppend(prj, restrictions, sorted1, init);
      GraphEdgesSnoc(prj, restrictions, init, last);
      GraphEdgesSnoc(prj, restrictions, sorted1 + init, last);
      AppendAssociative(GraphEdges(prj, restrictions, sorted1), GraphEdges(prj, restrictions, init),
                        TargetEdges(prj, restrictions, last));
    } else {
      assert sorted1 + sorted2 == sorted1;
    }
  }

  /** Over a topological order every edge points from a target to one listed before it. */
  lemma EdgesPointBackward(prj: Project, restrictions: set<string>, sorted: seq<string>, t: string, d: string)
    requires DependenciesResolve(prj) && IsTopologicalOrder(prj, sorted)
    requires (t, d) in GraphEdges(prj, restrictions, sorted)
    ensures exists i, j :: 0 <= j < i < |sorted| && sorted[i] == t && sorted[j] == d
  {
    GraphEdgesMember(prj, restrictions, sorted, t, d);
    var i :| 0 <= i < |sorted| && sorted[i] == t;
    var j :| 0 <= j < i && sorted[j] == d;
  }

  /** `prj` with the dependency list of target `t` replaced by `deps`. */
  function WithDependencies(prj: Project, t: string, deps: seq<string>): Project
    requires t in prj.targets
  {
    prj.(targets := prj.targets[t := prj.targets[t].(dependencies := deps)])
  }

  /** Visibility does not depend on any target's dependency list. */
  lemma {:induction false} DepEdgesIgnoreOtherLists(prj: Project, restrictions: set<string>, t: string,
                                                    newDeps: seq<string>, name: string, deps: seq<string>)
    requires t in prj.targets && forall d :: d in deps ==> d in prj.targets
    ensures DepEdges(WithDependencies(prj, t, newDeps), restrictions, name, deps)
         == DepEdges(prj, restrictions, name, deps)
  {
    if deps != [] {
      var d := deps[|deps| - 1];
      var prj' := WithDependencies(prj, t, newDeps);
      assert prj'.targets.Keys == prj.targets.Keys;
      assert prj'.targets[d].location == prj.targets[d].location;
      assert IsTopLevel(d, prj'.targets) == IsTopLevel(d, prj.targets);
      DepEdgesIgnoreOtherLists(prj, restrictions, t, newDeps, name, deps[..|deps| - 1]);
    }
  }

  /** Whatever the dependencies of an invisible target are, the emitted edges stay the same. */
  lemma {:induction false} InvisibleDependenciesIrrelevant(prj: Project, restrictions: set<string>,
                                                           sorted: seq<string>, t: string, deps: seq<string>)
    requires DependenciesResolve(prj) && AllTargets(prj, sorted)
    requires t in prj.targets && !Visible(prj, restrictions, t)
    requires forall d :: d in deps ==> d in prj.targets
    ensures DependenciesResolve(WithDependencies(prj, t, deps))
    ensures GraphEdges(WithDependencies(prj, t, deps), restrictions, sorted) == GraphEdges(prj, restrictions, sorted)
  {
    var prj' := WithDependencies(prj, t, deps);
    assert prj'.targets.Keys == prj.targets.Keys;
    assert DependenciesResolve(prj');
    if sorted != [] {
      var init, last := sorted[..|sorted| - 1], sorted[|sorted| - 1];
      InvisibleDependenciesIrrelevant(prj, restrictions, init, t, deps);
      assert IsTopLevel(last, prj'.targets) == IsTopLevel(last, prj.targets);
      if last != t {
        DepEdgesIgnoreOtherLists(prj, restrictions, t, deps, last, prj.targets[last].dependencies);
      } else {
        assert IsTopLevel(t, prj'.targets) == IsTopLevel(t, prj.targets);
      }
    }
  }

  /**
   * Names are printed without escaping, so an edge line only determines its edge when the
   * source name contains no double quote.
   */
  lemma EdgeLineInjective(a: string, b: string, c: string, d: string)
    requires '"' !in a && '"' !in c
    requires EdgeLine(a, b) == EdgeLine(c, d)
    ensures a == c && b == d
  {
    var line := EdgeLine(a, b);
    // The first quote after the opening one ends the source name, so both names have one length.
    assert line[3 + |a|] == '"' && line[3 + |c|] == '"';
    assert |a| == |c| && |b| == |d|;
  }

  /** Two different edges whose lines coincide, because the first source name contains quotes. */
  lemma EdgeLineAmbiguous()
    ensures EdgeLine("x\" -> \"y", "z") == EdgeLine("x", "y\" -> \"z")
  {
  }
}
