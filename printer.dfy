/**
 * The rendering pass of Main.java: printHeader, printTarget, printGraph and printFooter,
 * writing to an output sink that is only ever appended to.
 */
module Printer {
  import opened AntProject
  import opened Visibility
  import opened Graph

  /** The PrintWriter the graph is written to, seen as the list of lines written so far. */
  class Writer {
    var lines: seq<string>

    constructor ()
      ensures lines == []
    {
      lines := [];
    }

    /** Writes one line (a printf ending in %n, or a println). */
    method PrintLine(line: string)
      modifies this
      ensures lines == old(lines) + [line]
    {
      lines := lines + [line];
    }
  }

  method PrintHeader(out: Writer, prj: Project)
    modifies out
    ensures out.lines == old(out.lines) + [HeaderLine(prj.name)]
  {
    out.PrintLine(HeaderLine(prj.name));
  }

  method PrintFooter(out: Writer)
    modifies out
    ensures out.lines == old(out.lines) + [FooterLine()]
  {
    out.PrintLine(FooterLine());
  }

  /** Writes the edge lines of one target: nothing unless the target and the dependency are visible. */
  method PrintTarget(out: Writer, prj: Project, restrictions: set<string>, name: string)
    requires DependenciesResolve(prj) && name in prj.targets
    modifies out
    ensures out.lines == old(out.lines) + Lines(TargetEdges(prj, restrictions, name))
  {
    var loc := prj.targets[name].location;
    if Admits(restrictions, loc) && IsTopLevel(name, prj.targets) {
      var deps := prj.targets[name].dependencies;
      var i := 0;
      while i < |deps|
        invariant 0 <= i <= |deps|
        invariant out.lines == old(out.lines) + Lines(DepEdges(prj, restrictions, name, deps[..i]))
      {
        var dep := deps[i];
        var dt := prj.targets[dep];
        ghost var done := DepEdges(prj, restrictions, name, deps[..i]);
        DepEdgesPrefix(prj, restrictions, name, deps, i);
        if Admits(restrictions, dt.location) && IsTopLevel(dep, prj.targets) {
          LinesAppend(done, [(name, dep)]);
          LinesSingle((name, dep));
          AppendAssociative(old(out.lines), Lines(done), [EdgeLine(name, dep)]);
          out.PrintLine(EdgeLine(name, dep));
        } else {
          assert done + [] == done;
        }
        i := i + 1;
      }
      assert deps[..i] == deps;
    }
  }

  /** Writes the whole graph for the targets in `sorted`, the order Ant's topological sort returns. */
  method PrintGraph(out: Writer, prj: Project, restrictions: set<string>, sorted: seq<string>)
    requires DependenciesResolve(prj) && IsTopologicalOrder(prj, sorted)
    modifies out
    ensures out.lines == old(out.lines) + GraphLines(prj, restrictions, sorted)
  {
    PrintHeader(out, prj);
    var i := 0;
    while i < |sorted|
      invariant 0 <= i <= |sorted|
      invariant AllTargets(prj, sorted[..i])
      invariant out.lines == old(out.lines) + [HeaderLine(prj.name)] + Lines(GraphEdges(prj, restrictions, sorted[..i]))
    {
      GraphEdgesPrefix(prj, restrictions, sorted, i);
      ghost var done, next := GraphEdges(prj, restrictions, sorted[..i]), TargetEdges(prj, restrictions, sorted[i]);
      LinesAppend(done, next);
      AppendAssociative(old(out.lines) + [HeaderLine(prj.name)], Lines(done), Lines(next));
      PrintTarget(out, prj, restrictions, sorted[i]);
      i := i + 1;
    }
    PrintFooter(out);
    assert sorted[..i] == sorted;
    ghost var edgeLines := Lines(GraphEdges(prj, restrictions, sorted[..i]));
    AppendAssociative(old(out.lines), [HeaderLine(prj.name)], edgeLines);
    AppendAssociative(old(out.lines), [HeaderLine(prj.name)] + edgeLines, [FooterLine()]);
  }

  /**
   * What main writes into the graph file: a fresh writer, the restriction predicate built from
   * the restriction set, and the whole graph.
   */
  method RenderGraph(prj: Project, restrictions: set<string>, sorted: seq<string>) returns (lines: seq<string>)
    requires DependenciesResolve(prj) && IsTopologicalOrder(prj, sorted)
    ensures lines == GraphLines(prj, restrictions, sorted)
  {
    var out := new Writer();
    PrintGraph(out, prj, restrictions, sorted);
    lines := out.lines;
  }
}
