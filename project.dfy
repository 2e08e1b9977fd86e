/**
 * The parsed build project as the graph renderer receives it. Parsing the build file and
 * ordering its targets are done by Ant itself; this module states what the renderer relies on.
 */
module AntProject {

  /**
   * One build target: the file that defines it and its dependencies in declared order
   * (repeats allowed). A target's name is its key in Project.targets.
   */
  datatype Target = Target(location: string, dependencies: seq<string>)

  /** A project: its display name and its targets by name. */
  datatype Project = Project(name: string, targets: map<string, Target>)

  /** Every name in `names` is a target of the project. */
  ghost predicate AllTargets(prj: Project, names: seq<string>) {
    forall n :: n in names ==> n in prj.targets
  }

  /** Every declared dependency names a target of the project (the renderer looks each one up). */
  ghost predicate DependenciesResolve(prj: Project) {
    forall n, d :: n in prj.targets && d in prj.targets[n].dependencies ==> d in prj.targets
  }

  /**
   * What the renderer relies on from Ant's topological sort: every target exactly once,
   * and every dependency of a target listed before the target itself.
   */
  ghost predicate IsTopologicalOrder(prj: Project, sorted: seq<string>) {
    && AllTargets(prj, sorted)
    && (forall n :: n in prj.targets ==> n in sorted)
    && (forall i, j :: 0 <= i < j < |sorted| ==> sorted[i] != sorted[j])
    && (forall i, d ::
          0 <= i < |sorted| && sorted[i] in prj.targets && d in prj.targets[sorted[i]].dependencies ==>
            d in sorted[..i])
  }
}
