# Ant target dependency graph — a Dafny model

AntTargetDependencies reads an Ant build file and writes the dependency graph of its targets
as a Graphviz `strict digraph`. Its core is the rendering pass in `Main.java`:

- it walks the targets in the order Ant's topological sort returns;
- for each target that is visible, it writes one edge line for each declared dependency that
  is also visible, in declared order;
- it puts a header line before the edges and a footer line after them.

A target is visible when two things hold:

- its defining build file passes the restriction (the `-r` options; no `-r` means any file);
- it is *top-level*, meaning its name is not an override by naming convention. A name
  `X.Y` whose first dot is neither its first nor its last character is an override exactly
  when `Y` is the name of a target.

A small helper, `stripExt`, names the output file after the build file.

The model is split by component:

- `java_strings.dfy` (`JavaStrings`): `String.indexOf` and `String.lastIndexOf` for a char.
- `project.dfy` (`AntProject`): the parsed project, as a name, and a map from target name to
  the target's defining file and dependency list. It also holds what the renderer relies on
  from Ant: every dependency resolves, and the visiting order is a topological order.
- `visibility.dfy` (`Visibility`): the restriction predicate and `isTopLevel`. `IsTopLevel`
  is proved equal to an independent definition of "override name" (`IsOverrideName`).
- `graph.dfy` (`Graph`): the output as functions. `DepEdges` gives the edges of one dependency
  list, `TargetEdges` those of one target, `GraphEdges` those of a visiting order, and
  `GraphLines` the full list of lines. The lemmas state the properties of that output.
- `printer.dfy` (`Printer`): the imperative rendering pass. `Writer` stands for the
  `PrintWriter` and holds a list of lines that is only ever appended to. `PrintHeader`,
  `PrintTarget`, `PrintGraph` and `PrintFooter` are methods with the source's loops, proved to
  write exactly the lines the `Graph` functions describe.
- `file_names.dfy` (`FileNames`): `stripExt` and the graph file's name.
- `visibility_examples.dfy` (`VisibilityExamples`): the naming convention applied to concrete names.

Only the text after the first dot decides whether a name is an override
(`Main.java:115-117`): `X.Y` is hidden when `Y`, not `X`, is the name of a target. So
`build.debug` is hidden only when a target `debug` exists, and `compile.override` stays
visible when `compile` exists but `override` does not, so its edge to `init` is printed.
`VisibilityExamples` states both cases.

## Model

| member | source | states |
|---|---|---|
| `JavaStrings.IndexOf` | src/org/netbeans/antdepsgraph/Main.java:115 | the result is -1 exactly when the char is absent; otherwise it is the position of that char, and no earlier position holds it |
| `JavaStrings.LastIndexOf` | src/org/netbeans/antdepsgraph/Main.java:124 | the result is -1 exactly when the char is absent; otherwise it is the position of that char, and no later position holds it |
| `Visibility.Admits` | src/org/netbeans/antdepsgraph/Main.java:61 | an empty restriction set admits every location; a non-empty one admits exactly its members |
| `Visibility.IsTopLevel` | src/org/netbeans/antdepsgraph/Main.java:111-121 | a name is top-level exactly when it is not an override name: one with a dot at some interior position k, no dot before k, and the text after k naming a target |
| `Visibility.OverrideAtFirstDot` | src/org/netbeans/antdepsgraph/Main.java:115-117 | the override condition is decided by the first dot alone: it must be interior, and the text after it must be a target's name |
| `Visibility.FirstDotIsIndexOf` | src/org/netbeans/antdepsgraph/Main.java:115 | a dot with no dot before it is the index `indexOf('.')` returns |
| `Visibility.TopLevelWithoutInteriorDot` | src/org/netbeans/antdepsgraph/Main.java:116-120 | a name with no dot, whose first char is a dot, or whose first dot is its last char is top-level whatever targets exist |
| `Visibility.DottedName` | src/org/netbeans/antdepsgraph/Main.java:115-117 | `base.suffix`, with a non-empty dot-free base and a non-empty suffix, is top-level exactly when `suffix` (later dots included) is not a target's name |
| `VisibilityExamples.OverrideOfExistingBaseStaysVisible` | src/org/netbeans/antdepsgraph/Main.java:115-117 | `compile.override` is top-level when `compile` exists but `override` does not |
| `VisibilityExamples.HiddenBySuffixTarget` | src/org/netbeans/antdepsgraph/Main.java:115-117 | `build.debug` is hidden exactly when a target `debug` exists |
| `VisibilityExamples.OnlyFirstDotCounts` | src/org/netbeans/antdepsgraph/Main.java:115-117 | when a target `c` exists, `a.b.c` is still top-level exactly when no target `b.c` exists |
| `Graph.Visible` | src/org/netbeans/antdepsgraph/Main.java:95-100 | a target is visible exactly when its defining file is admitted (no restriction, or the file is among the restricted ones) and its name is not an override name |
| `Graph.HeaderLine` | src/org/netbeans/antdepsgraph/Main.java:85 | the header is `strict digraph "`, the project's name, then `" {`; the name can be read back from it |
| `Graph.EdgeLine` | src/org/netbeans/antdepsgraph/Main.java:101 | an edge line is two blanks, the quoted source name, ` -> `, the quoted dependency name and `;`: the fixed text around and between the names is stated, and both names can be read back from it |
| `Graph.FooterLine` | src/org/netbeans/antdepsgraph/Main.java:108 | the footer is the one-character line `}`, which equals no header and no edge line |
| `Graph.DepEdges` | src/org/netbeans/antdepsgraph/Main.java:96-103 | one dependency list never yields more edges than it has entries |
| `Graph.DepEdgesMember` | src/org/netbeans/antdepsgraph/Main.java:97-102 | an edge is emitted for a dependency list exactly when it goes from the target to a visible entry of the list |
| `Graph.DepEdgesAppend` | src/org/netbeans/antdepsgraph/Main.java:97-102 | the edges of two concatenated dependency lists are the edges of the first list followed by those of the second (declared order) |
| `Graph.DepEdgesAllVisible` | src/org/netbeans/antdepsgraph/Main.java:97-102 | when all dependencies are visible, there is one edge per entry in list order, with no deduplication: a repeated dependency gives a repeated edge |
| `Graph.TargetEdges` | src/org/netbeans/antdepsgraph/Main.java:93-104 | a target contributes at most one edge per declared dependency, and contributes edges only when it is visible itself |
| `Graph.GraphEdgesMember` | src/org/netbeans/antdepsgraph/Main.java:95-101 | an edge T -> D is emitted exactly when T is visited and visible, D is among T's declared dependencies, and D is visible |
| `Graph.UnrestrictedEdges` | src/org/netbeans/antdepsgraph/Main.java:61 | with an empty restriction set, the edges are exactly those between top-level targets |
| `Graph.RestrictionOnlyRemoves` | src/org/netbeans/antdepsgraph/Main.java:95-100 | every edge of a restricted graph is in the unrestricted graph, and both of its endpoints are defined in restricted files |
| `Graph.InvisibleSourceSilent` | src/org/netbeans/antdepsgraph/Main.java:95-104 | an invisible target is the source of no edge |
| `Graph.InvisibleDependencySilent` | src/org/netbeans/antdepsgraph/Main.java:100-102 | an invisible target is the dependency end of no edge |
| `Graph.InvisibleDependenciesIrrelevant` | src/org/netbeans/antdepsgraph/Main.java:95-104 | replacing the dependency list of an invisible target leaves the emitted edges unchanged |
| `Graph.GraphEdgesAppend` | src/org/netbeans/antdepsgraph/Main.java:76-78 | visiting one order after another emits the first order's edges, then the second's (sorted-target order) |
| `Graph.GraphEdges` | src/org/netbeans/antdepsgraph/Main.java:76-78 | the number of edge lines is at most the number of dependency entries, repeats included, over the visited targets |
| `Graph.GraphLines` | src/org/netbeans/antdepsgraph/Main.java:72-79 | the output starts with the header naming the project and ends with `}`, and has at least two and at most two more lines than there are dependency entries over the visited targets |
| `Graph.GraphLinesShape` | src/org/netbeans/antdepsgraph/Main.java:72-79 | the output is the `strict digraph "<name>" {` header, then one edge line per emitted edge in order, then `}` |
| `Graph.EdgesPointBackward` | src/org/netbeans/antdepsgraph/Main.java:75-77 | over a topological order, every emitted edge goes from a target to one listed before it |
| `Graph.EdgeLineInjective` | src/org/netbeans/antdepsgraph/Main.java:101 | when the source names contain no double quote, an edge line determines its edge |
| `Graph.EdgeLineAmbiguous` | src/org/netbeans/antdepsgraph/Main.java:101 | names are printed without escaping, so two different edges can print the same line |
| `Printer.Writer.constructor` | src/org/netbeans/antdepsgraph/Main.java:58 | a new output sink holds no lines |
| `Printer.Writer.PrintLine` | src/org/netbeans/antdepsgraph/Main.java:108 | writing a line appends it and changes nothing else |
| `Printer.PrintHeader` | src/org/netbeans/antdepsgraph/Main.java:82-86 | appends exactly the header line naming the project |
| `Printer.PrintFooter` | src/org/netbeans/antdepsgraph/Main.java:107-109 | appends exactly the line `}` |
| `Printer.PrintTarget` | src/org/netbeans/antdepsgraph/Main.java:88-105 | appends exactly the lines of the target's edges: none when the target is invisible, otherwise one line per visible dependency in declared order |
| `Printer.PrintGraph` | src/org/netbeans/antdepsgraph/Main.java:68-80 | given a topological order of all targets, appends exactly the header, the edge lines in visiting order, and the footer |
| `Printer.RenderGraph` | src/org/netbeans/antdepsgraph/Main.java:57-62 | the graph file's lines are exactly the output described by `GraphLines` |
| `FileNames.StripExt` | src/org/netbeans/antdepsgraph/Main.java:123-128 | the result is a prefix of the name, never longer. It equals the name exactly when there is no dot after the first char; otherwise the name continues with a dot, and no later char is a dot |
| `FileNames.StripExtRoundTrip` | src/org/netbeans/antdepsgraph/Main.java:123-128 | stripping `base.ext`, with a non-empty base and a dot-free extension, gives back `base` |
| `FileNames.StripExtHidden` | src/org/netbeans/antdepsgraph/Main.java:124-127 | a name whose only dot is its first char, such as `.hidden`, is unchanged |
| `FileNames.GraphFileName` | src/org/netbeans/antdepsgraph/Main.java:56 | the graph file's name is a prefix of the build file's name followed by `.dot`; it is the whole name followed by `.dot` when there is no dot after the first char |
| `FileNames.GraphFileNameReplacesExtension` | src/org/netbeans/antdepsgraph/Main.java:56 | the graph file of `base.ext` is `base.dot` |

## Left out

- Command-line parsing, file-existence and permission checks, `usage`, `error` and the exit
  codes (`Main.java:25-55`, `63-66`, `130-139`): process plumbing and file-system I/O.
- Parsing the build file (`ProjectHelper.configureProject`, line 60). The parsed project is
  an input, and every dependency resolving to a target is a precondition. The source looks
  each dependency up without a null check (lines 99-100).
- Ant's `Project.topoSort` (line 75), including its cycle detection. The visiting order is an
  input to `PrintGraph`, with the precondition `IsTopologicalOrder`: every target exactly
  once, and dependencies first. The unspecified order among unrelated targets stays an input.
  The source prints the header (line 72) before it calls `topoSort` (line 75). On a cycle or
  a missing dependency, Ant's `BuildException` escapes `main`, since the catch at line 63 only
  handles `IOException`, and the graph file is left holding just the header line. The model
  rules that case out by the precondition instead of modelling the partial file.
- A project without a name attribute: `getName()` is then null, and `printf` writes
  `strict digraph "null" {` (line 85). The project's name is a plain string in the model; that
  case corresponds to passing the name `"null"`.
- `File.getAbsolutePath` (line 38), the UTF-8 encoding and the `PrintWriter` mechanics
  (line 58). Locations are plain strings compared for equality. A `printf` ending in `%n`
  and a `println` each write one line.
- An Ant target with no known location has a null file name, which no restriction contains.
  Locations in the model are always strings.
- `printGraph` and `printTarget` take any `Predicate<String>`. The model uses the one
  predicate `main` builds (line 61), `Admits`, over the restriction set.
- The quoting of names: names are written verbatim, as in the source (lines 85 and 101).
  `EdgeLineAmbiguous` shows the consequence.
