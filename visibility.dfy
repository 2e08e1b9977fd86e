/** The visibility filter: the origin-file restriction and the top-level naming check. */
module Visibility {
  import opened JavaStrings
  import opened AntProject

  /**
   * The restriction predicate that main passes to the renderer: with no restriction every
   * location passes, otherwise exactly the listed build files do.
   */
  function Admits(restrictions: set<string>, location: string): (r: bool)
    ensures restrictions == {} ==> r
    ensures restrictions != {} ==> (r <==> location in restrictions)
  {
    restrictions == {} || location in restrictions
  }

  /**
   * `name` overrides an existing target by naming convention: its first '.' is neither the
   * first nor the last character, and the text after that dot is the name of a target.
   */
  ghost predicate IsOverrideName(name: string, names: set<string>) {
    exists k :: 0 < k < |name| - 1 && name[k] == '.' && '.' !in name[..k] && name[k + 1..] in names
  }

  /** A target is top-level unless its name is an override of another target's name. */
  function IsTopLevel(name: string, targets: map<string, Target>): (r: bool)
    ensures r <==> !IsOverrideName(name, targets.Keys)
  {
    OverrideAtFirstDot(name, targets.Keys);
    var index := IndexOf(name, '.');
    if 0 < index < |name| - 1 then name[index + 1..] !in targets else true
  }

  /** The override condition only ever looks at the first dot of the name. */
  lemma OverrideAtFirstDot(name: string, names: set<string>)
    ensures IsOverrideName(name, names) <==>
              var i := IndexOf(name, '.');
              0 < i < |name| - 1 && name[i + 1..] in names
  {
    var i := IndexOf(name, '.');
    if IsOverrideName(name, names) {
      var k :| 0 < k < |name| - 1 && name[k] == '.' && '.' !in name[..k] && name[k + 1..] in names;
      FirstDotIsIndexOf(name, k);
    } else if 0 < i < |name| - 1 && name[i + 1..] in names {
      assert false;
    }
  }

  /** A dot with no dot before it is the one IndexOf finds. */
  lemma FirstDotIsIndexOf(name: string, k: nat)
    requires k < |name| && name[k] == '.' && '.' !in name[..k]
    ensures IndexOf(name, '.') == k
  {
    assert name == name[..k] + ['.'] + name[k + 1..];
    IndexOfAfterPrefix(name[..k], '.', name[k + 1..]);
  }

  /**
   * A name without a dot, or whose first dot is its first or its last character, is always
   * top-level, whatever targets exist.
   */
  lemma TopLevelWithoutInteriorDot(name: string, targets: map<string, Target>)
    requires '.' !in name || name[0] == '.' || '.' !in name[..|name| - 1]
    ensures IsTopLevel(name, targets)
  {
  }

  /**
   * For `base.suffix` with a non-empty base free of dots and a non-empty suffix, the target is
   * hidden exactly when `suffix` (later dots included) is the name of a target.
   */
  lemma DottedName(base: string, suffix: string, targets: map<string, Target>)
    requires base != [] && '.' !in base && suffix != []
    ensures IsTopLevel(base + "." + suffix, targets) <==> suffix !in targets
  {
    var name := base + "." + suffix;
    IndexOfAfterPrefix(base, '.', suffix);
    assert name[|base| + 1..] == suffix;
  }
}
