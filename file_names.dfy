/** The file-name helper of Main.java: the graph file is named after the build file. */
module FileNames {
  import opened JavaStrings

  /**
   * Drops the extension: everything from the last '.' on, unless that dot is the first
   * character (or there is no dot), in which case the name is returned unchanged.
   */
  function StripExt(fileName: string): (r: string)
    ensures |r| <= |fileName| && r == fileName[..|r|]
    ensures r == fileName <==> fileName == [] || '.' !in fileName[1..]
    ensures r != fileName ==> 0 < |r| && fileName[|r|] == '.' && '.' !in fileName[|r| + 1..]
  {
    var index := LastIndexOf(fileName, '.');
    if index > 0 then
      assert fileName[1..][index - 1] == '.';
      fileName[..index]
    else
      fileName
  }

  /**
   * The name of the graph file main writes beside the build file: a prefix of the build
   * file's name followed by `.dot`, the whole name when it has no extension to strip.
   */
  function GraphFileName(buildFileName: string): (r: string)
    ensures 4 <= |r| <= |buildFileName| + 4 && r[|r| - 4..] == ".dot"
    ensures r[..|r| - 4] == buildFileName[..|r| - 4]
    ensures buildFileName == [] || '.' !in buildFileName[1..] ==> r == buildFileName + ".dot"
  {
    StripExt(buildFileName) + ".dot"
  }

  /** Stripping undoes appending an extension to a non-empty base name. */
  lemma StripExtRoundTrip(base: string, ext: string)
    requires base != [] && '.' !in ext
    ensures StripExt(base + "." + ext) == base
  {
    LastIndexOfBeforeSuffix(base, '.', ext);
    assert (base + "." + ext)[..|base|] == base;
  }

  /** A name whose only dot is its first character, such as ".hidden", is left unchanged. */
  lemma StripExtHidden(rest: string)
    requires '.' !in rest
    ensures StripExt("." + rest) == "." + rest
  {
    assert ("." + rest)[1..] == rest;
  }

  /** The graph file of `base.ext` is `base.dot`. */
  lemma GraphFileNameReplacesExtension(base: string, ext: string)
    requires base != [] && '.' !in ext
    ensures GraphFileName(base + "." + ext) == base + ".dot"
  {
    StripExtRoundTrip(base, ext);
  }
}
