/**
 * Absolute filesystem paths as sequences of components, with the lexical
 * operations of Python's pathlib that the tracker relies on.
 */
module Paths {
  import opened Text

  /** The components of an absolute path; [] is the root "/". */
  type Path = seq<string>

  /** `Path.name`: the last component ("" for the root). */
  function Name(p: Path): string {
    if |p| == 0 then "" else p[|p| - 1]
  }

  /** `Path.parent`: everything but the last component (the root is its own parent). */
  function Parent(p: Path): Path {
    if |p| == 0 then [] else p[..|p| - 1]
  }

  /** `a in p.parents`: `a` is a proper prefix of `p`. */
  predicate IsAncestor(a: Path, p: Path) {
    |a| < |p| && p[..|a|] == a
  }

  /**
   * `PurePath.suffix` of a file name: from the last dot to the end, provided
   * that dot is neither the first nor the last character; otherwise "".
   */
  function Suffix(name: string): string {
    var i := LastIndexOf(name, '.');
    if 0 < i < |name| - 1 then name[i..] else ""
  }

  /**
   * A suffix is empty exactly when the name has no dot, or only a leading or
   * a trailing last dot; otherwise it is a dot and at least one more
   * character, none of them a dot, ending the name.
   */
  lemma SuffixShape(name: string)
    ensures var r := Suffix(name);
      && (r == "" <==> '.' !in name || LastIndexOf(name, '.') == 0 || LastIndexOf(name, '.') == |name| - 1)
      && (r != "" ==> |r| >= 2 && r[0] == '.' && '.' !in r[1..])
      && (r != "" ==> exists i :: 0 < i < |name| - 1 && name[i..] == r)
  {
    var i := LastIndexOf(name, '.');
    if 0 < i < |name| - 1 {
      assert name[i..][1..] == name[i + 1..];
    }
  }

  /** `str(p)`: components joined with "/" after a leading "/". */
  function Render(p: Path): string {
    if |p| == 0 then "/"
    else if |p| == 1 then "/" + p[0]
    else Render(p[..|p| - 1]) + "/" + p[|p| - 1]
  }
}
