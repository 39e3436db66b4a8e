/**
 * The `pathlib` reading of a file name the agents use to skip files by extension.
 */
module Paths {
  import opened Text

  /** `Path(filename).name`, for '/'-separated names. */
  function BaseName(filename: string): (r: string)
    ensures |r| <= |filename|
  {
    var k := RFind(filename, "/");
    if k < 0 then filename else filename[k + 1..]
  }

  /** `Path(filename).suffix`: from the last '.' of the base name, unless that dot is its
      first or last character. */
  function Suffix(filename: string): (r: string)
    ensures |r| == 0 || r[0] == '.'
  {
    var name := BaseName(filename);
    var i := RFind(name, ".");
    if 0 < i < |name| - 1 then name[i..] else ""
  }

  /** `'.' not in filename or ext in exts`. */
  predicate SkippedBy(filename: string, exts: seq<string>) {
    !Contains(filename, ".") || Lower(Suffix(filename)) in exts
  }

  /** A name "stem.ext" with a non-empty stem, no '/' and no further '.' in the extension
      has the suffix ".ext". */
  lemma SuffixOf(stem: string, ext: string)
    requires |stem| > 0 && |ext| > 0 && '/' !in stem && '/' !in ext && '.' !in ext
    ensures Suffix(stem + "." + ext) == "." + ext
  {
    var name := stem + "." + ext;
    BaseNameNoSlash(name);
    RFindBeforeFree(stem, ".", ext);
    assert name[|stem|..] == "." + ext;
  }

  /** A name without '/' is its own base name. */
  lemma BaseNameNoSlash(name: string)
    requires '/' !in name
    ensures BaseName(name) == name
  {
    assert !Contains(name, "/") by {
      forall j | 0 <= j < |name| ensures !OccursAt(name, "/", j) {
        assert name[j..j + 1] == [name[j]];
      }
    }
  }

  /** A name whose only dot is its first character has no suffix. */
  lemma DotFirst(ext: string)
    requires '/' !in ext && '.' !in ext
    ensures Suffix("." + ext) == ""
  {
    var name := "." + ext;
    BaseNameNoSlash(name);
    assert "" + "." + ext == name;
    RFindBeforeFree("", ".", ext);
  }
}
