/**
 * FileUtils: the file-name helpers, taken over the path string. `new File(path).getName()`
 * is the text after the last '/'; the extension is what follows the last '.', provided
 * that dot is not the name's first character.
 */
module FileUtils {
  import opened JavaStrings

  /** `new File(path).getName()`: the text after the last '/'. */
  function FileName(path: string): (r: string)
    ensures '/' !in r
    ensures |r| <= |path| && path[|path| - |r|..] == r
  {
    path[LastIndexOf(path, '/') + 1..]
  }

  /** A path ending in `/name` names the file `name`. */
  lemma FileNameOfPath(dir: string, name: string)
    requires '/' !in name
    ensures FileName(dir + "/" + name) == name
  {
    LastIndexOfBefore(dir, '/', name);
    assert (dir + "/" + name)[|dir| + 1..] == name;
  }

  /** `getFileExtension`: the text after the last '.' when that dot has an index above 0, else "". */
  function GetFileExtension(path: string): (r: string)
    ensures '.' !in r && '/' !in r
    ensures |r| <= |FileName(path)|
  {
    var name := FileName(path);
    var lastDot := LastIndexOf(name, '.');
    if lastDot > 0 then name[lastDot + 1..] else ""
  }

  /** `getFileNameWithoutExtension`: the text before the last '.' when its index is above 0, else the whole name. */
  function GetFileNameWithoutExtension(path: string): (r: string)
    ensures '/' !in r
    ensures |r| <= |FileName(path)| && r == FileName(path)[..|r|]
  {
    var name := FileName(path);
    var lastDot := LastIndexOf(name, '.');
    if lastDot > 0 then name[..lastDot] else name
  }

  /** The file has an extension: its name contains a '.' after the first character. */
  predicate HasExtension(path: string)
  {
    LastIndexOf(FileName(path), '.') > 0
  }

  /**
   * The two halves put back together give the file name; without an extension the
   * name is returned whole and the extension is empty.
   */
  lemma ExtensionSplitRoundTrip(path: string)
    ensures HasExtension(path) ==>
              GetFileNameWithoutExtension(path) + "." + GetFileExtension(path) == FileName(path)
    ensures HasExtension(path) ==> |GetFileNameWithoutExtension(path)| > 0
    ensures !HasExtension(path) ==>
              GetFileExtension(path) == "" && GetFileNameWithoutExtension(path) == FileName(path)
  {
    var name := FileName(path);
    var lastDot := LastIndexOf(name, '.');
    if lastDot > 0 {
      assert name == name[..lastDot] + "." + name[lastDot + 1..];
    }
  }

  /** `base.ext` with a non-empty base and no '.' in the extension splits into `base` and `ext`. */
  lemma ExtensionOfName(dir: string, base: string, ext: string)
    requires '/' !in base && '/' !in ext && '.' !in ext && base != []
    ensures GetFileExtension(dir + "/" + base + "." + ext) == ext
    ensures GetFileNameWithoutExtension(dir + "/" + base + "." + ext) == base
  {
    var path := dir + "/" + base + "." + ext;
    assert path == dir + "/" + (base + "." + ext);
    FileNameOfPath(dir, base + "." + ext);
    LastIndexOfBefore(base, '.', ext);
    assert (base + "." + ext)[..|base|] == base;
    assert (base + "." + ext)[|base| + 1..] == ext;
  }

  /** A name whose only dot is its first character (".gitignore") has no extension. */
  lemma DotFileHasNoExtension(dir: string, rest: string)
    requires '/' !in rest && '.' !in rest
    ensures GetFileExtension(dir + "/." + rest) == ""
    ensures GetFileNameWithoutExtension(dir + "/." + rest) == "." + rest
  {
    assert dir + "/." + rest == dir + "/" + ("." + rest);
    FileNameOfPath(dir, "." + rest);
    LastIndexOfBefore([], '.', rest);
    assert [] + "." + rest == "." + rest;
  }
}
