/** The small part of pathlib and the file system the archiver relies on:
    joining paths, file-name suffixes, and directory entries. */
module Files {

  newtype byte = b: int | 0 <= b < 256

  /** A path is its string form; pathlib's normalisation is not modelled. */
  type Path = string

  predicate IsAbsolute(p: Path) {
    |p| > 0 && p[0] == '/'
  }

  /** pathlib's `base / name`: an absolute right operand replaces the left one. */
  function Join(base: Path, name: string): Path {
    if IsAbsolute(name) then name else base + "/" + name
  }

  /** Python's `str.endswith`. */
  predicate EndsWith(s: string, suffix: string) {
    |suffix| <= |s| && s[|s| - |suffix|..] == suffix
  }

  /** Python's `str.rfind` for one character: the last index holding `c`, or -1. */
  function LastIndexOf(s: string, c: char): (i: int)
    ensures -1 <= i < |s|
    ensures i >= 0 ==> s[i] == c
    ensures forall j :: i < j < |s| ==> s[j] != c
  {
    if s == [] then -1
    else if s[|s| - 1] == c then |s| - 1
    else LastIndexOf(s[..|s| - 1], c)
  }

  /** `PurePath.suffix` of a file name: from its last dot on, unless that dot
      is the first character (a hidden file) or the last one. */
  function Suffix(name: string): string {
    var i := LastIndexOf(name, '.');
    if 0 < i < |name| - 1 then name[i..] else ""
  }

  /** The suffix is ".json" exactly when the name ends in ".json" and has
      something before it; a file named just ".json" has no suffix. */
  lemma SuffixIsJson(name: string)
    ensures Suffix(name) == ".json" <==> EndsWith(name, ".json") && |name| > 5
  {
    var i := LastIndexOf(name, '.');
    if EndsWith(name, ".json") && |name| > 5 {
      var n := |name|;
      assert name[n - 5..] == ".json";
      assert name[n - 5] == '.';
      assert i >= n - 5;
      forall j | n - 5 < j < n ensures name[j] != '.' {
        assert name[j] == ".json"[j - (n - 5)];
      }
      assert i == n - 5;
    }
    if Suffix(name) == ".json" {
      assert 0 < i && name[i..] == ".json";
      assert |name| == i + 5;
    }
  }

  /** One entry of a directory listing, with what `stat()` and reading the
      file would give. Modification times are whole numbers here. */
  datatype DirEntry = DirEntry(name: string, isFile: bool, mtime: int, data: seq<byte>)
}
