/**
 * The parts of a POSIX `std::filesystem::path` that the file selection
 * reads: its string, its file name, its extension, the elements it iterates
 * over, the `/` operator and `parent_path`. Filename and extension follow
 * the decomposition rules of section 30.10.8.4.9 [fs.path.decompose] of
 * ISO/IEC 14882:2017.
 */
module Paths {
  import Split

  const Separator: char := '/'

  /** A path in normal form: an optional root directory, then file names.
      The absolute paths of the tool are rooted. */
  datatype Path = Path(rooted: bool, names: seq<string>)

  /** `path.string()`. */
  function ToString(p: Path): string
  {
    (if p.rooted then [Separator] else [])
    + (if p.names == [] then [] else Split.Join(p.names, Separator))
  }

  /** The elements a range-for over the path visits: the root directory
      `/` first when there is one, then each file name. */
  function Parts(p: Path): seq<string>
  {
    (if p.rooted then [[Separator]] else []) + p.names
  }

  /** `path.filename().string()`: the last file name, or empty. */
  function Filename(p: Path): string
  {
    if p.names == [] then [] else p.names[|p.names| - 1]
  }

  /** `path.filename()` as a relative path of at most one element. */
  function FilenamePath(p: Path): Path
  {
    Path(false, if p.names == [] then [] else [p.names[|p.names| - 1]])
  }

  /** Index of the rightmost `c` in `s`, or -1. */
  function LastIndexOf(s: string, c: char): (k: int)
    ensures -1 <= k < |s|
    ensures k >= 0 ==> s[k] == c
    ensures forall j | k < j < |s| :: s[j] != c
  {
    if s == [] then -1
    else if s[|s| - 1] == c then |s| - 1
    else LastIndexOf(s[..|s| - 1], c)
  }

  /** The extension of a file name: from its rightmost period on, except
      that `.`, `..`, a name without a period and a name whose only period
      is its first character have none. */
  function ExtensionOf(f: string): (e: string)
    ensures e != [] ==> e[0] == '.' && '.' !in e[1..] && |e| < |f| && f[|f| - |e|..] == e
    ensures e == [] <==>
      f == "." || f == ".." || '.' !in f || (f[0] == '.' && '.' !in f[1..])
  {
    var k := LastIndexOf(f, '.');
    if f == "." || f == ".." || k <= 0 then [] else f[k..]
  }

  /** `path.extension().string()`. */
  function Extension(p: Path): string
  {
    ExtensionOf(Filename(p))
  }

  /** `p / q`: a rooted `q` replaces `p`, a relative one is appended. */
  function Append(p: Path, q: Path): Path
  {
    if q.rooted then q else Path(p.rooted, p.names + q.names)
  }

  /** `path.parent_path()`: the path without its file name. */
  function ParentPath(p: Path): (r: Path)
    ensures r.rooted == p.rooted
    ensures p.names != [] ==> Append(r, FilenamePath(p)) == p
  {
    if p.names == [] then p else Path(p.rooted, p.names[..|p.names| - 1])
  }
}
